/**
 * The write paths of the incident API: creating an incident with its tags,
 * the partial update that reconciles an incident's tags against the
 * submitted set, the field filter on partial updates, the acknowledgement
 * rules, and the update operations that are refused outright.
 */
module Serializers {
  import opened Wrappers
  import opened Tags
  import opened Incidents

  // ---------------------------------------------------------------------------
  // Creating an incident

  /** The set a list of submitted tags collapses to. */
  function TagSet(tags: seq<Tag>): set<Tag> {
    set t | t in tags
  }

  /** Get or create every submitted tag in the tag table. */
  method ResolveTags(store: TagStore, tags: seq<Tag>) returns (posted: set<Tag>)
    modifies store
    ensures posted == TagSet(tags)
    ensures store.tags == old(store.tags) + posted
  {
    posted := {};
    var i := 0;
    while i < |tags|
      invariant 0 <= i <= |tags|
      invariant posted == TagSet(tags[..i])
      invariant store.tags == old(store.tags) + posted
    {
      assert tags[..i + 1] == tags[..i] + [tags[i]];
      var _ := store.GetOrCreate(tags[i]);
      posted := posted + {tags[i]};
      i := i + 1;
    }
    assert tags[..|tags|] == tags;
  }

  /** Link every tag of `add` to the incident on behalf of `user`. */
  method AddTags(incident: Incident, add: set<Tag>, user: User, now: int)
    requires incident.Valid() && add !! incident.LinkedTags()
    modifies incident`relations
    ensures incident.Valid()
    ensures incident.LinkedTags() == old(incident.LinkedTags()) + add
    ensures |incident.relations| >= |old(incident.relations)|
    ensures incident.relations[..|old(incident.relations)|] == old(incident.relations)
    ensures forall j :: |old(incident.relations)| <= j < |incident.relations| ==>
      incident.relations[j].tag in add && incident.relations[j].addedBy == user.id && incident.relations[j].addedTime == now
  {
    var todo := add;
    ghost var start := incident.relations;
    while todo != {}
      invariant incident.Valid()
      invariant todo <= add
      invariant incident.LinkedTags() == TagsOf(start) + (add - todo)
      invariant todo !! incident.LinkedTags()
      invariant |incident.relations| >= |start| && incident.relations[..|start|] == start
      invariant forall j :: |start| <= j < |incident.relations| ==>
        incident.relations[j].tag in add && incident.relations[j].addedBy == user.id && incident.relations[j].addedTime == now
      decreases todo
    {
      var t :| t in todo;
      ghost var before := incident.relations;
      incident.AddTagRelation(t, user.id, now);
      assert TagsOf(before + [TagRelation(t, user.id, now)]) == TagsOf(before) + {t};
      assert (before + [TagRelation(t, user.id, now)])[..|start|] == before[..|start|];
      todo := todo - {t};
    }
  }

  /**
   * `IncidentSerializer.create`: the submitted tags are looked up or created,
   * the incident is created, and each distinct tag is linked to it on behalf
   * of the creating user.
   */
  method CreateIncident(store: TagStore, user: User, now: int, startTime: int, endTime: EndTime,
                        source: nat, sourceIncidentId: string, detailsUrl: string,
                        description: string, ticketUrl: string, tags: seq<Tag>)
    returns (incident: Incident)
    modifies store
    ensures fresh(incident) && incident.Valid()
    ensures store.tags == old(store.tags) + TagSet(tags)
    ensures incident.LinkedTags() == TagSet(tags)
    ensures forall r :: r in incident.relations ==> r.addedBy == user.id && r.addedTime == now
    ensures incident.startTime == startTime && incident.endTime == endTime && incident.source == source
    ensures incident.sourceIncidentId == sourceIncidentId && incident.detailsUrl == detailsUrl
    ensures incident.description == description && incident.ticketUrl == ticketUrl
  {
    var posted := ResolveTags(store, tags);
    incident := new Incident(startTime, endTime, source, sourceIncidentId, detailsUrl, description, ticketUrl);
    AddTags(incident, posted, user, now);
  }

  /** `IncidentSerializer.update` is not supported; partial updates go through `UpdateIncident`. */
  function IncidentSerializerUpdate<T>(data: T): (r: Result<(), string>)
    ensures r.Err?
  {
    Err("NotImplementedError")
  }

  // ---------------------------------------------------------------------------
  // Partial update: reconciling the tags

  const CannotRemoveMessage: string := "Cannot remove this tag when you're not the one who added it."

  /** The text of each relation's tag, as the error map's keys. */
  function ErrorKeys(rels: set<TagRelation>): (keys: set<string>)
    ensures keys == {} <==> rels == {}
  {
    var keys := set x | x in rels :: Representation(x.tag);
    assert forall x :: x in rels ==> Representation(x.tag) in keys;
    keys
  }

  /** One entry, keyed by the tag's text, per relation in `remove` that `user` did not add. */
  method CollectRemovalErrors(remove: seq<TagRelation>, user: User) returns (errors: map<string, string>)
    ensures errors.Keys == ErrorKeys(set r | r in remove && r.addedBy != user.id)
    ensures forall k :: k in errors ==> errors[k] == CannotRemoveMessage
  {
    errors := map[];
    var i := 0;
    while i < |remove|
      invariant 0 <= i <= |remove|
      invariant errors.Keys == ErrorKeys(set r | r in remove[..i] && r.addedBy != user.id)
      invariant forall k :: k in errors ==> errors[k] == CannotRemoveMessage
    {
      assert remove[..i + 1] == remove[..i] + [remove[i]];
      if remove[i].addedBy != user.id {
        errors := errors[Representation(remove[i].tag) := CannotRemoveMessage];
      }
      i := i + 1;
    }
    assert remove[..|remove|] == remove;
  }

  /** The relations a non-superuser may not remove: not posted, and added by someone else. */
  function Offending(rels: seq<TagRelation>, posted: set<Tag>, user: User): (r: set<TagRelation>)
    ensures forall x :: x in r <==> x in Removed(rels, posted) && x.addedBy != user.id
    ensures forall x :: x in r ==> x.tag !in posted && x.tag in TagsOf(rels)
  {
    set x | x in rels && x.tag !in posted && x.addedBy != user.id
  }

  /** The submitted tag list; leaving `tags` out submits the empty list. */
  function PostedList(tagsData: Option<seq<Tag>>): seq<Tag> {
    if tagsData.Some? then tagsData.value else []
  }

  /**
   * `IncidentPureDeserializer.update`. The submitted tags are the full
   * desired set: relations whose tag was not submitted are removed and
   * submitted tags not yet linked are added on behalf of `user`. A user who
   * is not a superuser may remove only relations they added; otherwise the
   * whole update is refused with one error per offending tag and neither the
   * relations nor the URLs change. The submitted tags are looked up or
   * created in any case. On success the submitted URLs are stored.
   */
  method UpdateIncident(incident: Incident, store: TagStore, user: User, now: int,
                        tagsData: Option<seq<Tag>>, detailsUrl: Option<string>, ticketUrl: Option<string>)
    returns (r: Result<(), map<string, string>>)
    requires incident.Valid()
    modifies incident`relations, incident`detailsUrl, incident`ticketUrl, store
    ensures incident.Valid()
    ensures store.tags == old(store.tags) + TagSet(PostedList(tagsData))
    ensures r.Err? <==> !user.isSuperuser && Offending(old(incident.relations), TagSet(PostedList(tagsData)), user) != {}
    ensures r.Err? ==> r.error.Keys == ErrorKeys(Offending(old(incident.relations), TagSet(PostedList(tagsData)), user))
    ensures r.Err? ==> forall k :: k in r.error ==> r.error[k] == CannotRemoveMessage
    ensures r.Err? ==> (incident.relations == old(incident.relations)
      && incident.detailsUrl == old(incident.detailsUrl) && incident.ticketUrl == old(incident.ticketUrl))
    ensures r.Ok? ==> incident.LinkedTags() == TagSet(PostedList(tagsData))
    ensures r.Ok? ==> forall x :: x in old(incident.relations) && x.tag in TagSet(PostedList(tagsData)) ==> x in incident.relations
    ensures r.Ok? ==> forall x :: x in incident.relations && x !in old(incident.relations) ==>
      x.addedBy == user.id && x.addedTime == now && x.tag !in old(incident.LinkedTags())
    ensures r.Ok? ==> incident.detailsUrl == (if detailsUrl.Some? then detailsUrl.value else old(incident.detailsUrl))
    ensures r.Ok? ==> incident.ticketUrl == (if ticketUrl.Some? then ticketUrl.value else old(incident.ticketUrl))
  {
    var posted := ResolveTags(store, PostedList(tagsData));
    var existing := incident.relations;
    var remove := Removed(existing, posted);
    var add := posted - TagsOf(existing);

    if !user.isSuperuser {
      var errors := CollectRemovalErrors(remove, user);
      assert (set x | x in remove && x.addedBy != user.id) == Offending(existing, posted, user);
      if errors != map[] {
        return Err(errors);
      }
    }

    DeleteRelations(incident, remove);
    ExcludeIsKept(existing, RelationSet(remove), posted);
    ghost var kept := incident.relations;

    AddTags(incident, add, user, now);
    AppendedRelations(existing, kept, incident.relations, add);

    if detailsUrl.Some? {
      incident.detailsUrl := detailsUrl.value;
    }
    if ticketUrl.Some? {
      incident.ticketUrl := ticketUrl.value;
    }
    r := Ok(());
  }

  /** Delete each relation of `remove` from the incident. */
  method DeleteRelations(incident: Incident, remove: seq<TagRelation>)
    requires incident.Valid()
    modifies incident`relations
    ensures incident.Valid()
    ensures incident.relations == Exclude(old(incident.relations), RelationSet(remove))
  {
    ghost var existing := incident.relations;
    var i := 0;
    ExcludeNothing(existing);
    assert RelationSet(remove[..0]) == {};
    while i < |remove|
      invariant 0 <= i <= |remove|
      invariant incident.Valid()
      invariant incident.relations == Exclude(existing, RelationSet(remove[..i]))
    {
      assert remove[..i + 1] == remove[..i] + [remove[i]];
      assert RelationSet(remove[..i + 1]) == RelationSet(remove[..i]) + {remove[i]};
      ExcludeTwice(existing, RelationSet(remove[..i]), {remove[i]});
      incident.DeleteTagRelation(remove[i]);
      i := i + 1;
    }
    assert remove[..|remove|] == remove;
  }

  /**
   * After the deletions leave `kept` and the additions append rows for `add`,
   * every row that was not there before carries a tag the incident did not have.
   */
  lemma AppendedRelations(existing: seq<TagRelation>, kept: seq<TagRelation>, final: seq<TagRelation>, add: set<Tag>)
    requires forall x :: x in kept ==> x in existing
    requires |final| >= |kept| && final[..|kept|] == kept
    requires forall j :: |kept| <= j < |final| ==> final[j].tag in add
    requires add !! TagsOf(existing)
    ensures forall x :: x in final && x !in existing ==> x.tag in add && x.tag !in TagsOf(existing)
  {
    forall x | x in final && x !in existing
      ensures x.tag in add
    {
      var j :| 0 <= j < |final| && final[j] == x;
    }
  }

  /**
   * An incident tagged a=1 by user 1 and b=2 by user 2: user 1, not a
   * superuser, submitting {a=1, c=3} would remove b=2, which user 1 did not add.
   */
  lemma OthersTagBlocksRemoval()
    ensures var a, b, c := Tag("a", "1"), Tag("b", "2"), Tag("c", "3");
      var rels := [TagRelation(a, 1, 0), TagRelation(b, 2, 0)];
      Offending(rels, {a, c}, User(1, false)) == {TagRelation(b, 2, 0)}
  {
  }

  /** An incident tagged a=1 by user 1 and b=2 by user 2. */
  method ScenarioIncident() returns (incident: Incident)
    ensures fresh(incident) && incident.Valid()
    ensures incident.relations == [TagRelation(Tag("a", "1"), 1, 0), TagRelation(Tag("b", "2"), 2, 0)]
  {
    incident := new Incident(0, Infinity, 1, "42", "", "", "");
    incident.AddTagRelation(Tag("a", "1"), 1, 0);
    assert TagsOf([TagRelation(Tag("a", "1"), 1, 0)]) == {Tag("a", "1")};
    incident.AddTagRelation(Tag("b", "2"), 2, 0);
  }

  /** User 1, not a superuser, submitting {a=1, c=3} is refused and both tags stay. */
  method RefusedScenario(now: int) {
    var a, b, c := Tag("a", "1"), Tag("b", "2"), Tag("c", "3");
    var store := new TagStore();
    var incident := ScenarioIncident();
    var before := incident.relations;
    var r := UpdateIncident(incident, store, User(1, false), now, Some([a, c]), None, None);
    assert TagSet([a, c]) == {a, c};
    assert TagRelation(b, 2, 0) in Offending(before, {a, c}, User(1, false));
    assert r.Err? && incident.relations == before;
  }

  /** A superuser submitting {a=1, c=3} leaves exactly those tags. */
  method SuperuserScenario(now: int) {
    var a, c := Tag("a", "1"), Tag("c", "3");
    var store := new TagStore();
    var incident := ScenarioIncident();
    var r := UpdateIncident(incident, store, User(3, true), now, Some([a, c]), None, None);
    assert TagSet([a, c]) == {a, c};
    assert r.Ok? && incident.LinkedTags() == {a, c};
  }

  /** Two tags whose keys hold no delimiter never share an error entry. */
  lemma {:induction false} ErrorKeysCount(s: set<TagRelation>)
    requires forall a, b :: a in s && b in s && a.tag == b.tag ==> a == b
    requires forall a :: a in s ==> Delimiter !in a.tag.key
    ensures |ErrorKeys(s)| == |s|
  {
    if s != {} {
      var a :| a in s;
      var rest := s - {a};
      ErrorKeysCount(rest);
      var keys := set x | x in s :: Representation(x.tag);
      var restKeys := set x | x in rest :: Representation(x.tag);
      assert keys == restKeys + {Representation(a.tag)};
      if Representation(a.tag) in restKeys {
        var b :| b in rest && Representation(b.tag) == Representation(a.tag);
        RepresentationInjective(a.tag, b.tag);
        assert false;
      }
    }
  }

  /**
   * The refusal carries exactly one entry per offending relation when the
   * incident's tags have keys without the delimiter (as validated keys do).
   */
  lemma OneErrorPerOffendingTag(rels: seq<TagRelation>, posted: set<Tag>, user: User)
    requires UniqueTags(rels)
    requires forall x :: x in rels ==> Delimiter !in x.tag.key
    ensures |ErrorKeys(Offending(rels, posted, user))| == |Offending(rels, posted, user)|
  {
    var s := Offending(rels, posted, user);
    forall a, b | a in s && b in s && a.tag == b.tag ensures a == b {
      var i :| 0 <= i < |rels| && rels[i] == a;
      var j :| 0 <= j < |rels| && rels[j] == b;
      assert i == j;
    }
    ErrorKeysCount(s);
  }

  // ---------------------------------------------------------------------------
  // Partial update: which fields may be submitted

  /** The fields the partial-update serializer declares. */
  const AllowedFields: set<string> := {"tags", "details_url", "ticket_url"}

  /**
   * The field names of the Incident model (its columns and the reverse name of
   * the tag relation), plus `pk`.
   */
  const IncidentFieldNames: set<string> :=
    {"id", "start_time", "end_time", "source", "source_incident_id", "details_url",
     "description", "ticket_url", "incident_tag_relations", "pk"}

  const NotAllowedMessage: string := "The field is not allowed to be changed."
  const DoesNotExistMessage: string := "The field does not exist."

  function FieldError(field: string): (message: string)
    ensures message == NotAllowedMessage <==> field in IncidentFieldNames
    ensures message == NotAllowedMessage || message == DoesNotExistMessage
  {
    if field in IncidentFieldNames then NotAllowedMessage else DoesNotExistMessage
  }

  /**
   * `validate_empty_values`: every submitted field outside the allowed ones
   * gets an error saying whether it is a model field that may not be changed
   * or not a field at all; any such error refuses the update.
   */
  method ValidateEmptyValues(data: seq<string>) returns (r: Result<(), map<string, string>>)
    ensures r.Ok? <==> forall f :: f in data ==> f in AllowedFields
    ensures r.Err? ==> r.error.Keys == set f | f in data && f !in AllowedFields
    ensures r.Err? ==> forall f :: f in r.error ==> r.error[f] == FieldError(f)
  {
    var errors: map<string, string> := map[];
    var i := 0;
    while i < |data|
      invariant 0 <= i <= |data|
      invariant errors.Keys == set f | f in data[..i] && f !in AllowedFields
      invariant forall f :: f in errors ==> errors[f] == FieldError(f)
    {
      assert data[..i + 1] == data[..i] + [data[i]];
      var field := data[i];
      if field !in AllowedFields {
        errors := errors[field := FieldError(field)];
      }
      i := i + 1;
    }
    assert data[..|data|] == data;
    assert forall f :: f in data && f !in AllowedFields ==> f in errors;
    if errors != map[] {
      return Err(errors);
    }
    r := Ok(());
  }

  // ---------------------------------------------------------------------------
  // Events and acknowledgements

  datatype EventType = Acknowledge | OtherType(name: string)

  /** An event as submitted: its type may be left out. */
  datatype EventInput = EventInput(timestamp: int, description: string, eventType: Option<EventType>)

  /** An acknowledgement as submitted: the `event` key itself may be missing. */
  datatype AcknowledgementInput = AcknowledgementInput(event: Option<EventInput>, expiration: Option<int>)

  datatype EventData = EventData(timestamp: int, description: string, eventType: EventType)

  datatype AcknowledgementData = AcknowledgementData(event: EventData, expiration: Option<int>)

  /**
   * `MissingEventKey` is the lookup of the absent `event` key failing before
   * any field validation runs: an unhandled error, not a validation message.
   */
  datatype AcknowledgementError =
    | MissingEventKey
    | InvalidEventType(given: EventType)
    | ExpirationNotAfterTimestamp

  /**
   * `to_internal_value`: the `event` key is read unguarded, and an event
   * submitted without a type is an acknowledgement.
   */
  function AcknowledgementToInternal(input: AcknowledgementInput): (r: Result<AcknowledgementData, AcknowledgementError>)
    ensures r == Err(MissingEventKey) <==> input.event.None?
    ensures r.Err? ==> r.error == MissingEventKey
    ensures r.Ok? ==> (r.value.event.timestamp == input.event.value.timestamp
      && r.value.event.description == input.event.value.description)
    ensures r.Ok? ==> r.value.expiration == input.expiration
    ensures r.Ok? && input.event.value.eventType.None? ==> r.value.event.eventType == Acknowledge
    ensures r.Ok? && input.event.value.eventType.Some? ==> r.value.event.eventType == input.event.value.eventType.value
  {
    match input.event
    case None => Err(MissingEventKey)
    case Some(e) =>
      var t := if e.eventType.Some? then e.eventType.value else Acknowledge;
      Ok(AcknowledgementData(EventData(e.timestamp, e.description, t), input.expiration))
  }

  /** `validate_event`: only acknowledgement events make acknowledgements. */
  function ValidateEvent(event: EventData): (r: Result<EventData, AcknowledgementError>)
    ensures r.Ok? <==> event.eventType == Acknowledge
    ensures r.Ok? ==> r.value == event
    ensures r.Err? ==> r.error == InvalidEventType(event.eventType)
  {
    if event.eventType != Acknowledge then Err(InvalidEventType(event.eventType)) else Ok(event)
  }

  /** `validate`: an expiration, when given, must come strictly after the event. */
  function ValidateExpiration(ack: AcknowledgementData): (r: Result<AcknowledgementData, AcknowledgementError>)
    ensures r.Ok? <==> ack.expiration.None? || ack.expiration.value > ack.event.timestamp
    ensures r.Ok? ==> r.value == ack
    ensures r.Err? ==> r.error == ExpirationNotAfterTimestamp
  {
    if ack.expiration.Some? && ack.expiration.value <= ack.event.timestamp then Err(ExpirationNotAfterTimestamp)
    else Ok(ack)
  }

  /**
   * The acknowledgement deserializer as a whole: defaulting, then the event's
   * field check, then the object-level check.
   */
  function DeserializeAcknowledgement(input: AcknowledgementInput): (r: Result<AcknowledgementData, AcknowledgementError>)
    ensures r == Err(MissingEventKey) <==> input.event.None?
    ensures r.Ok? <==> (input.event.Some?
      && (input.event.value.eventType.None? || input.event.value.eventType == Some(Acknowledge))
      && (input.expiration.None? || input.expiration.value > input.event.value.timestamp))
    ensures r.Ok? ==> (r.value.event == EventData(input.event.value.timestamp, input.event.value.description, Acknowledge)
      && r.value.expiration == input.expiration)
    ensures input.event.Some? && input.event.value.eventType.Some? && input.event.value.eventType != Some(Acknowledge) ==>
      r == Err(InvalidEventType(input.event.value.eventType.value))
    ensures r.Err? && r.error == ExpirationNotAfterTimestamp ==>
      input.event.Some? && input.expiration.Some? && input.expiration.value <= input.event.value.timestamp
  {
    match AcknowledgementToInternal(input)
    case Err(e) => Err(e)
    case Ok(data) =>
      match ValidateEvent(data.event)
      case Err(e) => Err(e)
      case Ok(event) => ValidateExpiration(AcknowledgementData(event, data.expiration))
  }

  /** An expiration equal to the event's timestamp is refused. */
  lemma ExpirationAtTimestampRefused(timestamp: int, description: string)
    ensures DeserializeAcknowledgement(
      AcknowledgementInput(Some(EventInput(timestamp, description, None)), Some(timestamp)))
      == Err(ExpirationNotAfterTimestamp)
  {
  }

  /** `EventSerializer.update`: events are never changed. */
  function EventSerializerUpdate<T>(data: T): (r: Result<EventData, string>)
    ensures r.Err?
  {
    Err("NotImplementedError")
  }
}
