/**
 * Incidents: the lifecycle derived from the end time (stateless, active,
 * inactive), the guarded transitions between those states, and the
 * incident's tag relations held as an in-memory store.
 */
module Incidents {
  import opened Wrappers
  import opened Tags

  // ---------------------------------------------------------------------------
  // End time and lifecycle

  /** Absent (a stateless incident), a concrete time, or the open-ended sentinel. */
  datatype EndTime = Null | At(t: int) | Infinity

  /** `end_time > now` for an end time that is set; infinity is later than any time. */
  predicate After(e: EndTime, now: int)
    requires !e.Null?
  {
    e.Infinity? || e.t > now
  }

  function Stateful(e: EndTime): (r: bool)
    ensures r <==> e != Null
  {
    !e.Null?
  }

  function Active(e: EndTime, now: int): (r: bool)
    ensures r ==> Stateful(e)
    ensures r <==> e == Infinity || (e.At? && e.t > now)
  {
    Stateful(e) && After(e, now)
  }

  datatype TransitionError = StatelessIncident(message: string)

  /** The end time `set_active` leaves behind, or the error it raises. */
  function Activated(e: EndTime, now: int): (r: Result<EndTime, TransitionError>)
    ensures r.Err? <==> !Stateful(e)
    ensures r.Ok? ==> Stateful(r.value) && Active(r.value, now)
    ensures r.Ok? && Active(e, now) ==> r.value == e
    ensures r.Ok? && !Active(e, now) ==> r.value == Infinity
  {
    if !Stateful(e) then Err(StatelessIncident("Cannot set a stateless incident as active"))
    else if Active(e, now) then Ok(e)
    else Ok(Infinity)
  }

  /** The end time `set_inactive` leaves behind, or the error it raises. */
  function Deactivated(e: EndTime, now: int): (r: Result<EndTime, TransitionError>)
    ensures r.Err? <==> !Stateful(e)
    ensures r.Ok? ==> Stateful(r.value) && !Active(r.value, now)
    ensures r.Ok? && !Active(e, now) ==> r.value == e
    ensures r.Ok? && Active(e, now) ==> r.value == At(now)
  {
    if !Stateful(e) then Err(StatelessIncident("Cannot set a stateless incident as inactive"))
    else if !Active(e, now) then Ok(e)
    else Ok(At(now))
  }

  /** Activating twice is activating once; likewise deactivating. */
  lemma TransitionsIdempotent(e: EndTime, now: int)
    requires Stateful(e)
    ensures Activated(Activated(e, now).value, now) == Activated(e, now)
    ensures Deactivated(Deactivated(e, now).value, now) == Deactivated(e, now)
  {
  }

  /** Activating then deactivating a stateful incident closes it at `now`. */
  lemma ActivateThenDeactivate(e: EndTime, now: int)
    requires Stateful(e)
    ensures Deactivated(Activated(e, now).value, now) == Ok(At(now))
  {
  }

  /** The end time after a transition attempt: unchanged when it raised. */
  function EndTimeAfter(r: Result<EndTime, TransitionError>, e: EndTime): EndTime {
    if r.Ok? then r.value else e
  }

  // ---------------------------------------------------------------------------
  // Users and tag relations

  type UserId = nat

  datatype User = User(id: UserId, isSuperuser: bool)

  /** One row linking a tag to an incident: who added it, and when. */
  datatype TagRelation = TagRelation(tag: Tag, addedBy: UserId, addedTime: int)

  function TagsOf(rels: seq<TagRelation>): set<Tag> {
    set r | r in rels :: r.tag
  }

  /** The (tag, incident) uniqueness constraint: no tag twice on one incident. */
  ghost predicate UniqueTags(rels: seq<TagRelation>) {
    forall i, j :: 0 <= i < j < |rels| ==> rels[i].tag != rels[j].tag
  }

  /** The relations whose tag is in `posted`, in order. */
  function Kept(rels: seq<TagRelation>, posted: set<Tag>): (r: seq<TagRelation>)
    ensures forall x :: x in r <==> x in rels && x.tag in posted
    ensures UniqueTags(rels) ==> UniqueTags(r)
  {
    if rels == [] then []
    else
      var rest := Kept(rels[1..], posted);
      assert UniqueTags(rels) ==> UniqueTags(rels[1..]) && rels[0].tag !in TagsOf(rels[1..]);
      if rels[0].tag in posted then [rels[0]] + rest else rest
  }

  /** The relations whose tag is not in `posted`, in order. */
  function Removed(rels: seq<TagRelation>, posted: set<Tag>): (r: seq<TagRelation>)
    ensures forall x :: x in r <==> x in rels && x.tag !in posted
  {
    if rels == [] then []
    else
      var rest := Removed(rels[1..], posted);
      if rels[0].tag !in posted then [rels[0]] + rest else rest
  }

  /** The relations not in `gone`, in order. */
  function Exclude(rels: seq<TagRelation>, gone: set<TagRelation>): (r: seq<TagRelation>)
    ensures forall x :: x in r <==> x in rels && x !in gone
  {
    if rels == [] then []
    else
      var rest := Exclude(rels[1..], gone);
      if rels[0] !in gone then [rels[0]] + rest else rest
  }

  function RelationSet(rels: seq<TagRelation>): set<TagRelation> {
    set x | x in rels
  }

  /** Deleting nothing keeps every relation. */
  lemma {:induction false} ExcludeNothing(rels: seq<TagRelation>)
    ensures Exclude(rels, {}) == rels
  {
    if rels != [] {
      ExcludeNothing(rels[1..]);
    }
  }

  /** Deleting in two rounds is deleting the union. */
  lemma {:induction false} ExcludeTwice(rels: seq<TagRelation>, a: set<TagRelation>, b: set<TagRelation>)
    ensures Exclude(Exclude(rels, a), b) == Exclude(rels, a + b)
  {
    if rels != [] {
      ExcludeTwice(rels[1..], a, b);
    }
  }

  /** Deleting exactly the relations whose tag was not posted keeps the posted ones. */
  lemma {:induction false} ExcludeIsKept(rels: seq<TagRelation>, gone: set<TagRelation>, posted: set<Tag>)
    requires forall x :: x in rels ==> (x in gone <==> x.tag !in posted)
    ensures Exclude(rels, gone) == Kept(rels, posted)
  {
    if rels != [] {
      ExcludeIsKept(rels[1..], gone, posted);
    }
  }

  // ---------------------------------------------------------------------------
  // The tag table (tags are shared between incidents, unique by key and value)

  class TagStore {
    var tags: set<Tag>

    constructor ()
      ensures tags == {}
    {
      tags := {};
    }

    /** Look a tag up by key and value, creating it when absent. */
    method GetOrCreate(t: Tag) returns (created: bool)
      modifies this
      ensures tags == old(tags) + {t}
      ensures created <==> t !in old(tags)
    {
      created := t !in tags;
      tags := tags + {t};
    }
  }

  // ---------------------------------------------------------------------------
  // The incident

  class Incident {
    var startTime: int
    var endTime: EndTime
    var source: nat
    var sourceIncidentId: string
    var detailsUrl: string
    var description: string
    var ticketUrl: string
    /** The incident's rows of the tag-relation table. */
    var relations: seq<TagRelation>

    ghost predicate Valid()
      reads this
    {
      UniqueTags(relations)
    }

    constructor (startTime: int, endTime: EndTime, source: nat, sourceIncidentId: string,
                 detailsUrl: string, description: string, ticketUrl: string)
      ensures Valid() && relations == []
      ensures this.startTime == startTime && this.endTime == endTime && this.source == source
      ensures this.sourceIncidentId == sourceIncidentId && this.detailsUrl == detailsUrl
      ensures this.description == description && this.ticketUrl == ticketUrl
    {
      this.startTime, this.endTime, this.source := startTime, endTime, source;
      this.sourceIncidentId, this.detailsUrl := sourceIncidentId, detailsUrl;
      this.description, this.ticketUrl := description, ticketUrl;
      relations := [];
    }

    /** The tags linked to this incident. */
    function LinkedTags(): (r: set<Tag>)
      reads this
      ensures forall x :: x in relations ==> x.tag in r
      ensures forall t :: t in r ==> exists i :: 0 <= i < |relations| && relations[i].tag == t
    {
      TagsOf(relations)
    }

    /** `set_active`: raise on a stateless incident, else open it unless already active. */
    method SetActive(now: int) returns (r: Result<(), TransitionError>)
      modifies this`endTime
      ensures r.Err? <==> !Stateful(old(endTime))
      ensures r.Err? ==> Activated(old(endTime), now) == Err(r.error)
      ensures endTime == EndTimeAfter(Activated(old(endTime), now), old(endTime))
    {
      if !Stateful(endTime) {
        return Err(StatelessIncident("Cannot set a stateless incident as active"));
      }
      if Active(endTime, now) {
        return Ok(());
      }
      endTime := Infinity;
      r := Ok(());
    }

    /** `set_inactive`: raise on a stateless incident, else close it at `now` unless already inactive. */
    method SetInactive(now: int) returns (r: Result<(), TransitionError>)
      modifies this`endTime
      ensures r.Err? <==> !Stateful(old(endTime))
      ensures r.Err? ==> Deactivated(old(endTime), now) == Err(r.error)
      ensures endTime == EndTimeAfter(Deactivated(old(endTime), now), old(endTime))
    {
      if !Stateful(endTime) {
        return Err(StatelessIncident("Cannot set a stateless incident as inactive"));
      }
      if !Active(endTime, now) {
        return Ok(());
      }
      endTime := At(now);
      r := Ok(());
    }

    /** Create a relation row; the uniqueness constraint keeps the tag new to the incident. */
    method AddTagRelation(tag: Tag, user: UserId, now: int)
      requires Valid() && tag !in LinkedTags()
      modifies this`relations
      ensures Valid()
      ensures relations == old(relations) + [TagRelation(tag, user, now)]
    {
      relations := relations + [TagRelation(tag, user, now)];
    }

    /** Delete a relation row. */
    method DeleteTagRelation(rel: TagRelation)
      requires Valid()
      modifies this`relations
      ensures Valid()
      ensures relations == Exclude(old(relations), {rel})
    {
      relations := Exclude(relations, {rel});
      ExcludeUnique(old(relations), {rel});
    }
  }

  lemma {:induction false} ExcludeUnique(rels: seq<TagRelation>, gone: set<TagRelation>)
    requires UniqueTags(rels)
    ensures UniqueTags(Exclude(rels, gone))
  {
    if rels != [] {
      assert UniqueTags(rels[1..]);
      ExcludeUnique(rels[1..], gone);
      assert rels[0].tag !in TagsOf(rels[1..]);
    }
  }

  // ---------------------------------------------------------------------------
  // Bulk transitions

  /** Every field of an incident except its end time. */
  datatype IncidentFields = IncidentFields(startTime: int, source: nat, sourceIncidentId: string,
    detailsUrl: string, description: string, ticketUrl: string, relations: seq<TagRelation>)

  function Snapshot(incident: Incident): IncidentFields
    reads incident
  {
    IncidentFields(incident.startTime, incident.source, incident.sourceIncidentId,
      incident.detailsUrl, incident.description, incident.ticketUrl, incident.relations)
  }

  /** Nothing but the end time differs from the snapshot. */
  predicate Unchanged(incident: Incident, before: IncidentFields)
    reads incident
  {
    Snapshot(incident) == before
  }

  /** The objects of a query set are distinct. */
  ghost predicate Distinct(incidents: seq<Incident>) {
    forall i, j :: 0 <= i < j < |incidents| ==> incidents[i] != incidents[j]
  }

  /**
   * `IncidentQuerySet.set_active`: apply `set_active` to each incident in
   * turn. The first stateless incident raises; those before it have been
   * changed, it and those after it have not. `failedAt` is its position.
   */
  method SetAllActive(incidents: seq<Incident>, now: int) returns (failedAt: Option<nat>)
    requires Distinct(incidents)
    modifies set i | 0 <= i < |incidents| :: incidents[i]
    ensures failedAt.None? <==> forall i :: 0 <= i < |incidents| ==> Stateful(old(incidents[i].endTime))
    ensures failedAt.Some? ==> failedAt.value < |incidents| && !Stateful(old(incidents[failedAt.value].endTime))
    ensures failedAt.Some? ==> forall i :: 0 <= i < failedAt.value ==> Stateful(old(incidents[i].endTime))
    ensures forall i :: 0 <= i < |incidents| ==>
      incidents[i].endTime ==
        if failedAt.None? || i < failedAt.value then EndTimeAfter(Activated(old(incidents[i].endTime), now), old(incidents[i].endTime))
        else old(incidents[i].endTime)
    ensures forall i :: 0 <= i < |incidents| ==> Unchanged(incidents[i], old(Snapshot(incidents[i])))
  {
    var k := 0;
    while k < |incidents|
      invariant 0 <= k <= |incidents|
      invariant forall i :: 0 <= i < k ==> Stateful(old(incidents[i].endTime))
      invariant forall i :: 0 <= i < k ==>
        incidents[i].endTime == EndTimeAfter(Activated(old(incidents[i].endTime), now), old(incidents[i].endTime))
      invariant forall i :: k <= i < |incidents| ==> incidents[i].endTime == old(incidents[i].endTime)
      invariant forall i :: 0 <= i < |incidents| ==> Unchanged(incidents[i], old(Snapshot(incidents[i])))
    {
      var r := incidents[k].SetActive(now);
      if r.Err? {
        return Some(k);
      }
      k := k + 1;
    }
    failedAt := None;
  }

  /** `IncidentQuerySet.set_inactive`, in the same shape as `SetAllActive`. */
  method SetAllInactive(incidents: seq<Incident>, now: int) returns (failedAt: Option<nat>)
    requires Distinct(incidents)
    modifies set i | 0 <= i < |incidents| :: incidents[i]
    ensures failedAt.None? <==> forall i :: 0 <= i < |incidents| ==> Stateful(old(incidents[i].endTime))
    ensures failedAt.Some? ==> failedAt.value < |incidents| && !Stateful(old(incidents[failedAt.value].endTime))
    ensures failedAt.Some? ==> forall i :: 0 <= i < failedAt.value ==> Stateful(old(incidents[i].endTime))
    ensures forall i :: 0 <= i < |incidents| ==>
      incidents[i].endTime ==
        if failedAt.None? || i < failedAt.value then EndTimeAfter(Deactivated(old(incidents[i].endTime), now), old(incidents[i].endTime))
        else old(incidents[i].endTime)
    ensures forall i :: 0 <= i < |incidents| ==> Unchanged(incidents[i], old(Snapshot(incidents[i])))
  {
    var k := 0;
    while k < |incidents|
      invariant 0 <= k <= |incidents|
      invariant forall i :: 0 <= i < k ==> Stateful(old(incidents[i].endTime))
      invariant forall i :: 0 <= i < k ==>
        incidents[i].endTime == EndTimeAfter(Deactivated(old(incidents[i].endTime), now), old(incidents[i].endTime))
      invariant forall i :: k <= i < |incidents| ==> incidents[i].endTime == old(incidents[i].endTime)
      invariant forall i :: 0 <= i < |incidents| ==> Unchanged(incidents[i], old(Snapshot(incidents[i])))
    {
      var r := incidents[k].SetInactive(now);
      if r.Err? {
        return Some(k);
      }
      k := k + 1;
    }
    failedAt := None;
  }
}
