# Argus incident lifecycle and tags — a Dafny model

This project models the core of the `argus.incident` app of Argus, an
incident record-keeper for monitoring sources:

- **Tags** (`tags.dfy`, module `Tags`): `key=value` strings are joined, and
  split at the first `=` only. A submitted tag is first trimmed of
  surrounding whitespace by its text field, which refuses a blank tag and a
  tag holding a NUL character. It is then validated: it needs a delimiter,
  and its key is stripped of surrounding whitespace, must be non-empty and
  must match `^[a-z0-9_]+\Z`. It is then re-joined and split
  into the key and value used to look the tag up.
- **Source system types** (`source_systems.dfy`, module `SourceSystems`): the
  `validate_lowercase` validator (Python `str.islower()`) and the pre-save hook
  that lower-cases a type's name.
- **Incidents** (`incidents.dfy`, module `Incidents`): the end time is
  `Null` (stateless), `At(t)` or `Infinity`. `stateful` and `active` are derived
  from it. `set_active` and `set_inactive` are guarded transitions on an
  `Incident` class, and the query-set versions loop over several incidents.
  The ORM is replaced by an in-memory store. The tag-relation rows are a
  `seq<TagRelation>` field of the incident, and the
  (tag, incident) uniqueness constraint is the class invariant `Valid()`. The
  global tag table is a `TagStore` object.
- **Serializers** (`serializers.dfy`, module `Serializers`):
  - incident creation with its tags;
  - the partial update, which reconciles the incident's tags against the
    submitted full tag set (only the user who added a tag may remove it,
    unless the user is a superuser; the check is all-or-nothing);
  - the filter on which fields a partial update may submit;
  - the acknowledgement rules;
  - the update operations that always fail.

The clock is a parameter `now`. The acting user is a value `User(id,
isSuperuser)`, and like Django model instances, users are compared by id.
Tags are compared by key and value, which the Tag table's uniqueness
constraint makes the same as comparing rows.

`Serializers.RefusedScenario` and `Serializers.SuperuserScenario` are clients
of the update. They show,
from the contracts alone, two reconciliation scenarios:

- an incident has a=1 (added by user 1) and b=2 (added by user 2); user 1,
  who is not a superuser, submits {a=1, c=3}; the update is refused and both
  tags stay;
- a superuser submits the same set; the incident ends with exactly
  {a=1, c=3}.

## Model

| member | source | states |
|---|---|---|
| `Tags.Join` | src/argus/incident/models.py:101-103 | the joined string is the key, then `=`, then the value, at the stated positions |
| `Tags.IndexOf` | src/argus/incident/models.py:105-107 | finds the first delimiter (none exactly when the string has none) |
| `Tags.Split` | src/argus/incident/models.py:105-107 | one or two parts, never more; one part (the whole string) iff there is no `=`; with two parts the first holds no `=` and joining them gives the input back |
| `Tags.JoinInjective` | src/argus/incident/models.py:101-103 | two joins with `=`-free keys are equal only if keys and values are equal |
| `Tags.SplitJoin` | src/argus/incident/models.py:101-107 | `split(join(k, v)) == [k, v]` for every `k` without `=`, whatever `v` holds |
| `Tags.JoinSplit` | src/argus/incident/models.py:101-107 | a string holding `=` splits into two parts that join back to it |
| `Tags.Representation` | src/argus/incident/models.py:97-99 | a tag's text is its key, then `=`, then its value |
| `Tags.RepresentationSplits` | src/argus/incident/models.py:97-107 | a tag's representation `join(key, value)` splits back into its key and value |
| `Tags.RepresentationInjective` | src/argus/incident/models.py:97-99 | tags with `=`-free keys have the same representation only if they are the same tag |
| `Tags.LeadingSpace` | src/argus/incident/serializers.py:59 | counts exactly the whitespace prefix |
| `Tags.TrailingSpace` | src/argus/incident/serializers.py:59 | counts exactly the whitespace suffix |
| `Tags.Strip` | src/argus/incident/serializers.py:59 | `strip()`: the result has no whitespace at either end, is empty iff the input is all whitespace, and holds only input characters |
| `Tags.StripMargins` | src/argus/incident/serializers.py:59 | stripping whitespace margins off a trimmed core gives exactly the core |
| `Tags.ValidKey` | src/argus/incident/models.py:79-86 | a key accepted by the pattern `^[a-z0-9_]+\Z` is non-empty and holds no `=` |
| `Tags.ValidKeyClean` | src/argus/incident/models.py:79-86 | a key matching `^[a-z0-9_]+\Z` has no `=` and no whitespace, so stripping leaves it unchanged |
| `Tags.ValidateTag` | src/argus/incident/serializers.py:53-64 | refused with the missing-delimiter error iff there is no `=`; on success the stripped key matches the key pattern, and the result splits into the stripped key and the untouched value |
| `Tags.ValidateJoined` | src/argus/incident/serializers.py:53-64 | for `key=value` (`key` without `=`): empty stripped key refused, stripped key outside the pattern refused, otherwise `join(strip(key), value)` |
| `Tags.ValidateIdempotent` | src/argus/incident/serializers.py:53-64 | a validated tag validates again to itself |
| `Tags.ToInternalValue` | src/argus/incident/serializers.py:46-77 | the text field trims the whole input and refuses it (blank) iff it is all whitespace, then refuses it iff the trimmed input holds a NUL character; otherwise succeeds iff validation of the trimmed input does, with the same error; the tag's key has surrounding whitespace stripped, its value is the trimmed input's value part, its representation the validated string |
| `Tags.PaddedValue` | src/argus/incident/serializers.py:46-77 | whitespace after a value ending in a visible character is dropped: `key=value` plus trailing whitespace gives exactly the tag (key, value) |
| `Tags.TrailingValueSpaceDropped` | src/argus/incident/serializers.py:46-77 | `"k=v "` gives the tag with key `k` and value `v` |
| `Tags.NullCharacterRefused` | src/argus/incident/serializers.py:46 | `"k=\0"` is refused for its NUL character before `validate_tag` runs |
| `Tags.BlankRefused` | src/argus/incident/serializers.py:46 | a tag of spaces only is refused as blank |
| `Tags.PaddedKey` | src/argus/incident/serializers.py:58-64 | `validate_tag` accepts a non-empty, `=`-free, trimmed key padded with any whitespace on either side as the bare key exactly when the bare key is valid, and otherwise refuses it as an invalid key |
| `Tags.AcceptsPaddedKey` | src/argus/incident/serializers.py:58-64 | `validate_tag` accepts the key `"  net_1 "` and returns it as `net_1` |
| `Tags.RejectsUpperCaseKey` | src/argus/incident/serializers.py:58-62 | `validate_tag` refuses the key `"  Net_1 "` as an invalid key |
| `Tags.DelimiterInValue` | src/argus/incident/models.py:105-107 | `split(join("cpu", "load=high")) == ["cpu", "load=high"]` |
| `SourceSystems.Lower` | src/argus/incident/models.py:59 | every character is lowered, the length is kept |
| `SourceSystems.ValidateLowercase` | src/argus/incident/models.py:17-19 | passes iff the value has a lower-case letter and no upper-case one; otherwise the error names the value |
| `SourceSystems.LowerIdempotent` | src/argus/incident/models.py:57-59 | lowering twice is lowering once |
| `SourceSystems.LoweredNameValidates` | src/argus/incident/models.py:17-19 | a lowered name passes the validator iff the original name has a letter |
| `SourceSystems.DigitsOnlyRefused` | src/argus/incident/models.py:17-19 | `"123"` is refused although it has no upper-case letter |
| `SourceSystems.SourceSystemType.SetNameLowercase` | src/argus/incident/models.py:55-59 | the name becomes the lowered old name, and afterwards holds no upper-case letter |
| `Incidents.Stateful` | src/argus/incident/models.py:200-202 | stateful iff the end time is set |
| `Incidents.Active` | src/argus/incident/models.py:204-206 | active iff the end time is infinity or a time after `now`; active implies stateful |
| `Incidents.Activated` | src/argus/incident/models.py:208-215 | raises iff stateless; an already-active end time is kept, otherwise it becomes infinity; afterwards stateful and active |
| `Incidents.Deactivated` | src/argus/incident/models.py:217-224 | raises iff stateless; an already inactive end time is kept, otherwise it becomes `now`; afterwards stateful and not active |
| `Incidents.TransitionsIdempotent` | src/argus/incident/models.py:208-224 | applying a transition twice is applying it once |
| `Incidents.ActivateThenDeactivate` | src/argus/incident/models.py:208-224 | set active then set inactive leaves end time `now`, so stateful and inactive and `end_time <= now` |
| `Incidents.Incident.SetActive` | src/argus/incident/models.py:208-215 | raises exactly on a stateless incident and then leaves the end time alone; otherwise the end time becomes the one `Activated` gives |
| `Incidents.Incident.SetInactive` | src/argus/incident/models.py:217-224 | raises exactly on a stateless incident and then leaves the end time alone; otherwise the end time becomes the one `Deactivated` gives |
| `Incidents.SetAllActive` | src/argus/incident/models.py:138-141 | applies `set_active` in order; the first stateless incident stops the loop (its position is returned); earlier incidents are transitioned and later ones are untouched; no field other than the end time changes on any incident |
| `Incidents.SetAllInactive` | src/argus/incident/models.py:143-146 | the same for `set_inactive` |
| `Incidents.Kept` | src/argus/incident/serializers.py:159-164 | exactly the relations whose tag was posted; keeps tag uniqueness |
| `Incidents.Removed` | src/argus/incident/serializers.py:161-163 | exactly the existing relations whose tag was not posted |
| `Incidents.Exclude` | src/argus/incident/serializers.py:174-175 | exactly the relations not deleted |
| `Incidents.ExcludeNothing` | src/argus/incident/serializers.py:174-175 | deleting nothing keeps all relations |
| `Incidents.ExcludeTwice` | src/argus/incident/serializers.py:174-175 | deleting one relation after others is deleting the union |
| `Incidents.ExcludeIsKept` | src/argus/incident/serializers.py:161-175 | deleting the relations whose tag was not posted leaves exactly those whose tag was |
| `Incidents.ExcludeUnique` | src/argus/incident/models.py:116-119 | deleting relations keeps the (tag, incident) uniqueness |
| `Incidents.TagStore.GetOrCreate` | src/argus/incident/serializers.py:157 | the tag table afterwards holds the tag; a tag was created iff it was absent |
| `Incidents.Incident.constructor` | src/argus/incident/models.py:153-176 | a new incident has the given fields and no tag relations |
| `Incidents.Incident.LinkedTags` | src/argus/incident/models.py:226-228 | exactly the tags of the incident's relations |
| `Incidents.Incident.AddTagRelation` | src/argus/incident/models.py:110-119 | appends one row for a tag new to the incident and keeps uniqueness |
| `Incidents.Incident.DeleteTagRelation` | src/argus/incident/serializers.py:175 | removes that row and keeps uniqueness |
| `Serializers.ResolveTags` | src/argus/incident/serializers.py:156-157 | the posted tags are the submitted list as a set (duplicates collapse), all now in the tag table |
| `Serializers.AddTags` | src/argus/incident/serializers.py:178-179 | one new row per added tag, all by `user` at `now`, earlier rows untouched, uniqueness kept |
| `Serializers.CreateIncident` | src/argus/incident/serializers.py:104-116 | the new incident has the submitted fields; its tags are exactly the submitted set, each added by the creating user, none twice |
| `Serializers.IncidentSerializerUpdate` | src/argus/incident/serializers.py:118-122 | always fails |
| `Serializers.ErrorKeys` | src/argus/incident/serializers.py:170 | error keys are the tags' text; there are none iff there are no offending relations |
| `Serializers.CollectRemovalErrors` | src/argus/incident/serializers.py:166-170 | one entry per relation being removed that the user did not add, keyed by the tag's text, all with the same message |
| `Serializers.UpdateIncident` | src/argus/incident/serializers.py:152-181 | refused iff the user is not a superuser and some relation not posted was added by someone else. A refusal lists each offending tag and changes no relation and no URL. On success: tags equal the posted set; kept relations keep their row (adder and time); new rows are by `user`; uniqueness holds; submitted URLs are stored. Posted tags enter the tag table in either case |
| `Serializers.DeleteRelations` | src/argus/incident/serializers.py:174-175 | the relations afterwards are the old ones minus the removed ones |
| `Serializers.AppendedRelations` | src/argus/incident/serializers.py:164-179 | every row new after an update carries a tag the incident did not have |
| `Serializers.Offending` | src/argus/incident/serializers.py:166-169 | exactly the relations being removed (tag not posted) that another user added; all carry a tag the incident has and that was not posted |
| `Serializers.OthersTagBlocksRemoval` | src/argus/incident/serializers.py:166-172 | tags a=1 (user 1) and b=2 (user 2), user 1 posts {a=1, c=3}: the b=2 relation is the one offending relation |
| `Serializers.ErrorKeysCount` | src/argus/incident/serializers.py:170 | distinct tags with `=`-free keys give distinct error keys |
| `Serializers.OneErrorPerOffendingTag` | src/argus/incident/serializers.py:166-172 | with unique tags whose keys hold no `=`, there are exactly as many error entries as offending relations |
| `Serializers.FieldError` | src/argus/incident/serializers.py:192-197 | "not allowed to be changed" iff the name is a model field or `pk`, else "does not exist" |
| `Serializers.ValidateEmptyValues` | src/argus/incident/serializers.py:186-201 | passes iff every submitted field is `tags`, `details_url` or `ticket_url`; otherwise the error has one entry per other submitted field, with that field's message |
| `Serializers.AcknowledgementToInternal` | src/argus/incident/serializers.py:278-281 | fails (the unguarded `event` lookup) iff the payload has no `event`; otherwise a missing event type becomes ACKNOWLEDGE and everything else is kept |
| `Serializers.ValidateEvent` | src/argus/incident/serializers.py:283-290 | passes iff the type is ACKNOWLEDGE; otherwise the error names the offending type |
| `Serializers.ValidateExpiration` | src/argus/incident/serializers.py:292-296 | passes iff there is no expiration or it is strictly after the event's timestamp |
| `Serializers.DeserializeAcknowledgement` | src/argus/incident/serializers.py:278-296 | fails at the `event` lookup iff the payload has no `event`; accepted iff the event is present, its type is absent or ACKNOWLEDGE, and the expiration is absent or after the timestamp; a wrong type is reported before the expiration |
| `Serializers.ExpirationAtTimestampRefused` | src/argus/incident/serializers.py:292-296 | an expiration equal to the timestamp is refused |
| `Serializers.EventSerializerUpdate` | src/argus/incident/serializers.py:238-242 | always fails |

## Left out

- Database behaviour (`save()`, transactions, cascade and protect deletion, `select_related`, `prefetch_default_related`) is replaced by the in-memory store. Tag rows are never deleted, as in the source.
- Transaction handling is configured outside `argus.incident`. So `UpdateIncident` keeps the source's order: tags are looked up or created before the authorisation check, and stay in the tag table when the update is refused.
- `UpdateIncident`: leaving `tags` out of a partial update submits the empty list. This is modelled as written, so all the incident's relations are then removed (or the update is refused).
- `Incidents.Incident.SetInactive` uses one `now`. The source reads the clock twice, once for `active` and once for the new end time.
- `Incidents.SetAllActive` and `Incidents.SetAllInactive` use one `now` for the whole loop. The source's `set_active()` and `set_inactive()` (models.py:141, 146) read the clock again for every incident.
- `SourceSystems.Lower` treats only ASCII letters as cased. Python's Unicode case tables are not modelled.
- `SourceSystems.ValidateLowercase` models `str.islower()` with only ASCII letters as cased, so a name whose only cased letters are outside ASCII is refused, and a name with an ASCII lower-case letter and a non-ASCII upper-case one is accepted.
- The update of source system types through a query set's `update()`, which skips the pre-save hook, is not modelled (no caller in `argus.incident` uses it).
- `Serializers.IncidentFieldNames` lists the Incident model's columns, its reverse name `incident_tag_relations`, and `pk`. Reverse names from the Event or Acknowledgement models are not included, because those models are not part of this model.
- `Serializers.FieldError` reads `IncidentFieldNames`, so a submitted reverse name from the Event or Acknowledgement models gets "does not exist" where the source says "not allowed to be changed".
- `Tags.ToInternalValue` takes the tag text. A tag object without `tag` (the branch at serializers.py:73) is not modelled: neither the required-field error of a full validation, nor the skipped field of a partial one, after which the tag lookup runs with no key or value.
- `Serializers.AcknowledgementToInternal`: a payload without `event` ends in the error `MissingEventKey`. This stands for the uncaught `KeyError` at serializers.py:279, which the framework turns into a server error rather than a validation message. The server error response itself is not modelled.
- Event types other than ACKNOWLEDGE are an opaque `OtherType(name)`, because the `Event.Type` choices are not part of this model.
- URL validation (`URLValidator`, `validate_ticket_url`) is a library validator and is not modelled. Submitted URLs are stored as given.
- `DateTimeInfinityField`, its serializer field and the `"infinity"` string form are not modelled. Infinity is the `Infinity` variant.
- `Incident.acked`, `to_representation`, pk removal and `__str__` are presentation only, or not defined in `models.py`. They are not modelled.
- `IncidentTagRelationSerializer.create`, `AcknowledgementSerializer.create`, `get_or_create_default_instances` and `create_fake_incident` are not modelled. They need the database, or random numbers in the case of `create_fake_incident`.
- The query-set filters `stateful`, `stateless`, `active` and `inactive`, `Incident.incident_relations`, `IncidentRelation` and `IncidentRelationType` are database filters or plain records. They are not modelled.
- The uniqueness of (source_incident_id, source) is a constraint across incidents and is not modelled. So are the uniqueness of (name, type) for source systems and of (key, value) for tags, except that tag identity is its key and value.
- Concurrent requests are not modelled.
