# sal-kiti results core, in Dafny

A model of the core of the sal-kiti results service, a Django REST backend
for sport competition results, athletes, organisations and records. It covers:

- **The record engine.** This is `check_records` / `check_records_partial` and their helpers in
  `results/utils/records.py`, with the approval cascade of `Record.save`.
  - A saved result first loses its unapproved record candidates.
  - Record-group broadening then decides which categories the result can hold a record in.
  - The matching record levels are selected.
  - A tie-break policy decides whether an existing record blocks a new one.
  - Candidates are got-or-created, and lower unapproved candidates are pruned.
  - Approving a record ends the lower approved records of its slot and deletes the lower unapproved ones.
- **Result validation.** The result serializers' helpers cover:
  - age at the competition;
  - minimum and maximum age;
  - gender;
  - team size and team status;
  - the team check `_check_team`, which `validate` never calls;
  - existence;
  - licence requirements;
  - value limits with per-category overrides;
  - partial-result limits;
  - the nested partial-result merge of `update`.
- **The result models.** These are the `Result.save` defaults, the result and partial permissions, and the
  `ResultPartial` table with its (result, type, order) uniqueness.
- **The change-log mixin.** It provides the diff against the construction-time snapshot and the log entry that `save` writes.
- **The Pohjolan malja statistic.** Organisations earn points from SM competitions. The scoring cap resets for each competition and category, and external results raise it.
- **Athlete information visibility** and the athlete permission predicates.
- **Competition validation** (dates and permissions) and **record-edit permission**.
- **Events.** An event update cascades its `public` / `locked` / `approved` flags to its competitions. The event list is filtered by visibility.

Rows of the database are datatypes and foreign keys are ids. The rows an
operation reads through a key are passed in. Stateful operations are classes
with `modifies` clauses:

- `RecordStore` holds the record table;
- `PartialTable` holds the partial results;
- `ResultInstance` is a result being saved;
- `Tracked` is a model instance with its snapshot;
- `EventUpdate` is an event with its competitions.

Each of their methods is proved against a specification function of the old state.

Value representation:

- Decimal columns are integers counting thousandths.
- Dates are (year, month, day) triples.
- NULL is `None`.
- Comparisons with NULL are false, as in SQL.

## Model

| member | source | states |
|---|---|---|
| Eligibility.GetAges | results/utils/records.py:9-33 | the loop over the athletes computes the fold `AgesOf` (oldest, youngest calendar-year age), an accumulator of 0 counting as unset as the source's `not` test does |
| Eligibility.AgesFoldDefined | results/utils/records.py:24-32 | an age accumulator is set exactly when some dated athlete was seen |
| Eligibility.AgesFoldExtremes | results/utils/records.py:24-32 | without a zero age the fold yields the true maximum and minimum of the ages |
| Eligibility.AgesOfSpec | results/utils/records.py:9-33 | (None, None) exactly when no athlete has a birth date; otherwise the oldest and youngest age when none is 0 |
| Eligibility.DatedAges | results/utils/records.py:20-32 | only athletes with a birth date contribute an age; no age at all iff none has one |
| Eligibility.GetGender | results/utils/records.py:36-59 | M iff some athlete is M and none is W, W symmetrically, None otherwise; athletes without a gender are ignored |
| Eligibility.FindCheck | results/utils/records.py:73-74 | the first type/category check row of the pair, None iff there is none |
| Eligibility.FindCheckIsFirst | results/utils/records.py:73-74 | the row found is the first matching row |
| Eligibility.Broaden | results/utils/records.py:80-102 | exactly the table categories that pass every broadening filter, in table order |
| Eligibility.GetCategories | results/utils/records.py:62-102 | the method computes the `Categories` specification: the gates, the age and gender resolution, then the filter |
| Eligibility.GatedCategoriesEmpty | results/utils/records.py:75-79 | a check row with record checking off (full or partial), or a partial type in a non-empty limit_partial, yields no category |
| Eligibility.UngroupedIsOwnCategory | results/utils/records.py:73-79 | without a check row or with an unset record group the only category is the result's own |
| Eligibility.BroadenedCategory | results/utils/records.py:80-102 | every broadened category matches gender, sport, team flag, age span, team size and record group |
| Eligibility.FullLevels | results/utils/records.py:168-176 | exactly the non-historical levels containing the competition's level and type, with matching decimals, base and team/personal flags and area |
| Eligibility.PartialLevels | results/utils/records.py:262-267 | exactly the non-historical partial levels of the competition's level and type with a matching area, without a decimals test |
| RecordEngine.RecordStore.Create | results/utils/records.py:116-129 | get-or-create, then prune lower unapproved candidates, as the `GetOrCreate` specification of the table |
| RecordEngine.RecordStore.CreateRecord | results/utils/records.py:105-129 | `_create_record` is the get-or-create of the full-result creation of the slot |
| RecordEngine.RecordStore.CreateRecordPartial | results/utils/records.py:132-156 | `_create_record_partial` is the get-or-create of the partial creation of the slot |
| RecordEngine.RecordStore.CheckSlotOnce | results/utils/records.py:179-195 | one (level, category) slot: create unless some row blocks |
| RecordEngine.RecordStore.CheckSlots | results/utils/records.py:177-195 | the nested level and category loops compute the `CheckLevels` fold |
| RecordEngine.RecordStore.CheckTeamRecords | results/utils/records.py:159-195 | team levels and the team blocking rule over the categories |
| RecordEngine.RecordStore.CheckPersonalRecords | results/utils/records.py:198-232 | personal levels and the personal blocking rule over the categories |
| RecordEngine.RecordStore.CheckRecords | results/utils/records.py:235-248 | delete the result's unapproved full-result records, then check only a truthy value of a non-external organisation |
| RecordEngine.RecordStore.CheckRecordsPartial | results/utils/records.py:251-287 | likewise for a partial, also requiring the partial type to allow records |
| RecordEngine.RecordStore.Save | results/models/records.py:92-111 | persist the record, and cascade only when it is approved and `approved` changed |
| RecordEngine.RecordStore.CascadeFrom | results/models/records.py:98-111 | the cascade ends approved superseded records and deletes unapproved ones, as the `Cascade` specification |
| RecordProperties.GetOrCreateIdempotent | results/utils/records.py:116-127 | getting or creating twice is getting or creating once |
| RecordProperties.GetOrCreateLeavesOne | results/utils/records.py:116-119 | when the key found at most one row, exactly one row has it afterwards |
| RecordProperties.CheckSlotIdempotent | results/utils/records.py:179-195 | checking the same slot twice changes nothing the second time |
| RecordProperties.CreateRecordIdempotent | results/utils/records.py:105-129 | repeating `_create_record` adds no row; a slot with at most one matching record holds exactly one afterwards |
| RecordProperties.CreateRecordPartialIdempotent | results/utils/records.py:132-156 | the same for `_create_record_partial` |
| RecordProperties.CreateRecordPrune | results/utils/records.py:120-127 | the prune deletes exactly the unapproved full-result candidates of the slot with a lower value dated on or after the result |
| RecordProperties.CheckRecordsFrame | results/utils/records.py:159-248 | check_records never touches an approved record or changes a row in place, removes all the result's old unapproved full-result records, and adds only eligible candidates; no row of the table left after the deletion blocks the slot of an added row; a non-qualifying result adds nothing |
| RecordProperties.CheckRecordsPartialFrame | results/utils/records.py:251-287 | the same for check_records_partial, with the partial blocking rule |
| RecordProperties.CheckRecordsCreates | results/utils/records.py:159-248 | conversely, for a qualifying result, a matching level and an allowed category, when no row left after the deletion blocks the slot the final table holds a row with the slot's key |
| RecordProperties.CheckRecordsPartialCreates | results/utils/records.py:251-287 | the same for a qualifying partial result |
| RecordProperties.CheckFullSlotIdempotent | results/utils/records.py:179-195 | checking a full-result slot twice changes nothing the second time |
| RecordProperties.BlockingRecordIsNotWorse | results/utils/records.py:179-195 | in either mode only an active full-result record of the slot, dated no later, with a value at least the new one's, blocks |
| RecordProperties.BlockingPartialIsNotWorse | results/utils/records.py:270-287 | the same for partial records |
| RecordProperties.FullTieBreaks | results/utils/records.py:179-195 | an equal-valued record blocks in strict mode only from an earlier day; in equal-allowed mode only from the same athlete, or a team sharing a member and the organisation |
| RecordProperties.SameDayGreaterValue | results/utils/records.py:192 | a greater same-day value blocks a full result in strict mode but not a partial, whose same-day test is exact equality |
| RecordProperties.PartialTieBreaks | results/utils/records.py:270-287 | an equal-valued partial record blocks in strict mode when dated no later; in equal-allowed mode only for the same athlete |
| RecordProperties.ApprovedChangedIff | results/models/records.py:96 | `approved` is a changed field exactly when it differs from the snapshot |
| RecordProperties.SaveWithoutApprovalChange | results/models/records.py:96-97 | a save that does not newly approve only persists the record |
| RecordProperties.SaveApproving | results/models/records.py:96-111 | approving a record unapproved in the snapshot cascades |
| RecordProperties.CascadeEffect | results/models/records.py:98-111 | per row: an approved superseded record is ended on the winner's start date, an unapproved one deleted, every other row unchanged |
| RecordProperties.CascadeClearsLower | results/models/records.py:98-111 | after the cascade no active record of the slot has a lower value, and no row was added |
| RecordScenarios.ApprovalEndsLowerRecord | results/tests/test_views_records.py:256-267 | over approved 200 records the 300 check leaves 4 rows, 2 unapproved; approving both leaves 4 rows, 3 active |
| RecordScenarios.ApprovalAfterPrune | results/tests/test_views_records.py:269-279 | over unapproved 200 records the check leaves 3 rows; approving both leaves 3 rows, all active |
| RecordScenarios.Levels300 | results/utils/records.py:208-215 | of an SE level and a team-only level, the personal level filter keeps SE for the 300 result |
| RecordScenarios.Categories300Broadened | results/utils/records.py:62-102 | record-group broadening for a 70-year-old W athlete in W keeps W and W50 and drops W20 (up to 20 years) |
| RecordScenarios.CheckOf300IsCheckRecords | results/utils/records.py:235-248 | the scenarios' slot checks are check_records over the database's levels, checks and categories |
| ChangeLog.Diff | results/mixins/change_log.py:30-39 | the diff holds only snapshot fields |
| ChangeLog.DiffSpec | results/mixins/change_log.py:36-39 | a field is in the diff exactly when its value changed, mapped to (old, new) |
| ChangeLog.DiffEmptyIffUnchanged | results/mixins/change_log.py:36-39 | the diff is empty exactly when every field equals the snapshot |
| ChangeLog.ChangedFields | results/mixins/change_log.py:19-28 | the changed fields are the field names that are keys of the diff, in field order, each once |
| ChangeLog.ChangeLine | results/mixins/change_log.py:88-92 | `field: new` for a logged field, the bare name otherwise |
| ChangeLog.ChangeMessage | results/mixins/change_log.py:79-93 | one line per changed field, valued exactly for LOG_VALUE_FIELDS fields |
| ChangeLog.AddMessage | results/mixins/change_log.py:65-77 | line i is `field: value` for the i-th field of LOG_VALUE_FIELDS that the instance has: one line per such field, in LOG_VALUE_FIELDS order |
| ChangeLog.Tracked.constructor | results/mixins/change_log.py:15-17 | the snapshot is the values at construction |
| ChangeLog.Tracked.Set | results/mixins/change_log.py:15-17 | assigning a field leaves the snapshot alone |
| ChangeLog.Tracked.Save | results/mixins/change_log.py:95-118 | ADDITION without a prior pk, with the message `Added` then the addition lines; else CHANGE, written only when some field changed, with one change line per changed field in field order; the snapshot is not refreshed |
| ResultModel.Defaulted | results/models/results.py:46-60 | empty names are filled from a set athlete and never overwritten; a missing position or position_pre is copied from the other; nothing else changes |
| ResultModel.DefaultedIdempotent | results/models/results.py:51-59 | saving twice fills in nothing more, and afterwards both positions are set or both unset |
| ResultModel.ResultInstance.Save | results/models/results.py:46-60 | the instance's row becomes the defaulted row |
| ResultModel.ResultPermissionSpec | results/models/results.py:79-93 | staff and superusers may change a result; others only as organiser group members while the competition is unlocked and the result unapproved |
| ResultModel.PartialPermissionMirrorsParent | results/models/results.py:138-152 | a partial may be changed exactly when its parent result may |
| ResultModel.Find | results/models/results.py:124 | the index of a row with the key, -1 iff no row has it |
| ResultModel.FindUnique | results/models/results.py:124 | with unique keys the row found is the only one with the key |
| ResultModel.IdsOf | results/serializers/results.py:111 | exactly the ids of the rows of the result |
| ResultModel.DeleteIds | results/serializers/results.py:126 | exactly the rows whose id is not listed remain, and uniqueness is kept |
| ResultModel.PartialTable.Get | results/serializers/results.py:114-116 | the lookup by (result, type, order) is `Find` |
| ResultModel.PartialTable.Create | results/models/results.py:124 | creation succeeds iff the key is new, appending the row with a fresh id; otherwise nothing changes |
| ResultModel.PartialTable.Put | results/serializers/results.py:117-118 | saving a loaded partial replaces its row |
| ResultModel.PartialTable.Delete | results/serializers/results.py:126 | the bulk delete by id |
| ResultValidation.AgeDifference | results/serializers/results.py:129-139 | calendar mode: the year difference; exact mode: the completed years at the competition start |
| ResultValidation.ExactAgeUnique | results/serializers/results.py:129-139 | the exact age is the unique number of completed years |
| ResultValidation.CheckMaxAge | results/serializers/results.py:141-150 | exact mode rejects age >= max, calendar mode age > max; no birth date passes |
| ResultValidation.CheckMinAge | results/serializers/results.py:152-158 | age < min is rejected; no birth date passes |
| ResultValidation.MinAgeLoop | results/serializers/results.py:160-164 | passes iff every athlete meets the minimum age |
| ResultValidation.MaxAgeLoop | results/serializers/results.py:165-169 | passes iff every athlete meets the maximum age |
| ResultValidation.CheckAge | results/serializers/results.py:160-169 | passes iff every athlete meets the truthy limits; a minimum-age failure is reported first |
| ResultValidation.CheckGender | results/serializers/results.py:171-179 | passes iff no athlete's gender clashes with a W or M category |
| ResultValidation.GenderOnlyMOrWRejects | results/serializers/results.py:171-179 | only a W category rejects an M athlete and only an M category a W athlete |
| ResultValidation.CheckTeamSize | results/serializers/results.py:181-187 | a team category with a team size needs exactly that many athletes |
| ResultValidation.CheckTeam | results/serializers/results.py:216-226 | passes iff a submitted true team flag has a team category, and a team category comes with team_members and no athlete; a team category with the flag false or absent is not refused for that. The source never calls this helper: `validate` (results/serializers/results.py:341-379) does not run it |
| ResultValidation.CheckTeamStatus | results/serializers/results.py:315-321 | the team flag of a stored result cannot change |
| ResultValidation.CheckExistence | results/serializers/results.py:302-313 | a new entry is refused iff the same athlete or team is already entered in the competition and category |
| ResultValidation.CheckRequirements | results/serializers/results.py:189-202 | passes iff every athlete meets every requirement on the competition day |
| ResultValidation.ResultLimits | results/serializers/results.py:287-300 | a disallowing check row refuses; a truthy category override wins over the type's limit |
| ResultValidation.TeamMax | results/serializers/results.py:207-209 | a team category's maximum is multiplied by its team size |
| ResultValidation.CheckValueLimits | results/serializers/results.py:204-214 | passes iff the value lies within the inclusive bounds |
| ResultValidation.AcceptedValuesConvex | results/serializers/results.py:204-214 | a value between two accepted values is accepted |
| ResultValidation.LimitExamples | results/tests/test_views_results.py:214-240 | the type's limits 0 and 1000 accept and refuse the tested values |
| ResultValidation.LimitExamplesWithOverride | results/tests/test_views_results.py:241-264 | the category overrides 1 and 999 accept and refuse the tested values |
| ResultValidation.CheckItem | results/serializers/results.py:323-339 | a partial's type must belong to the competition type and its value lie within the type's bounds, the maximum times the team size |
| ResultValidation.PartialMax | results/serializers/results.py:332-335 | the partial maximum is multiplied for teams |
| ResultValidation.CheckPartials | results/serializers/results.py:323-339 | passes iff every partial passes, reporting the first failure |
| ResultValidation.ValidatePartial | results/serializers/results.py:25-48 | permission through the parent result, then the type and the truthy limits |
| ResultValidation.ValidatePartialPermission | results/serializers/results.py:29-33 | NoPermission exactly when the user may not change the new parent, or is neither staff nor superuser and the stored partial's old parent is locked or approved; for a new partial or one that keeps its parent, exactly when the user may not change the parent |
| ResultValidation.PartialChecksAgree | results/serializers/results.py:36-47 | the two partial checks agree unless the maximum is 0 |
| ResultValidation.PartialChecksDisagreeOnZeroMax | results/serializers/results.py:36-47 | with a maximum of 0 the serializer check ignores the bound the nested check applies |
| ResultUpdate.MergeItem | results/serializers/results.py:115-125 | one submitted partial changes the table and the pending ids as `Step`: the stored partial with its key is updated in place and its id removed, failing when the id was already removed; otherwise a partial is created |
| ResultUpdate.UpdatePartials | results/serializers/results.py:98-127 | with dry_run set nothing changes; otherwise the merge loop computes the `UpdateSpec` fold over the submitted partials |
| ResultUpdate.UpdateWithDistinctKeys | results/serializers/results.py:111-126 | with distinct keys: no failure, keys stay unique, other results' partials are kept, each submitted partial is stored, unlisted ones deleted; an existing partial whose key is submitted is updated in place, keeping its id and every field the item does not carry |
| ResultUpdate.RepeatedKeyRaises | results/serializers/results.py:117-119 | a key submitted twice removes an id already removed, which raises |
| ResultUpdate.Remove | results/serializers/results.py:119 | `list.remove` drops the first occurrence and keeps the list duplicate-free |
| Statistics.PohjolanMalja | results/views/statistics.py:82-128 | non-staff callers are refused; otherwise, when the selected rows of each competition and category come together by ascending position, the loop computes `Points` over them, ranked, and each entry's total is the organisation's `Expected` sum of moving-cap points, an unranked organisation earning nothing |
| Statistics.MovingCap | results/views/statistics.py:100-123 | over rows whose competition-and-category groups come together, each by ascending position, an organisation's total is the sum over its internal rows at position p of max(0, 8 + E - p + 1), E being the external rows of the same competition and category ahead of p with no internal result at their place |
| Statistics.RankingMatches | results/views/statistics.py:100-124 | every ranked total is the organisation's moving-cap sum, and an organisation missing from the ranking has a sum of 0 |
| Statistics.Selected | results/views/statistics.py:93-100 | exactly the SM rows of the year with position at least 1, in query order |
| Statistics.Credit | results/views/statistics.py:117-123 | adds the points to one organisation only, appending it when new, keeping keys distinct |
| Statistics.Rank | results/views/statistics.py:124 | a permutation of the totals, by value descending |
| Statistics.PointsDistinct | results/views/statistics.py:101-123 | every organisation appears once in the totals |
| Statistics.WithoutExternalPoints | results/views/statistics.py:104-123 | without external results each organisation earns 9 - p for each result at a position p up to 8 |
| Statistics.ExternalOrganizationAbsent | results/views/statistics.py:109-116 | an organisation with only external results gets no entry |
| Statistics.PointsExample | results/tests/test_views_statistics.py:38-70 | A at 1, 5 and 15 and B at 9 and 5, each result in a category of its own, rank A 12, B 4 |
| Statistics.CapResetsPerCategory | results/views/statistics.py:104-116 | two external results raise the cap to 10; the next category starts again at 8 |
| Statistics.LaterCompetitionFirst | results/views/statistics.py:100 | a later competition with a larger id may come first: the order is admitted |
| Statistics.InterleavedGroups | results/views/statistics.py:100-116 | when two competitions' rows of one category interleave, the loop credits 7 points where the moving-cap sum gives 8, and the rows are outside the precondition |
| Statistics.SharedPlaceKeepsCap | results/views/statistics.py:109-116 | an external result sharing its place with a non-external one leaves the cap alone |
| Athletes.GetVisibility | results/models/athletes.py:101-116 | P always; A iff authenticated; S iff staff or superuser; U iff superuser |
| Athletes.TiersNested | results/models/athletes.py:109-116 | each user's list is a prefix of P, A, S, U, so the tiers are nested |
| Athletes.CanReadInformation | results/models/athletes.py:140-149 | an item is readable exactly when its visibility is in the user's list |
| Athletes.VisibleInformation | results/models/athletes.py:118-134 | exactly the readable items, and for users other than staff and superusers only those valid today |
| Athletes.PastInformation | results/tests/test_views_athletes.py:75-93 | an expired item is hidden from an ordinary user and shown to a superuser |
| Athletes.ChangeAllowed | results/models/athletes.py:54-65 | athlete and information writes and updates (and information creation) only for staff or superusers |
| Athletes.AthleteCreate | results/models/athletes.py:67-70 | any authenticated user may create an athlete |
| CompetitionValidation.CheckDates | results/serializers/competitions.py:152-167 | end before start is refused; with an event from the data or the instance, start and end must lie within it |
| CompetitionValidation.Validate | results/serializers/competitions.py:169-214 | anonymous users refused first; date checks for everyone; staff, superusers and area managers bypass; others need the organiser group and must not touch a lock, publish or approve |
| RecordValidation.Validate | results/serializers/records.py:33-51 | passes iff staff or superuser, or an update of only approved/historical by a manager of the level's area or of the sport |
| RecordValidation.AreaApproval | results/tests/test_views_records.py:333-352 | an area manager may approve but not also change the category; a non-manager may not approve |
| Events.SetFlag | results/views/events.py:95 | sets one flag and leaves the id and the other flags |
| Events.Differing | results/views/events.py:94 | exactly the competitions whose flag differs from the value, in order |
| Events.Propagate | results/views/events.py:92-96 | every competition ends with the value, nothing else changes, and exactly the differing competitions are saved |
| Events.PropagateTwice | results/views/events.py:92-96 | cascading the same value twice saves nothing the second time |
| Events.EventUpdate.UpdateCompetitions | results/views/events.py:92-96 | the loop computes `Propagate` |
| Events.EventUpdate.PerformUpdate | results/views/events.py:98-121 | at most one branch cascades, as `UpdateSpec`, and the event is saved with the submitted flags |
| Events.Applied | results/views/events.py:121 | the saved event takes each submitted flag and keeps the rest |
| Events.UnapprovalCascades | results/views/events.py:107-113 | un-approving an approved event with the removal setting un-approves all its competitions |
| Events.UnchangedFlagsCascadeNothing | results/views/events.py:99-106 | with include_competitions, flags equal to the event's cascade nothing, whatever the settings |
| Events.ApprovalCascadesWithCompetitions | results/views/events.py:99-106 | with include_competitions a differing approval flag reaches every competition |
| Events.VisibleEvents | results/views/events.py:69-82 | staff mode: non-staff see public or own-group events; authenticated mode: anonymous users see public events |

## Left out

- I/O, the HTTP layer, pagination, serializer field parsing and the DRY permission layer's 401/403 responses are not modelled. The validators return an `Outcome`.
- The post-save hooks (results/signals.py:25-36) are modelled only as the calls they make. `check_records` runs after a result save and `check_records_partial` after a partial save.
- `Record.save` with a NULL `result.result` or, for a partial record, a NULL `partial_result.value` (results/models/records.py:101 and 105): the `__lt=None` filter raises in Django. The model's cascade then affects nothing.
- `MultipleObjectsReturned` in `_create_record`: it is swallowed. The model's get-or-create picks no row and creates none when several rows match.
- The view's `order_by("competition", "category", "position", "-result")` is a precondition (`QueryOrdered`) on the selected rows, not a sort the model performs. Django orders the two foreign keys by their models' own orderings: a competition by descending `date_start`, then `name`; a category by `sport`, `order`, `team`, then `name`. So the precondition fixes no order between groups. It asks only that the rows of one competition and category come together (`GroupsTogether`), by ascending position (`PositionsAscend`). The `-result` key is not stated: the points do not depend on the order of rows sharing a competition, category and position.
- `Statistics.MovingCap`, `Statistics.RankingMatches` and `Statistics.PohjolanMalja` do not cover rows whose groups interleave. Neither ordering key is unique. Two SM competitions with the same `date_start` and `name` that share a category can have their rows interleaved by the database. The loop then resets the cap at every change of competition (results/views/statistics.py:105-108), so an external result stops raising it. `Statistics.InterleavedGroups` gives such an input: the loop credits 7 points where the moving-cap sum gives 8.
- Other database orderings (of levels, categories and partials) are taken as given.
- Settings are parameters: CREATE_RECORD_FOR_SAME_RESULT_VALUE, COMPETITION_PUBLISH_REQUIRES_STAFF, the two event approval settings, LIMIT_NON_PUBLIC_EVENT_AND_COMPETITION and LOG_VALUE_FIELDS.
- Concurrency and transactions are not modelled. Requests run without ATOMIC_REQUESTS, so partials merged before a `ValueError` in `update` stay merged, and the model keeps them.
- LogEntry persistence, the current user of a log entry, `delete` logging and e-mail notifications are not modelled.
- Only the record fields that the cascade and `LOG_VALUE_FIELDS` read are modelled. `ResultPartial` has no `code`, `time` or `text`. `update` copies `code` and `time` with `setattr` (results/serializers/results.py:119-121) like `value` and `decimals`, but the model neither stores nor compares them. `text` is not a field of the nested partial serializer (results/serializers/results.py:57), so `update` never writes it.
- `_get_category`, `_get_athletes`, `_get_competition`, `_get_result`, `ResultSerializer.validate` and `create` are not modelled. Only the helpers they call are.
- An explicit `null` in submitted partial data is treated as a missing key.
- Requirement strings are taken already split and stripped.
- A missing athlete organisation in `_check_requirements` is not modelled.
- A non-team result without an athlete is not modelled in record checking.
- Duplicate categories in the category table are not modelled.
- The partial strict-mode same-day rule tests exact equality, not `>`. It is kept as written.
- `Statistics.Rank` states order and permutation only. Its definition keeps equal totals in insertion order, like Python's stable `sorted`, but the contract does not state this.
- Statistics: a result whose organisation is NULL raises an `AttributeError` in the view. Rows here always carry an organisation.
- Statistics: the response body (`model_to_dict` of each organisation) is not modelled. The ranking carries organisation ids.
- Athletes: `date.today()` is a parameter. The always-true read permissions of athletes and information items are not separate members.
- `is_area_manager` is modelled as "some area of the organisation has a group of the user". The `.get()` in the source raises `MultipleObjectsReturned` when several areas match, and that case is not modelled.
- Competition validation: the source raises on a missing stored organisation or event, and on a missing `level` key. These are modelled as `InternalError`, as is a create without an event, which the serializer's required `event` field rules out anyway.
- RecordValidation: the serializer and its tests read an area's manager group as `area.manager`. The `Area` model in results/models/organizations.py calls that group `group`. The model follows the serializer.
- Events: `initial_data` and `validated_data` are taken to carry the same booleans. Each competition save is recorded as an id in `saved`, and its own save side effects are not modelled. `EventSerializer.validate` is not modelled.
- The `Athlete` and `Organization` rows carry only the fields the core reads.
