/** The record engine: the record table, the checks that run after a
    result or a partial result is saved (results/utils/records.py) and the
    approval cascade of Record.save (results/models/records.py). */
module RecordEngine {
  import opened Common
  import opened Domain
  import opened Eligibility
  import ChangeLog

  /** CREATE_RECORD_FOR_SAME_RESULT_VALUE in the project settings. The
      checks take the setting as a parameter; this is its shipped value. */
  const CreateRecordForSameResultValue: bool := false

  // ---------------------------------------------------------------------
  // The rows a record reads through its keys
  // ---------------------------------------------------------------------

  /** The saved results and partial results, by id. */
  datatype Db = Db(results: map<nat, Result>, partials: map<nat, ResultPartial>)

  /** `result__result` of a record; NULL when the value is NULL. */
  function ValueOf(db: Db, rec: Record): Option<Decimal> {
    if rec.result in db.results then db.results[rec.result].value else None
  }

  /** `result__athlete` of a record. */
  function AthleteOf(db: Db, rec: Record): Option<nat> {
    if rec.result in db.results then AthleteKey(db.results[rec.result]) else None
  }

  /** `partial_result__value` of a record; NULL for a full-result record. */
  function PartialValueOf(db: Db, rec: Record): Option<Decimal> {
    if rec.partialResult.Some? && rec.partialResult.value in db.partials
    then db.partials[rec.partialResult.value].value else None
  }

  /** `partial_result__type` of a record; NULL for a full-result record. */
  function PartialTypeOf(db: Db, rec: Record): Option<nat> {
    if rec.partialResult.Some? && rec.partialResult.value in db.partials
    then Some(db.partials[rec.partialResult.value].ptype.id) else None
  }

  /** `result__team_members__in=result.team_members.all()` together with
      `result__organization=result.organization`: the record's result
      shares at least one team member with `r` and has its organisation. */
  predicate SharesTeam(db: Db, rec: Record, r: Result) {
    rec.result in db.results
    && (exists i, j :: 0 <= i < |db.results[rec.result].teamMembers| && 0 <= j < |r.teamMembers|
                       && db.results[rec.result].teamMembers[i].id == r.teamMembers[j].id)
    && OrganizationKey(db.results[rec.result]) == OrganizationKey(r)
  }

  /** `date_end=None, historical=False`. */
  predicate Active(rec: Record) {
    rec.dateEnd.None? && !rec.historical
  }

  /** `level=..., type=..., category=...`. */
  predicate InSlot(rec: Record, level: nat, rtype: nat, category: nat) {
    rec.level == level && rec.rtype == rtype && rec.category == category
  }

  // ---------------------------------------------------------------------
  // The record table
  // ---------------------------------------------------------------------

  /** The Record table: rows by primary key and the next key to assign. */
  datatype Table = Table(rows: map<nat, Record>, nextId: nat)

  /** Every row's key was assigned before `nextId`. */
  predicate Fresh(t: Table) {
    forall k :: k in t.rows ==> k < t.nextId
  }

  function Insert(t: Table, rec: Record): Table {
    Table(t.rows[t.nextId := rec], t.nextId + 1)
  }

  /** `Record.objects.filter(p).delete()`. */
  function DeleteWhere(t: Table, p: Record -> bool): Table {
    Table(map k | k in t.rows && !p(t.rows[k]) :: t.rows[k], t.nextId)
  }

  /** The keys of the rows `key` finds. */
  function Found(t: Table, key: Record -> bool): set<nat> {
    set k | k in t.rows && key(t.rows[k])
  }

  /** What one get-or-create call looks up, creates and prunes. */
  datatype Creation = Creation(key: Record -> bool, made: Record, lower: Record -> bool)

  /** The body of `_create_record` / `_create_record_partial`: get-or-create
      by the key, then delete the lower candidates. Two or more rows under
      the key raise MultipleObjectsReturned, which is swallowed before the
      prune runs. */
  function GetOrCreate(t: Table, c: Creation): Table {
    var found := Found(t, c.key);
    if |found| >= 2 then t
    else DeleteWhere(if |found| == 0 then Insert(t, c.made) else t, c.lower)
  }

  /** One (record level, category) pair of a check: which existing records
      block a new one, and what is created otherwise. */
  datatype Slot = Slot(blocks: Record -> bool, create: Creation)

  /** `if not Record.objects.filter(...): _create_record(...)`. */
  function CheckSlot(t: Table, s: Slot): Table {
    if exists k :: k in t.rows && s.blocks(t.rows[k]) then t else GetOrCreate(t, s.create)
  }

  /** The inner loop over categories for one record level. */
  function CheckCategories(t: Table, rule: (nat, nat) -> Slot, level: nat, cats: seq<Category>): Table
    decreases |cats|
  {
    if cats == [] then t
    else CheckCategories(CheckSlot(t, rule(level, cats[0].id)), rule, level, cats[1..])
  }

  /** The outer loop over record levels. */
  function CheckLevels(t: Table, rule: (nat, nat) -> Slot, levels: seq<RecordLevel>, cats: seq<Category>): Table
    decreases |levels|
  {
    if levels == [] then t
    else CheckLevels(CheckCategories(t, rule, levels[0].id, cats), rule, levels[1..], cats)
  }

  // ---------------------------------------------------------------------
  // Full results
  // ---------------------------------------------------------------------

  /** An existing record that stops `r` from becoming a record of `level`
      and `category`. Strict mode (`sameValue` off): an active full-result
      record with a value at least `r`'s from an earlier day, or a greater
      value from the same day. Equal-allowed mode: an active full-result
      record from the same day or earlier with a greater value, or with an
      equal value by the same athlete (personal) or by a team sharing a
      member and the organisation (team). */
  predicate BlocksFull(db: Db, rec: Record, r: Result, level: nat, category: nat, sameValue: bool, team: bool) {
    var v := ValueOf(db, rec);
    var day := r.competition.dateStart;
    && Active(rec)
    && InSlot(rec, level, r.competition.ctype.id, category)
    && rec.partialResult.None?
    && if sameValue then
         DateLe(rec.dateStart, day)
         && (OptLt(r.value, v)
             || (OptEq(v, r.value) && (if team then SharesTeam(db, rec, r) else AthleteOf(db, rec) == AthleteKey(r))))
       else
         (OptLe(r.value, v) && DateLt(rec.dateStart, day)) || (OptLt(r.value, v) && rec.dateStart == day)
  }

  /** The record `_create_record` creates for `r`. */
  function NewFull(r: Result, level: nat, category: nat): Record {
    Record(r.id, None, level, r.competition.ctype.id, category, false, r.competition.dateStart, None, false)
  }

  /** The get_or_create lookup of `_create_record`: result, level, type,
      category and start date; the partial result is not part of it. */
  predicate FullKey(rec: Record, r: Result, level: nat, category: nat) {
    rec.result == r.id && InSlot(rec, level, r.competition.ctype.id, category)
    && rec.dateStart == r.competition.dateStart
  }

  /** The prune of `_create_record`: unapproved full-result candidates of
      the slot with a lower value and a start date not before `r`'s. */
  predicate LowerFull(db: Db, rec: Record, r: Result, level: nat, category: nat) {
    !rec.approved && OptLt(ValueOf(db, rec), r.value) && rec.partialResult.None?
    && InSlot(rec, level, r.competition.ctype.id, category)
    && DateLe(r.competition.dateStart, rec.dateStart)
  }

  function FullCreation(db: Db, r: Result, level: nat, category: nat): Creation {
    Creation(rec => FullKey(rec, r, level, category), NewFull(r, level, category),
             rec => LowerFull(db, rec, r, level, category))
  }

  /** check_team_records (team) and check_personal_records (not team) for
      one level and category. */
  function FullRule(db: Db, r: Result, sameValue: bool, team: bool): (nat, nat) -> Slot {
    (level: nat, category: nat) => Slot(rec => BlocksFull(db, rec, r, level, category, sameValue, team),
                              FullCreation(db, r, level, category))
  }

  /** The unapproved full-result records of `r`, deleted first by check_records. */
  function UnapprovedFullOf(r: Result): Record -> bool {
    (rec: Record) => rec.result == r.id && rec.partialResult.None? && !rec.approved
  }

  /** check_records re-checks a result with a truthy value whose
      organisation exists and is not external. */
  predicate QualifiesFull(r: Result) {
    Truthy(r.value) && r.organization.Some? && !r.organization.value.external
  }

  /** The tables of the database the checks read, and the setting. */
  datatype Config = Config(
    levels: seq<RecordLevel>,
    checks: seq<CategoryCheck>,
    categories: seq<Category>,
    sameValue: bool)

  /** check_records. */
  function CheckRecordsSpec(t: Table, db: Db, r: Result, cfg: Config): Table {
    var cleared := DeleteWhere(t, UnapprovedFullOf(r));
    if QualifiesFull(r) then
      CheckLevels(cleared, FullRule(db, r, cfg.sameValue, r.team), FullLevels(cfg.levels, r, r.team),
                  Categories(r, None, cfg.checks, cfg.categories))
    else cleared
  }

  // ---------------------------------------------------------------------
  // Partial results
  // ---------------------------------------------------------------------

  /** An existing record that stops partial `p` of `parent` from becoming a
      record. Both modes look only at active partial records of the same
      partial type. Strict mode: a value at least `p`'s from an earlier
      day, or exactly `p`'s value from the same day. Equal-allowed mode: a
      record from the same day or earlier with a greater value, or an equal
      value by the same athlete. */
  predicate BlocksPartial(db: Db, rec: Record, p: ResultPartial, parent: Result, level: nat, category: nat,
                          sameValue: bool) {
    var v := PartialValueOf(db, rec);
    var day := parent.competition.dateStart;
    && Active(rec)
    && InSlot(rec, level, parent.competition.ctype.id, category)
    && rec.partialResult.Some?
    && PartialTypeOf(db, rec) == Some(p.ptype.id)
    && if sameValue then
         DateLe(rec.dateStart, day)
         && (OptLt(p.value, v) || (OptEq(v, p.value) && AthleteOf(db, rec) == AthleteKey(parent)))
       else
         (OptLe(p.value, v) && DateLt(rec.dateStart, day)) || (OptEq(v, p.value) && rec.dateStart == day)
  }

  function NewPartial(p: ResultPartial, parent: Result, level: nat, category: nat): Record {
    Record(parent.id, Some(p.id), level, parent.competition.ctype.id, category, false,
           parent.competition.dateStart, None, false)
  }

  /** The get_or_create lookup of `_create_record_partial`. */
  predicate PartialKey(rec: Record, p: ResultPartial, parent: Result, level: nat, category: nat) {
    rec.result == parent.id && rec.partialResult == Some(p.id)
    && InSlot(rec, level, parent.competition.ctype.id, category)
    && rec.dateStart == parent.competition.dateStart
  }

  /** The prune of `_create_record_partial`: unapproved candidates of the
      same partial type with a lower value and a start date not before. */
  predicate LowerPartial(db: Db, rec: Record, p: ResultPartial, parent: Result, level: nat, category: nat) {
    !rec.approved && OptLt(PartialValueOf(db, rec), p.value) && PartialTypeOf(db, rec) == Some(p.ptype.id)
    && InSlot(rec, level, parent.competition.ctype.id, category)
    && DateLe(parent.competition.dateStart, rec.dateStart)
  }

  function PartialCreation(db: Db, p: ResultPartial, parent: Result, level: nat, category: nat): Creation {
    Creation(rec => PartialKey(rec, p, parent, level, category), NewPartial(p, parent, level, category),
             rec => LowerPartial(db, rec, p, parent, level, category))
  }

  function PartialRule(db: Db, p: ResultPartial, parent: Result, sameValue: bool): (nat, nat) -> Slot {
    (level: nat, category: nat) => Slot(rec => BlocksPartial(db, rec, p, parent, level, category, sameValue),
                              PartialCreation(db, p, parent, level, category))
  }

  /** The unapproved records of partial `p`, deleted first by check_records_partial. */
  function UnapprovedPartialOf(db: Db, p: ResultPartial): Record -> bool {
    (rec: Record) => rec.partialResult == Some(p.id) && PartialTypeOf(db, rec) == Some(p.ptype.id) && !rec.approved
  }

  /** check_records_partial re-checks a partial whose type keeps records,
      whose value is truthy and whose result's organisation exists and is
      not external. */
  predicate QualifiesPartial(p: ResultPartial, parent: Result) {
    p.ptype.records && Truthy(p.value) && parent.organization.Some? && !parent.organization.value.external
  }

  /** check_records_partial. */
  function CheckRecordsPartialSpec(t: Table, db: Db, p: ResultPartial, parent: Result, cfg: Config): Table {
    var cleared := DeleteWhere(t, UnapprovedPartialOf(db, p));
    if QualifiesPartial(p, parent) then
      CheckLevels(cleared, PartialRule(db, p, parent, cfg.sameValue), PartialLevels(cfg.levels, parent),
                  Categories(parent, Some(p), cfg.checks, cfg.categories))
    else cleared
  }

  // ---------------------------------------------------------------------
  // Record.save
  // ---------------------------------------------------------------------

  /** A field value of a record, as `model_to_dict` holds it. */
  datatype FieldValue = Num(n: int) | Flag(b: bool) | Day(d: Date) | Null

  /** `model_to_dict` of a record, restricted to the modelled fields. */
  function RecordFields(rec: Record): ChangeLog.Fields<FieldValue> {
    map[
      "result" := Num(rec.result),
      "partial_result" := (if rec.partialResult.Some? then Num(rec.partialResult.value) else Null),
      "level" := Num(rec.level),
      "type" := Num(rec.rtype),
      "category" := Num(rec.category),
      "approved" := Flag(rec.approved),
      "date_start" := Day(rec.dateStart),
      "date_end" := (if rec.dateEnd.Some? then Day(rec.dateEnd.value) else Null),
      "historical" := Flag(rec.historical)]
  }

  /** The cascade runs when the saved record is approved and `approved` is
      among its changed fields (against the snapshot taken when it was built). */
  predicate TriggersCascade(snapshot: Record, rec: Record) {
    rec.approved && "approved" in ChangeLog.Diff(RecordFields(snapshot), RecordFields(rec))
  }

  /** The records an approved record `winner` supersedes: active records of its
      level, type and category with a strictly lower value. For a partial
      record that is the same partial type and a lower partial value, for a
      full-result record a lower result among full-result records. */
  predicate Superseded(db: Db, rec: Record, winner: Record) {
    && InSlot(rec, winner.level, winner.rtype, winner.category)
    && Active(rec)
    && if winner.partialResult.Some? then
         PartialTypeOf(db, rec).Some? && PartialTypeOf(db, rec) == PartialTypeOf(db, winner)
         && OptLt(PartialValueOf(db, rec), PartialValueOf(db, winner))
       else
         rec.partialResult.None? && OptLt(ValueOf(db, rec), ValueOf(db, winner))
  }

  /** The loop of Record.save: approved superseded records get `date_end`
      set to the new record's start date, unapproved ones are deleted. */
  function Cascade(t: Table, db: Db, winner: Record): Table {
    Table(map k | k in t.rows && !(Superseded(db, t.rows[k], winner) && !t.rows[k].approved)
                :: if Superseded(db, t.rows[k], winner) then t.rows[k].(dateEnd := Some(winner.dateStart)) else t.rows[k],
          t.nextId)
  }

  /** `super().save()`: an instance without a key is inserted under a new
      key; one with a key overwrites (or inserts) that row. */
  function Persist(t: Table, key: Option<nat>, rec: Record): (Table, nat) {
    if key.None? then (Insert(t, rec), t.nextId)
    else (Table(t.rows[key.value := rec], if key.value < t.nextId then t.nextId else key.value + 1), key.value)
  }

  /** Record.save. */
  function SaveSpec(t: Table, db: Db, key: Option<nat>, snapshot: Record, rec: Record): Table {
    var saved := Persist(t, key, rec).0;
    if TriggersCascade(snapshot, rec) then Cascade(saved, db, rec) else saved
  }

  // ---------------------------------------------------------------------
  // The table as the application changes it
  // ---------------------------------------------------------------------

  class RecordStore {
    var rows: map<nat, Record>
    var nextId: nat

    function State(): Table
      reads this
    {
      Table(rows, nextId)
    }

    ghost predicate Valid()
      reads this
    {
      Fresh(State())
    }

    constructor (t: Table)
      requires Fresh(t)
      ensures Valid() && State() == t
    {
      rows := t.rows;
      nextId := t.nextId;
    }

    /** `Record.objects.get_or_create(...)` followed by the prune, inside
      the `except MultipleObjectsReturned: pass`. */
    method Create(c: Creation)
      requires Valid()
      modifies this
      ensures Valid()
      ensures State() == GetOrCreate(old(State()), c)
    {
      var found := Found(State(), c.key);
      if |found| >= 2 {
        return;
      }
      if |found| == 0 {
        rows := rows[nextId := c.made];
        nextId := nextId + 1;
      }
      rows := map k | k in rows && !c.lower(rows[k]) :: rows[k];
    }

    /** _create_record. */
    method CreateRecord(db: Db, r: Result, level: nat, category: nat)
      requires Valid()
      modifies this
      ensures Valid()
      ensures State() == GetOrCreate(old(State()), FullCreation(db, r, level, category))
    {
      Create(FullCreation(db, r, level, category));
    }

    /** _create_record_partial. */
    method CreateRecordPartial(db: Db, p: ResultPartial, parent: Result, level: nat, category: nat)
      requires Valid()
      requires p.result == parent.id
      modifies this
      ensures Valid()
      ensures State() == GetOrCreate(old(State()), PartialCreation(db, p, parent, level, category))
    {
      Create(PartialCreation(db, p, parent, level, category));
    }

    /** One iteration of the nested loops: the blocking query, then the
      creation when nothing blocks. */
    method CheckSlotOnce(s: Slot)
      requires Valid()
      modifies this
      ensures Valid()
      ensures State() == CheckSlot(old(State()), s)
    {
      var blocked := exists k :: k in rows && s.blocks(rows[k]);
      if !blocked {
        Create(s.create);
      }
    }

    /** `for record_level in record_levels: for category in categories: ...`. */
    method CheckSlots(rule: (nat, nat) -> Slot, levels: seq<RecordLevel>, cats: seq<Category>)
      requires Valid()
      modifies this
      ensures Valid()
      ensures State() == CheckLevels(old(State()), rule, levels, cats)
    {
      var i := 0;
      while i < |levels|
        invariant 0 <= i <= |levels|
        invariant Valid()
        invariant CheckLevels(State(), rule, levels[i..], cats) == CheckLevels(old(State()), rule, levels, cats)
      {
        ghost var atLevel := State();
        var level := levels[i].id;
        var j := 0;
        while j < |cats|
          invariant 0 <= j <= |cats|
          invariant Valid()
          invariant CheckCategories(State(), rule, level, cats[j..]) == CheckCategories(atLevel, rule, level, cats)
        {
          assert cats[j..][1..] == cats[j + 1..];
          CheckSlotOnce(rule(level, cats[j].id));
          j := j + 1;
        }
        assert cats[j..] == [];
        assert levels[i..][1..] == levels[i + 1..];
        i := i + 1;
      }
      assert levels[i..] == [];
    }

    /** check_team_records. */
    method CheckTeamRecords(db: Db, r: Result, levels: seq<RecordLevel>, categories: seq<Category>, sameValue: bool)
      requires Valid()
      modifies this
      ensures Valid()
      ensures State() == CheckLevels(old(State()), FullRule(db, r, sameValue, true), FullLevels(levels, r, true), categories)
    {
      var recordLevels := FullLevels(levels, r, true);
      CheckSlots(FullRule(db, r, sameValue, true), recordLevels, categories);
    }

    /** check_personal_records. */
    method CheckPersonalRecords(db: Db, r: Result, levels: seq<RecordLevel>, categories: seq<Category>,
                                sameValue: bool)
      requires Valid()
      modifies this
      ensures Valid()
      ensures State() == CheckLevels(old(State()), FullRule(db, r, sameValue, false), FullLevels(levels, r, false), categories)
    {
      var recordLevels := FullLevels(levels, r, false);
      CheckSlots(FullRule(db, r, sameValue, false), recordLevels, categories);
    }

    /** check_records, run after a result is saved. */
    method CheckRecords(db: Db, r: Result, cfg: Config)
      requires Valid()
      modifies this
      ensures Valid()
      ensures State() == CheckRecordsSpec(old(State()), db, r, cfg)
    {
      var unapproved := UnapprovedFullOf(r);
      rows := map k | k in rows && !unapproved(rows[k]) :: rows[k];
      if Truthy(r.value) && r.organization.Some? && !r.organization.value.external {
        var allowed := GetCategories(r, None, cfg.checks, cfg.categories);
        if r.team {
          CheckTeamRecords(db, r, cfg.levels, allowed, cfg.sameValue);
        } else {
          CheckPersonalRecords(db, r, cfg.levels, allowed, cfg.sameValue);
        }
      }
    }

    /** check_records_partial, run after a partial result is saved. */
    method CheckRecordsPartial(db: Db, p: ResultPartial, parent: Result, cfg: Config)
      requires Valid()
      requires p.result == parent.id
      modifies this
      ensures Valid()
      ensures State() == CheckRecordsPartialSpec(old(State()), db, p, parent, cfg)
    {
      var unapproved := UnapprovedPartialOf(db, p);
      rows := map k | k in rows && !unapproved(rows[k]) :: rows[k];
      if p.ptype.records && Truthy(p.value) && parent.organization.Some? && !parent.organization.value.external {
        var allowed := GetCategories(parent, Some(p), cfg.checks, cfg.categories);
        var recordLevels := PartialLevels(cfg.levels, parent);
        CheckSlots(PartialRule(db, p, parent, cfg.sameValue), recordLevels, allowed);
      }
    }

    /** Record.save: persist the record, then, when it was approved by this
      change, end or delete the records it supersedes. The query is
      evaluated once, before the loop; saving an ended record does not
      cascade again, since its `approved` is unchanged. */
    method Save(db: Db, key: Option<nat>, snapshot: Record, rec: Record) returns (id: nat)
      requires Valid()
      modifies this
      ensures Valid()
      ensures State() == SaveSpec(old(State()), db, key, snapshot, rec)
      ensures id == Persist(old(State()), key, rec).1 && id in rows
    {
      if key.None? {
        id := nextId;
        rows := rows[nextId := rec];
        nextId := nextId + 1;
      } else {
        id := key.value;
        rows := rows[id := rec];
        if nextId <= id {
          nextId := id + 1;
        }
      }
      if TriggersCascade(snapshot, rec) {
        CascadeFrom(db, rec);
      }
    }

    /** The loop over the superseded records. */
    method CascadeFrom(db: Db, winner: Record)
      requires Valid()
      modifies this
      ensures Valid()
      ensures State() == Cascade(old(State()), db, winner)
    {
      ghost var before := rows;
      var affected := set k | k in rows && Superseded(db, rows[k], winner);
      ghost var all := affected;
      while affected != {}
        invariant affected <= all
        invariant all == set k | k in before && Superseded(db, before[k], winner)
        invariant nextId == old(nextId) && Valid()
        invariant forall k :: k in rows <==> k in before && !(k in all && k !in affected && !before[k].approved)
        invariant forall k :: k in rows ==>
          rows[k] == if k in all && k !in affected then before[k].(dateEnd := Some(winner.dateStart)) else before[k]
        decreases affected
      {
        var k :| k in affected;
        if rows[k].approved {
          rows := rows[k := rows[k].(dateEnd := Some(winner.dateStart))];
        } else {
          rows := rows - {k};
        }
        affected := affected - {k};
      }
      assert rows == Cascade(old(State()), db, winner).rows;
    }
  }
}
