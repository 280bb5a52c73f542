/** The record approval scenarios of the project's record tests
    (results/tests/test_views_records.py): a 200 result holds approved or
    unapproved records in categories W and W20, then a 300 result of an
    older athlete is checked in categories W and W50 and its records are
    approved one after the other. */
module RecordScenarios {
  import opened Common
  import opened Domain
  import opened Eligibility
  import opened RecordEngine
  import RecordProperties

  const Day: Date := Date(2020, 6, 1)
  const TypeId: nat := 7
  const LevelSE: nat := 1
  const CatW: nat := 1
  const CatW20: nat := 3
  const CatW50: nat := 5

  function TestCompetition(): Competition {
    Competition(1, Day, 1, "SM", CompetitionType(TypeId, Some(1), None, None), false, false, None)
  }

  function TestResult(id: nat, athlete: nat, category: nat, value: Decimal, born: Option<Date>): Result {
    Result(id, TestCompetition(), Some(Athlete(athlete, "A", "B", Some(W), born)), [], None, None,
           Some(Organization(1, false, {}, None)),
           Category(category, Some(1), None, None, false, Only(W), false, None),
           Some(value), 0, None, None, false, false)
  }

  const R200: Result := TestResult(1, 1, CatW20, 200 * Scale, None)
  /** The 300 result of an athlete born in 1950: 70 years old in 2020. */
  const R300: Result := TestResult(2, 3, CatW, 300 * Scale, Some(Date(1950, 1, 1)))
  const TestDb: Db := Db(map[1 := R200, 2 := R300], map[])

  function Candidate(result: nat, category: nat, approved: bool): Record {
    Record(result, None, LevelSE, TypeId, category, approved, Day, None, false)
  }

  /** The rows left by the 200 result. */
  function Before(approved: bool): Table {
    Table(map[0 := Candidate(1, CatW20, approved), 1 := Candidate(1, CatW, approved)], 2)
  }

  const Levels: seq<RecordLevel> := [RecordLevel(LevelSE, {1}, {TypeId}, None, true, false, true, true, false, false)]

  /** The categories record-group broadening gives the 300 result of a
      70-year-old W athlete: W and W50. */
  const Categories300: seq<Category> := [
    Category(CatW, Some(1), None, None, false, Only(W), false, None),
    Category(CatW50, Some(1), None, Some(50), false, Only(W), false, None)]

  /** The record levels of the database: SE, which the 300 result
      matches, and a team-only level, which it does not. */
  const LevelTable: seq<RecordLevel> := Levels + [RecordLevel(2, {1}, {TypeId}, None, true, false, false, true, false, false)]

  /** The categories of the database: W, W20 (up to 20 years) and W50
      (from 50 years). */
  const CategoryTable: seq<Category> := [
    Categories300[0],
    Category(CatW20, Some(1), Some(20), None, false, Only(W), false, None),
    Categories300[1]]

  /** The category checks: all three categories are in record group 1 for
      the competition type, and records are checked. */
  const Checks: seq<CategoryCheck> := [
    CategoryCheck(CatW, TypeId, None, None, false, true, true, Some(1), {}),
    CategoryCheck(CatW20, TypeId, None, None, false, true, true, Some(1), {}),
    CategoryCheck(CatW50, TypeId, None, None, false, true, true, Some(1), {})]

  const Config300: Config := Config(LevelTable, Checks, CategoryTable, false)

  /** The level filter of check_personal_records keeps SE only. */
  lemma Levels300()
    ensures FullLevels(LevelTable, R300, R300.team) == Levels
  {
    var keep := l => FullLevelMatches(l, R300, R300.team);
    assert keep(LevelTable[0]) && !keep(LevelTable[1]);
    assert LevelTable[1..] == [LevelTable[1]];
    assert Filter(LevelTable[1..], keep) == [] by {
      assert LevelTable[1..][1..] == [];
    }
  }

  /** Record-group broadening for the 70-year-old W athlete keeps W and
      W50 and drops W20. */
  lemma Categories300Broadened()
    ensures Categories(R300, None, Checks, CategoryTable) == Categories300
  {
    assert Athletes(R300) == [R300.athlete.value];
    assert DatedAges(Athletes(R300), 2020) == [70] by {
      assert Athletes(R300)[1..] == [];
    }
    assert AgeStep((None, None), 70) == (Some(70), Some(70));
    assert AgesOf(R300) == (Some(70), Some(70)) by {
      assert [70][1..] == [];
    }
    assert HasSex(Athletes(R300), W) && !HasSex(Athletes(R300), M);
    assert FindCheck(Checks, TypeId, CatW) == Some(Checks[0]);
    var k := CriteriaOf(R300, Some(70), Some(70), Some(W), 1);
    var keep := c => Eligible(c, k, Checks);
    assert LinkedToGroup(Checks, CatW, TypeId, 1) by { assert Checks[0].category == CatW; }
    assert LinkedToGroup(Checks, CatW50, TypeId, 1) by { assert Checks[2].category == CatW50; }
    assert keep(CategoryTable[0]) && !keep(CategoryTable[1]) && keep(CategoryTable[2]);
    assert CategoryTable[1..][1..] == [CategoryTable[2]];
    assert Filter(CategoryTable[1..][1..], keep) == [CategoryTable[2]] by {
      assert CategoryTable[1..][1..][1..] == [];
    }
    assert Filter(CategoryTable, keep) == Categories300;
    assert GenderOf(Athletes(R300)) == Some(W);
    assert Broaden(CategoryTable, k, Checks) == Categories300;
  }

  /** The scenario's check is check_records on the database above. */
  lemma CheckOf300IsCheckRecords(t: Table)
    ensures CheckRecordsSpec(t, TestDb, R300, Config300) == CheckOf300(DeleteWhere(t, UnapprovedFullOf(R300)))
  {
    Levels300();
    Categories300Broadened();
  }

  function CheckOf300(t: Table): Table {
    CheckLevels(t, FullRule(TestDb, R300, false, false), Levels, Categories300)
  }

  /** The nested loops for one level and two categories, unrolled. */
  lemma CheckOf300Unrolled(t: Table)
    ensures var rule := FullRule(TestDb, R300, false, false);
      CheckOf300(t) == CheckSlot(CheckSlot(t, rule(LevelSE, CatW)), rule(LevelSE, CatW50))
  {
    var rule := FullRule(TestDb, R300, false, false);
    var cs := Categories300;
    assert Levels[0].id == LevelSE && Levels[1..] == [];
    assert cs[0].id == CatW && cs[1..][0].id == CatW50 && cs[1..][1..] == [];
    var a := CheckSlot(t, rule(LevelSE, CatW));
    var b := CheckSlot(a, rule(LevelSE, CatW50));
    assert CheckCategories(a, rule, LevelSE, cs[1..]) == CheckCategories(b, rule, LevelSE, cs[1..][1..]);
    assert CheckCategories(t, rule, LevelSE, cs) == b;
    assert CheckLevels(t, rule, Levels, cs) == CheckLevels(b, rule, Levels[1..], cs);
  }

  /** The slot the 300 result's check uses for one category, applied to a row. */
  lemma Rule300(category: nat, rec: Record)
    ensures var s := FullRule(TestDb, R300, false, false)(LevelSE, category);
      && s.blocks(rec) == BlocksFull(TestDb, rec, R300, LevelSE, category, false, false)
      && s.create.key(rec) == FullKey(rec, R300, LevelSE, category)
      && s.create.lower(rec) == LowerFull(TestDb, rec, R300, LevelSE, category)
      && s.create.made == NewFull(R300, LevelSE, category)
  {
  }

  /** Approving the record with key `k`: the record as loaded is the
      snapshot, the same record with `approved` set is saved. */
  function Approve(t: Table, k: nat): Table {
    if k in t.rows then SaveSpec(t, TestDb, Some(k), t.rows[k], t.rows[k].(approved := true)) else t
  }

  /** The rows whose record has no end date. */
  function ActiveKeys(t: Table): set<nat> {
    set k | k in t.rows && t.rows[k].dateEnd.None?
  }

  /** Approving an unapproved row overwrites it and cascades from it. */
  lemma ApproveCascades(t: Table, k: nat)
    requires k in t.rows && k < t.nextId && !t.rows[k].approved
    ensures var w := t.rows[k].(approved := true);
      Approve(t, k) == Cascade(Table(t.rows[k := w], t.nextId), TestDb, w)
  {
    RecordProperties.SaveApproving(t, TestDb, Some(k), t.rows[k], t.rows[k].(approved := true));
  }

  // ---------------------------------------------------------------------
  // Approved 200 records
  // ---------------------------------------------------------------------

  function Checked1(): Table {
    Table(map[0 := Candidate(1, CatW20, true), 1 := Candidate(1, CatW, true),
              2 := Candidate(2, CatW, false), 3 := Candidate(2, CatW50, false)], 4)
  }

  function Approved1W(): Table {
    Table(map[0 := Candidate(1, CatW20, true), 1 := Candidate(1, CatW, true).(dateEnd := Some(Day)),
              2 := Candidate(2, CatW, true), 3 := Candidate(2, CatW50, false)], 4)
  }

  function Approved1Both(): Table {
    Table(map[0 := Candidate(1, CatW20, true), 1 := Candidate(1, CatW, true).(dateEnd := Some(Day)),
              2 := Candidate(2, CatW, true), 3 := Candidate(2, CatW50, true)], 4)
  }

  /** The rows after the first category of the check. */
  function Mid1(): Table {
    Table(map[0 := Candidate(1, CatW20, true), 1 := Candidate(1, CatW, true), 2 := Candidate(2, CatW, false)], 3)
  }

  /** Category W: nothing blocks, the approved W record is not pruned. */
  lemma FirstSlotApproved()
    ensures CheckSlot(Before(true), FullRule(TestDb, R300, false, false)(LevelSE, CatW)) == Mid1()
  {
    var t0 := Before(true);
    var s1 := FullRule(TestDb, R300, false, false)(LevelSE, CatW);
    Rule300(CatW, t0.rows[0]);
    Rule300(CatW, t0.rows[1]);
    assert ValueOf(TestDb, t0.rows[1]) == Some(200 * Scale);
    assert !s1.blocks(t0.rows[0]) && !s1.blocks(t0.rows[1]);
    assert Found(t0, s1.create.key) == {};
    var i := Insert(t0, s1.create.made);
    assert i.rows.Keys == {0, 1, 2};
    Rule300(CatW, i.rows[2]);
    assert !s1.create.lower(i.rows[0]) && !s1.create.lower(i.rows[1]) && !s1.create.lower(i.rows[2]);
    assert DeleteWhere(i, s1.create.lower) == Mid1();
  }

  /** Category W50: nothing blocks or is pruned. */
  lemma SecondSlotApproved()
    ensures CheckSlot(Mid1(), FullRule(TestDb, R300, false, false)(LevelSE, CatW50)) == Checked1()
  {
    var a := Mid1();
    var s2 := FullRule(TestDb, R300, false, false)(LevelSE, CatW50);
    Rule300(CatW50, a.rows[0]);
    Rule300(CatW50, a.rows[1]);
    Rule300(CatW50, a.rows[2]);
    assert !s2.blocks(a.rows[0]) && !s2.blocks(a.rows[1]) && !s2.blocks(a.rows[2]);
    assert Found(a, s2.create.key) == {};
    var i := Insert(a, s2.create.made);
    assert i.rows.Keys == {0, 1, 2, 3};
    Rule300(CatW50, i.rows[3]);
    assert !s2.create.lower(i.rows[0]) && !s2.create.lower(i.rows[1]);
    assert !s2.create.lower(i.rows[2]) && !s2.create.lower(i.rows[3]);
    assert DeleteWhere(i, s2.create.lower) == Checked1();
  }

  /** With the 200 records approved, the 300 result adds two unapproved
      records: 4 rows, 2 of them unapproved. */
  lemma CheckWithApprovedRecords()
    ensures CheckOf300(Before(true)) == Checked1()
  {
    CheckOf300Unrolled(Before(true));
    FirstSlotApproved();
    SecondSlotApproved();
  }

  /** Approving the W record of the 300 result ends the approved W record
      of the 200 result on the 300 result's date. */
  lemma ApproveWEndsLower()
    ensures Approve(Checked1(), 2) == Approved1W()
  {
    var t := Checked1();
    ApproveCascades(t, 2);
    var w := t.rows[2].(approved := true);
    var p := Table(t.rows[2 := w], 4);
    var t2 := Cascade(p, TestDb, w);
    RecordProperties.CascadeClearsLower(p, TestDb, w);
    RecordProperties.CascadeEffect(p, TestDb, w, 0);
    RecordProperties.CascadeEffect(p, TestDb, w, 1);
    RecordProperties.CascadeEffect(p, TestDb, w, 2);
    RecordProperties.CascadeEffect(p, TestDb, w, 3);
    assert Superseded(TestDb, p.rows[1], w);
    assert !Superseded(TestDb, p.rows[0], w) && !Superseded(TestDb, p.rows[2], w) && !Superseded(TestDb, p.rows[3], w);
    assert t2.rows.Keys == {0, 1, 2, 3};
  }

  /** Approving the W50 record supersedes nothing: no other record is in
      category W50. */
  lemma ApproveW50Alone()
    ensures Approve(Approved1W(), 3) == Approved1Both()
  {
    var t := Approved1W();
    ApproveCascades(t, 3);
    var w := t.rows[3].(approved := true);
    var p := Table(t.rows[3 := w], 4);
    var t2 := Cascade(p, TestDb, w);
    RecordProperties.CascadeClearsLower(p, TestDb, w);
    RecordProperties.CascadeEffect(p, TestDb, w, 0);
    RecordProperties.CascadeEffect(p, TestDb, w, 1);
    RecordProperties.CascadeEffect(p, TestDb, w, 2);
    RecordProperties.CascadeEffect(p, TestDb, w, 3);
    assert !Superseded(TestDb, p.rows[0], w) && !Superseded(TestDb, p.rows[1], w);
    assert !Superseded(TestDb, p.rows[2], w) && !Superseded(TestDb, p.rows[3], w);
    assert t2.rows.Keys == {0, 1, 2, 3};
  }

  lemma Checked1Unapproved()
    ensures Checked1().rows.Keys == {0, 1, 2, 3}
    ensures (set k | k in Checked1().rows && !Checked1().rows[k].approved) == {2, 3}
  {
  }

  lemma Approved1BothActive()
    ensures Approved1Both().rows.Keys == {0, 1, 2, 3}
    ensures ActiveKeys(Approved1Both()) == {0, 2, 3}
  {
  }

  /** The first scenario: 4 rows after the check, 2 of them unapproved;
      after approving both, 4 rows of which 3 are active. */
  lemma ApprovalEndsLowerRecord()
    ensures var t1 := CheckOf300(Before(true));
      && t1.rows.Keys == {0, 1, 2, 3}
      && (set k | k in t1.rows && !t1.rows[k].approved) == {2, 3}
      && var t3 := Approve(Approve(t1, 2), 3);
         t3.rows.Keys == {0, 1, 2, 3} && ActiveKeys(t3) == {0, 2, 3}
  {
    CheckWithApprovedRecords();
    ApproveWEndsLower();
    ApproveW50Alone();
    Checked1Unapproved();
    Approved1BothActive();
  }

  // ---------------------------------------------------------------------
  // Unapproved 200 records
  // ---------------------------------------------------------------------

  function Checked2(): Table {
    Table(map[0 := Candidate(1, CatW20, false), 2 := Candidate(2, CatW, false), 3 := Candidate(2, CatW50, false)], 4)
  }

  function Approved2W(): Table {
    Table(map[0 := Candidate(1, CatW20, false), 2 := Candidate(2, CatW, true), 3 := Candidate(2, CatW50, false)], 4)
  }

  function Approved2Both(): Table {
    Table(map[0 := Candidate(1, CatW20, false), 2 := Candidate(2, CatW, true), 3 := Candidate(2, CatW50, true)], 4)
  }

  /** The rows after the first category of the check. */
  function Mid2(): Table {
    Table(map[0 := Candidate(1, CatW20, false), 2 := Candidate(2, CatW, false)], 3)
  }

  /** Category W: nothing blocks, and the new W record prunes the lower
      unapproved W record of the 200 result. */
  lemma FirstSlotUnapproved()
    ensures CheckSlot(Before(false), FullRule(TestDb, R300, false, false)(LevelSE, CatW)) == Mid2()
  {
    var t0 := Before(false);
    var s1 := FullRule(TestDb, R300, false, false)(LevelSE, CatW);
    Rule300(CatW, t0.rows[0]);
    Rule300(CatW, t0.rows[1]);
    assert ValueOf(TestDb, t0.rows[1]) == Some(200 * Scale);
    assert !s1.blocks(t0.rows[0]) && !s1.blocks(t0.rows[1]);
    assert Found(t0, s1.create.key) == {};
    var i := Insert(t0, s1.create.made);
    assert i.rows.Keys == {0, 1, 2};
    Rule300(CatW, i.rows[2]);
    assert !s1.create.lower(i.rows[0]) && s1.create.lower(i.rows[1]) && !s1.create.lower(i.rows[2]);
    assert DeleteWhere(i, s1.create.lower) == Mid2();
  }

  /** Category W50: nothing blocks or is pruned. */
  lemma SecondSlotUnapproved()
    ensures CheckSlot(Mid2(), FullRule(TestDb, R300, false, false)(LevelSE, CatW50)) == Checked2()
  {
    var a := Mid2();
    var s2 := FullRule(TestDb, R300, false, false)(LevelSE, CatW50);
    assert a.rows.Keys == {0, 2};
    Rule300(CatW50, a.rows[0]);
    Rule300(CatW50, a.rows[2]);
    assert !s2.blocks(a.rows[0]) && !s2.blocks(a.rows[2]);
    assert Found(a, s2.create.key) == {};
    var i := Insert(a, s2.create.made);
    assert i.rows.Keys == {0, 2, 3};
    Rule300(CatW50, i.rows[3]);
    assert !s2.create.lower(i.rows[0]) && !s2.create.lower(i.rows[2]) && !s2.create.lower(i.rows[3]);
    assert DeleteWhere(i, s2.create.lower) == Checked2();
  }

  /** With the 200 records unapproved, the 300 result's W record prunes the
      lower unapproved W record: 3 rows. */
  lemma CheckWithUnapprovedRecords()
    ensures CheckOf300(Before(false)) == Checked2()
  {
    CheckOf300Unrolled(Before(false));
    FirstSlotUnapproved();
    SecondSlotUnapproved();
  }

  lemma ApproveWAfterPrune()
    ensures Approve(Checked2(), 2) == Approved2W()
  {
    var t := Checked2();
    ApproveCascades(t, 2);
    var w := t.rows[2].(approved := true);
    var p := Table(t.rows[2 := w], 4);
    var t2 := Cascade(p, TestDb, w);
    RecordProperties.CascadeClearsLower(p, TestDb, w);
    RecordProperties.CascadeEffect(p, TestDb, w, 0);
    RecordProperties.CascadeEffect(p, TestDb, w, 2);
    RecordProperties.CascadeEffect(p, TestDb, w, 3);
    assert !Superseded(TestDb, p.rows[0], w) && !Superseded(TestDb, p.rows[2], w) && !Superseded(TestDb, p.rows[3], w);
    assert t2.rows.Keys == {0, 2, 3};
  }

  lemma ApproveW50AfterPrune()
    ensures Approve(Approved2W(), 3) == Approved2Both()
  {
    var t := Approved2W();
    ApproveCascades(t, 3);
    var w := t.rows[3].(approved := true);
    var p := Table(t.rows[3 := w], 4);
    var t2 := Cascade(p, TestDb, w);
    RecordProperties.CascadeClearsLower(p, TestDb, w);
    RecordProperties.CascadeEffect(p, TestDb, w, 0);
    RecordProperties.CascadeEffect(p, TestDb, w, 2);
    RecordProperties.CascadeEffect(p, TestDb, w, 3);
    assert !Superseded(TestDb, p.rows[0], w) && !Superseded(TestDb, p.rows[2], w) && !Superseded(TestDb, p.rows[3], w);
    assert t2.rows.Keys == {0, 2, 3};
  }

  /** The second scenario: 3 rows after the check; after approving both
      300 records, 3 rows, all active. */
  lemma ApprovalAfterPrune()
    ensures var t1 := CheckOf300(Before(false));
      && t1.rows.Keys == {0, 2, 3}
      && var t3 := Approve(Approve(t1, 2), 3);
         t3.rows.Keys == {0, 2, 3} && ActiveKeys(t3) == {0, 2, 3}
  {
    CheckWithUnapprovedRecords();
    ApproveWAfterPrune();
    ApproveW50AfterPrune();
    Approved2BothActive();
  }

  lemma Approved2BothActive()
    ensures Checked2().rows.Keys == {0, 2, 3}
    ensures Approved2Both().rows.Keys == {0, 2, 3} && ActiveKeys(Approved2Both()) == {0, 2, 3}
  {
  }
}
