/** What the record engine guarantees: get-or-create never duplicates a
    record, checks only add unapproved candidates in eligible slots and
    never touch approved records, the tie-break modes, and the approval
    cascade. */
module RecordProperties {
  import opened Common
  import opened Domain
  import opened Eligibility
  import opened RecordEngine
  import ChangeLog

  // ---------------------------------------------------------------------
  // get_or_create
  // ---------------------------------------------------------------------

  /** A creation is sound when the row it makes is found by its own key and
      nothing its key finds is a lower candidate. */
  ghost predicate Sound(c: Creation) {
    c.key(c.made) && !c.lower(c.made) && forall rec :: c.key(rec) ==> !c.lower(rec)
  }

  lemma DeleteWhereIdempotent(t: Table, p: Record -> bool)
    ensures DeleteWhere(DeleteWhere(t, p), p) == DeleteWhere(t, p)
  {
    assert DeleteWhere(DeleteWhere(t, p), p).rows == DeleteWhere(t, p).rows;
  }

  /** Pruning keeps every row the key finds. */
  lemma FoundAfterPrune(t: Table, c: Creation)
    requires Sound(c)
    ensures Found(DeleteWhere(t, c.lower), c.key) == Found(t, c.key)
  {
  }

  /** Getting or creating twice is getting or creating once: the second call
      finds the row the first one made or kept, and its prune has nothing
      left to delete. */
  lemma {:induction false} GetOrCreateIdempotent(t: Table, c: Creation)
    requires Fresh(t) && Sound(c)
    ensures GetOrCreate(GetOrCreate(t, c), c) == GetOrCreate(t, c)
  {
    var found := Found(t, c.key);
    if |found| == 0 {
      var t1 := Insert(t, c.made);
      assert found == {};
      assert Found(t1, c.key) == {t.nextId};
      var t2 := DeleteWhere(t1, c.lower);
      FoundAfterPrune(t1, c);
      assert |Found(t2, c.key)| == 1;
      DeleteWhereIdempotent(t1, c.lower);
    } else if |found| == 1 {
      FoundAfterPrune(t, c);
      DeleteWhereIdempotent(t, c.lower);
    }
  }

  /** When the key found at most one row, exactly one row has it afterwards. */
  lemma {:induction false} GetOrCreateLeavesOne(t: Table, c: Creation)
    requires Fresh(t) && Sound(c)
    requires |Found(t, c.key)| <= 1
    ensures Fresh(GetOrCreate(t, c))
    ensures |Found(GetOrCreate(t, c), c.key)| == 1
  {
    var found := Found(t, c.key);
    if |found| == 0 {
      var t1 := Insert(t, c.made);
      assert found == {};
      assert Found(t1, c.key) == {t.nextId};
      assert GetOrCreate(t, c) == DeleteWhere(t1, c.lower);
      FoundAfterPrune(t1, c);
    } else {
      assert GetOrCreate(t, c) == DeleteWhere(t, c.lower);
      FoundAfterPrune(t, c);
    }
  }

  /** Checking the same slot twice changes nothing the second time. */
  lemma {:induction false} CheckSlotIdempotent(t: Table, s: Slot)
    requires Fresh(t) && Sound(s.create)
    ensures CheckSlot(CheckSlot(t, s), s) == CheckSlot(t, s)
  {
    if !(exists k :: k in t.rows && s.blocks(t.rows[k])) {
      GetOrCreateIdempotent(t, s.create);
    }
  }

  /** The result row as the database holds it after the save that triggers the check. */
  predicate SavedResult(db: Db, r: Result) {
    r.id in db.results && db.results[r.id].value == r.value
  }

  predicate SavedPartial(db: Db, p: ResultPartial) {
    p.id in db.partials && db.partials[p.id].value == p.value && db.partials[p.id].ptype == p.ptype
  }

  lemma FullCreationSound(db: Db, r: Result, level: nat, category: nat)
    requires SavedResult(db, r)
    ensures Sound(FullCreation(db, r, level, category))
  {
  }

  lemma PartialCreationSound(db: Db, p: ResultPartial, parent: Result, level: nat, category: nat)
    requires SavedPartial(db, p)
    ensures Sound(PartialCreation(db, p, parent, level, category))
  {
  }

  /** _create_record is get-or-create: repeating it adds no row, and a slot
      that held at most one matching record holds exactly one afterwards. */
  lemma CreateRecordIdempotent(t: Table, db: Db, r: Result, level: nat, category: nat)
    requires Fresh(t) && SavedResult(db, r)
    ensures var c := FullCreation(db, r, level, category);
      GetOrCreate(GetOrCreate(t, c), c) == GetOrCreate(t, c)
      && (|Found(t, c.key)| <= 1 ==> |Found(GetOrCreate(t, c), c.key)| == 1)
  {
    var c := FullCreation(db, r, level, category);
    FullCreationSound(db, r, level, category);
    GetOrCreateIdempotent(t, c);
    if |Found(t, c.key)| <= 1 {
      GetOrCreateLeavesOne(t, c);
    }
  }

  /** _create_record_partial, likewise. */
  lemma CreateRecordPartialIdempotent(t: Table, db: Db, p: ResultPartial, parent: Result, level: nat, category: nat)
    requires Fresh(t) && SavedPartial(db, p)
    ensures var c := PartialCreation(db, p, parent, level, category);
      GetOrCreate(GetOrCreate(t, c), c) == GetOrCreate(t, c)
      && (|Found(t, c.key)| <= 1 ==> |Found(GetOrCreate(t, c), c.key)| == 1)
  {
    var c := PartialCreation(db, p, parent, level, category);
    PartialCreationSound(db, p, parent, level, category);
    GetOrCreateIdempotent(t, c);
    if |Found(t, c.key)| <= 1 {
      GetOrCreateLeavesOne(t, c);
    }
  }

  /** The prune of `_create_record` deletes exactly the unapproved
      full-result candidates of the slot with a lower value dated on or
      after the result; every other row stays as it was. */
  lemma CreateRecordPrune(t: Table, db: Db, r: Result, level: nat, category: nat, k: nat)
    requires Fresh(t) && SavedResult(db, r)
    requires k in t.rows
    requires |Found(t, FullCreation(db, r, level, category).key)| <= 1
    ensures var t2 := GetOrCreate(t, FullCreation(db, r, level, category));
      (k in t2.rows <==> !LowerFull(db, t.rows[k], r, level, category))
      && (k in t2.rows ==> t2.rows[k] == t.rows[k])
  {
    var c := FullCreation(db, r, level, category);
    var t1 := if |Found(t, c.key)| == 0 then Insert(t, c.made) else t;
    assert GetOrCreate(t, c) == DeleteWhere(t1, c.lower);
    assert t1.rows[k] == t.rows[k];
  }

  // ---------------------------------------------------------------------
  // What a whole check may change
  // ---------------------------------------------------------------------

  /** Every prune of the rule deletes unapproved rows only. */
  ghost predicate PrunesUnapproved(rule: (nat, nat) -> Slot) {
    forall level: nat, category: nat, rec :: rule(level, category).create.lower(rec) ==> !rec.approved
  }

  /** `rec` is the record the rule creates for one of the given levels and categories. */
  ghost predicate MadeBy(rec: Record, rule: (nat, nat) -> Slot, levels: set<nat>, cats: set<nat>) {
    exists level, category :: level in levels && category in cats && rec == rule(level, category).create.made
  }

  /** `t2` arises from `t` by deleting unapproved rows and adding rows the
      rule makes: no row changes in place and no approved row disappears. */
  ghost predicate Evolves(t: Table, t2: Table, rule: (nat, nat) -> Slot, levels: set<nat>, cats: set<nat>) {
    && Fresh(t2)
    && t.nextId <= t2.nextId
    && (forall k :: k in t2.rows ==>
          (k in t.rows && t2.rows[k] == t.rows[k]) || (t.nextId <= k && MadeBy(t2.rows[k], rule, levels, cats)))
    && (forall k :: k in t.rows && t.rows[k].approved ==> k in t2.rows)
  }

  lemma EvolvesTransitive(t: Table, t1: Table, t2: Table, rule: (nat, nat) -> Slot, levels: set<nat>, cats: set<nat>)
    requires Fresh(t)
    requires Evolves(t, t1, rule, levels, cats) && Evolves(t1, t2, rule, levels, cats)
    ensures Evolves(t, t2, rule, levels, cats)
  {
  }

  lemma EvolvesReflexive(t: Table, rule: (nat, nat) -> Slot, levels: set<nat>, cats: set<nat>)
    requires Fresh(t)
    ensures Evolves(t, t, rule, levels, cats)
  {
  }

  lemma {:induction false} CheckSlotEvolves(t: Table, rule: (nat, nat) -> Slot, level: nat, category: nat,
                                            levels: set<nat>, cats: set<nat>)
    requires Fresh(t) && PrunesUnapproved(rule)
    requires level in levels && category in cats
    ensures Evolves(t, CheckSlot(t, rule(level, category)), rule, levels, cats)
  {
    var s := rule(level, category);
    var c := s.create;
    if !(exists k :: k in t.rows && s.blocks(t.rows[k])) {
      var found := Found(t, c.key);
      if |found| < 2 {
        var t1 := if |found| == 0 then Insert(t, c.made) else t;
        var t2 := DeleteWhere(t1, c.lower);
        assert t2 == CheckSlot(t, s);
        forall k | k in t.rows && t.rows[k].approved
          ensures k in t2.rows
        {
          assert t1.rows[k] == t.rows[k];
          assert !c.lower(t.rows[k]);
        }
        forall k | k in t2.rows
          ensures (k in t.rows && t2.rows[k] == t.rows[k]) || (t.nextId <= k && MadeBy(t2.rows[k], rule, levels, cats))
        {
          if k !in t.rows {
            assert t2.rows[k] == c.made == rule(level, category).create.made;
          }
        }
      }
    }
  }

  lemma {:induction false} CheckCategoriesEvolves(t: Table, rule: (nat, nat) -> Slot, level: nat, cs: seq<Category>,
                                                  levels: set<nat>, cats: set<nat>)
    requires Fresh(t) && PrunesUnapproved(rule)
    requires level in levels && forall c :: c in cs ==> c.id in cats
    ensures Evolves(t, CheckCategories(t, rule, level, cs), rule, levels, cats)
    decreases |cs|
  {
    if cs == [] {
      EvolvesReflexive(t, rule, levels, cats);
    } else {
      var t1 := CheckSlot(t, rule(level, cs[0].id));
      CheckSlotEvolves(t, rule, level, cs[0].id, levels, cats);
      assert forall c :: c in cs[1..] ==> c in cs;
      CheckCategoriesEvolves(t1, rule, level, cs[1..], levels, cats);
      EvolvesTransitive(t, t1, CheckCategories(t1, rule, level, cs[1..]), rule, levels, cats);
    }
  }

  lemma {:induction false} CheckLevelsEvolves(t: Table, rule: (nat, nat) -> Slot, ls: seq<RecordLevel>, cs: seq<Category>,
                                              levels: set<nat>, cats: set<nat>)
    requires Fresh(t) && PrunesUnapproved(rule)
    requires forall l :: l in ls ==> l.id in levels
    requires forall c :: c in cs ==> c.id in cats
    ensures Evolves(t, CheckLevels(t, rule, ls, cs), rule, levels, cats)
    decreases |ls|
  {
    if ls == [] {
      EvolvesReflexive(t, rule, levels, cats);
    } else {
      var t1 := CheckCategories(t, rule, ls[0].id, cs);
      CheckCategoriesEvolves(t, rule, ls[0].id, cs, levels, cats);
      assert forall l :: l in ls[1..] ==> l in ls;
      CheckLevelsEvolves(t1, rule, ls[1..], cs, levels, cats);
      EvolvesTransitive(t, t1, CheckLevels(t1, rule, ls[1..], cs), rule, levels, cats);
    }
  }

  function Ids(ls: seq<RecordLevel>): set<nat> {
    set l | l in ls :: l.id
  }

  function CategoryIds(cs: seq<Category>): set<nat> {
    set c | c in cs :: c.id
  }

  /** A check is a deletion followed by an evolution: approved rows
      survive unchanged, surviving old rows are unchanged and were not
      deleted, and new rows are made by the rule. */
  lemma {:induction false} ClearThenEvolve(t: Table, p: Record -> bool, t2: Table, rule: (nat, nat) -> Slot,
                                           levels: set<nat>, cats: set<nat>)
    requires Fresh(t)
    requires forall rec :: p(rec) ==> !rec.approved
    requires Evolves(DeleteWhere(t, p), t2, rule, levels, cats)
    ensures Fresh(t2)
    ensures forall k :: k in t.rows && t.rows[k].approved ==> k in t2.rows && t2.rows[k] == t.rows[k]
    ensures forall k :: k in t2.rows && k in t.rows ==> t2.rows[k] == t.rows[k] && !p(t.rows[k])
    ensures forall k :: k in t2.rows && k !in t.rows ==> MadeBy(t2.rows[k], rule, levels, cats)
  {
    var cleared := DeleteWhere(t, p);
    forall k | k in t.rows && t.rows[k].approved
      ensures k in t2.rows && t2.rows[k] == t.rows[k]
    {
      assert k in cleared.rows;
    }
    forall k | k in t2.rows && k in t.rows
      ensures t2.rows[k] == t.rows[k] && !p(t.rows[k])
    {
      assert k < cleared.nextId;
    }
  }

  lemma FullRuleFacts(db: Db, r: Result, sameValue: bool, team: bool)
    ensures PrunesUnapproved(FullRule(db, r, sameValue, team))
    ensures forall level: nat, category: nat ::
      FullRule(db, r, sameValue, team)(level, category).create.made == NewFull(r, level, category)
  {
  }

  lemma PartialRuleFacts(db: Db, p: ResultPartial, parent: Result, sameValue: bool)
    ensures PrunesUnapproved(PartialRule(db, p, parent, sameValue))
    ensures forall level: nat, category: nat ::
      PartialRule(db, p, parent, sameValue)(level, category).create.made == NewPartial(p, parent, level, category)
  {
  }

  // ---------------------------------------------------------------------
  // Blocking across a whole check
  // ---------------------------------------------------------------------

  /** The rule makes, for each slot, a record of that slot that the slot's
      own key finds, and only records of a slot block it. */
  ghost predicate Shaped(rule: (nat, nat) -> Slot) {
    && (forall level: nat, category: nat ::
          rule(level, category).create.made.level == level
          && rule(level, category).create.made.category == category
          && rule(level, category).create.key(rule(level, category).create.made))
    && (forall level: nat, category: nat, rec :: rule(level, category).blocks(rec) ==>
          rec.level == level && rec.category == category)
  }

  /** No prune of the rule deletes a record that blocks some slot. */
  ghost predicate BlockersSurvive(rule: (nat, nat) -> Slot) {
    forall level: nat, category: nat, level2: nat, category2: nat, rec ::
      rule(level, category).blocks(rec) ==> !rule(level2, category2).create.lower(rec)
  }

  /** No prune of the rule deletes a record that some slot's key finds. */
  ghost predicate KeysSurvive(rule: (nat, nat) -> Slot) {
    forall level: nat, category: nat, level2: nat, category2: nat, rec ::
      rule(level, category).create.key(rec) ==> !rule(level2, category2).create.lower(rec)
  }

  /** Since `base`: every row of `base` that blocks some slot is still
      there unchanged, and no row added since has a row of `base` blocking
      its own slot. */
  ghost predicate UnblockedSince(base: Table, t: Table, rule: (nat, nat) -> Slot) {
    && Fresh(t) && base.nextId <= t.nextId
    && (forall j, level: nat, category: nat :: j in base.rows && rule(level, category).blocks(base.rows[j]) ==>
          j in t.rows && t.rows[j] == base.rows[j])
    && (forall k :: k in t.rows && base.nextId <= k ==>
          forall j :: j in base.rows ==> !rule(t.rows[k].level, t.rows[k].category).blocks(base.rows[j]))
  }

  lemma CheckSlotUnblocked(base: Table, t: Table, rule: (nat, nat) -> Slot, level: nat, category: nat)
    requires Fresh(base) && Shaped(rule) && BlockersSurvive(rule)
    requires UnblockedSince(base, t, rule)
    ensures UnblockedSince(base, CheckSlot(t, rule(level, category)), rule)
  {
    var s := rule(level, category);
    var c := s.create;
    if !(exists k :: k in t.rows && s.blocks(t.rows[k])) {
      var found := Found(t, c.key);
      if |found| < 2 {
        var t1 := if |found| == 0 then Insert(t, c.made) else t;
        var t2 := DeleteWhere(t1, c.lower);
        assert t2 == CheckSlot(t, s);
        forall k | k in t2.rows && base.nextId <= k
          ensures forall j :: j in base.rows ==> !rule(t2.rows[k].level, t2.rows[k].category).blocks(base.rows[j])
        {
          if k !in t.rows {
            assert t2.rows[k] == c.made;
          }
        }
      }
    }
  }

  lemma {:induction false} CheckCategoriesUnblocked(base: Table, t: Table, rule: (nat, nat) -> Slot, level: nat,
                                                    cs: seq<Category>)
    requires Fresh(base) && Shaped(rule) && BlockersSurvive(rule)
    requires UnblockedSince(base, t, rule)
    ensures UnblockedSince(base, CheckCategories(t, rule, level, cs), rule)
    decreases |cs|
  {
    if cs != [] {
      CheckSlotUnblocked(base, t, rule, level, cs[0].id);
      CheckCategoriesUnblocked(base, CheckSlot(t, rule(level, cs[0].id)), rule, level, cs[1..]);
    }
  }

  lemma {:induction false} CheckLevelsUnblocked(base: Table, t: Table, rule: (nat, nat) -> Slot,
                                                ls: seq<RecordLevel>, cs: seq<Category>)
    requires Fresh(base) && Shaped(rule) && BlockersSurvive(rule)
    requires UnblockedSince(base, t, rule)
    ensures UnblockedSince(base, CheckLevels(t, rule, ls, cs), rule)
    decreases |ls|
  {
    if ls != [] {
      CheckCategoriesUnblocked(base, t, rule, ls[0].id, cs);
      CheckLevelsUnblocked(base, CheckCategories(t, rule, ls[0].id, cs), rule, ls[1..], cs);
    }
  }

  /** Some row has the key of slot (level, category). */
  ghost predicate HasKey(t: Table, rule: (nat, nat) -> Slot, level: nat, category: nat) {
    exists k :: k in t.rows && rule(level, category).create.key(t.rows[k])
  }

  /** The slot (level, category) either has its row already or nothing
      blocks it. */
  ghost predicate Reaches(t: Table, rule: (nat, nat) -> Slot, level: nat, category: nat) {
    && Fresh(t)
    && (HasKey(t, rule, level, category)
        || forall k :: k in t.rows ==> !rule(level, category).blocks(t.rows[k]))
  }

  /** Checking any slot keeps an unblocked slot unblocked (a row made for
      another slot does not block it) and keeps a row with its key; checking
      the slot itself gives it a row with its key. */
  lemma CheckSlotReaches(t: Table, rule: (nat, nat) -> Slot, l: nat, c: nat, level: nat, category: nat)
    requires Shaped(rule) && KeysSurvive(rule) && Reaches(t, rule, level, category)
    ensures Reaches(CheckSlot(t, rule(l, c)), rule, level, category)
    ensures HasKey(t, rule, level, category) ==> HasKey(CheckSlot(t, rule(l, c)), rule, level, category)
    ensures l == level && c == category ==> HasKey(CheckSlot(t, rule(l, c)), rule, level, category)
  {
    var s := rule(l, c);
    var cr := s.create;
    var target := rule(level, category);
    if !(exists k :: k in t.rows && s.blocks(t.rows[k])) {
      var found := Found(t, cr.key);
      if |found| < 2 {
        var t1 := if |found| == 0 then Insert(t, cr.made) else t;
        var t2 := DeleteWhere(t1, cr.lower);
        assert t2 == CheckSlot(t, s);
        if HasKey(t, rule, level, category) {
          var k :| k in t.rows && target.create.key(t.rows[k]);
          assert t1.rows[k] == t.rows[k];
          assert k in t2.rows;
        }
        if l == level && c == category {
          if |found| == 0 {
            assert t.nextId in t2.rows;
          } else {
            var k :| k in found;
            assert t1.rows[k] == t.rows[k];
            assert k in t2.rows;
          }
        }
      } else if l == level && c == category {
        var k :| k in found;
      }
    } else if l == level && c == category {
      var k :| k in t.rows && s.blocks(t.rows[k]);
    }
  }

  lemma {:induction false} CheckCategoriesReaches(t: Table, rule: (nat, nat) -> Slot, l: nat, cs: seq<Category>,
                                                  level: nat, category: nat)
    requires Shaped(rule) && KeysSurvive(rule) && Reaches(t, rule, level, category)
    ensures Reaches(CheckCategories(t, rule, l, cs), rule, level, category)
    ensures HasKey(t, rule, level, category) ==> HasKey(CheckCategories(t, rule, l, cs), rule, level, category)
    ensures l == level && category in CategoryIds(cs) ==> HasKey(CheckCategories(t, rule, l, cs), rule, level, category)
    decreases |cs|
  {
    if cs != [] {
      var t1 := CheckSlot(t, rule(l, cs[0].id));
      CheckSlotReaches(t, rule, l, cs[0].id, level, category);
      CheckCategoriesReaches(t1, rule, l, cs[1..], level, category);
      if category in CategoryIds(cs) && category != cs[0].id {
        var x :| x in cs && x.id == category;
        assert x in cs[1..];
      }
    }
  }

  lemma {:induction false} CheckLevelsReaches(t: Table, rule: (nat, nat) -> Slot, ls: seq<RecordLevel>,
                                              cs: seq<Category>, level: nat, category: nat)
    requires Shaped(rule) && KeysSurvive(rule) && Reaches(t, rule, level, category)
    ensures Reaches(CheckLevels(t, rule, ls, cs), rule, level, category)
    ensures level in Ids(ls) && category in CategoryIds(cs) ==> HasKey(CheckLevels(t, rule, ls, cs), rule, level, category)
    decreases |ls|
  {
    if ls != [] {
      var t1 := CheckCategories(t, rule, ls[0].id, cs);
      CheckCategoriesReaches(t, rule, ls[0].id, cs, level, category);
      CheckLevelsReaches(t1, rule, ls[1..], cs, level, category);
      if level in Ids(ls) && level != ls[0].id {
        var x :| x in ls && x.id == level;
        assert x in ls[1..];
      }
      if level == ls[0].id && category in CategoryIds(cs) {
        CheckLevelsKeeps(t1, rule, ls[1..], cs, level, category);
      }
    }
  }

  /** A row with a slot's key survives the remaining slots. */
  lemma {:induction false} CheckLevelsKeeps(t: Table, rule: (nat, nat) -> Slot, ls: seq<RecordLevel>,
                                            cs: seq<Category>, level: nat, category: nat)
    requires Shaped(rule) && KeysSurvive(rule) && Reaches(t, rule, level, category)
    requires HasKey(t, rule, level, category)
    ensures HasKey(CheckLevels(t, rule, ls, cs), rule, level, category)
    decreases |ls|
  {
    if ls != [] {
      CheckCategoriesReaches(t, rule, ls[0].id, cs, level, category);
      CheckLevelsKeeps(CheckCategories(t, rule, ls[0].id, cs), rule, ls[1..], cs, level, category);
    }
  }

  /** The full-result rule makes a record of its slot that its key finds;
      a blocking record has a value at least the result's, so no prune
      (strictly lower values only) deletes it; and a record of the result
      itself has the result's value, so no prune deletes it either. */
  lemma FullRuleShape(db: Db, r: Result, sameValue: bool, team: bool)
    ensures Shaped(FullRule(db, r, sameValue, team))
    ensures BlockersSurvive(FullRule(db, r, sameValue, team))
    ensures SavedResult(db, r) ==> KeysSurvive(FullRule(db, r, sameValue, team))
  {
    var rule := FullRule(db, r, sameValue, team);
    FullBlockers(db, r, sameValue, team);
    forall level: nat, category: nat, rec | rule(level, category).blocks(rec)
      ensures forall level2: nat, category2: nat :: !rule(level2, category2).create.lower(rec)
    {
      assert OptLe(r.value, ValueOf(db, rec));
    }
  }

  /** A record that blocks a full-result slot is of that slot and has a
      value at least the result's. */
  lemma FullBlockers(db: Db, r: Result, sameValue: bool, team: bool)
    ensures forall level: nat, category: nat, rec :: FullRule(db, r, sameValue, team)(level, category).blocks(rec) ==>
      rec.level == level && rec.category == category && OptLe(r.value, ValueOf(db, rec))
  {
    forall level: nat, category: nat, rec | FullRule(db, r, sameValue, team)(level, category).blocks(rec)
      ensures rec.level == level && rec.category == category && OptLe(r.value, ValueOf(db, rec))
    {
      assert BlocksFull(db, rec, r, level, category, sameValue, team);
    }
  }

  /** The partial rule, likewise. */
  lemma PartialRuleShape(db: Db, p: ResultPartial, parent: Result, sameValue: bool)
    ensures Shaped(PartialRule(db, p, parent, sameValue))
    ensures BlockersSurvive(PartialRule(db, p, parent, sameValue))
    ensures SavedPartial(db, p) ==> KeysSurvive(PartialRule(db, p, parent, sameValue))
  {
    PartialBlockers(db, p, parent, sameValue);
    PartialBlockersSurvive(db, p, parent, sameValue);
    PartialKeysSurvive(db, p, parent, sameValue);
  }

  lemma PartialBlockersSurvive(db: Db, p: ResultPartial, parent: Result, sameValue: bool)
    ensures BlockersSurvive(PartialRule(db, p, parent, sameValue))
  {
    var rule := PartialRule(db, p, parent, sameValue);
    PartialBlockers(db, p, parent, sameValue);
    forall level: nat, category: nat, rec | rule(level, category).blocks(rec)
      ensures forall level2: nat, category2: nat :: !rule(level2, category2).create.lower(rec)
    {
      assert OptLe(p.value, PartialValueOf(db, rec));
    }
  }

  lemma PartialKeysSurvive(db: Db, p: ResultPartial, parent: Result, sameValue: bool)
    ensures SavedPartial(db, p) ==> KeysSurvive(PartialRule(db, p, parent, sameValue))
  {
  }

  /** A record that blocks a partial slot is of that slot and has a value
      at least the partial's. */
  lemma PartialBlockers(db: Db, p: ResultPartial, parent: Result, sameValue: bool)
    ensures forall level: nat, category: nat, rec :: PartialRule(db, p, parent, sameValue)(level, category).blocks(rec) ==>
      rec.level == level && rec.category == category && OptLe(p.value, PartialValueOf(db, rec))
  {
    forall level: nat, category: nat, rec | PartialRule(db, p, parent, sameValue)(level, category).blocks(rec)
      ensures rec.level == level && rec.category == category && OptLe(p.value, PartialValueOf(db, rec))
    {
      assert BlocksPartial(db, rec, p, parent, level, category, sameValue);
    }
  }

  /** No row of `base` blocks `r` in slot (level, category). */
  predicate UnblockedFull(db: Db, base: Table, r: Result, level: nat, category: nat, sameValue: bool) {
    forall j :: j in base.rows ==> !BlocksFull(db, base.rows[j], r, level, category, sameValue, r.team)
  }

  /** No row of `base` blocks partial `p` in slot (level, category). */
  predicate UnblockedPartial(db: Db, base: Table, p: ResultPartial, parent: Result, level: nat, category: nat,
                             sameValue: bool) {
    forall j :: j in base.rows ==> !BlocksPartial(db, base.rows[j], p, parent, level, category, sameValue)
  }

  /** No row left after check_records' deletion blocks the slot of a row
      the check adds. */
  lemma FullNewRowsUnblocked(t: Table, db: Db, r: Result, cfg: Config)
    requires Fresh(t) && QualifiesFull(r)
    ensures var cleared := DeleteWhere(t, UnapprovedFullOf(r));
      var t2 := CheckRecordsSpec(t, db, r, cfg);
      forall k :: k in t2.rows && cleared.nextId <= k ==>
        UnblockedFull(db, cleared, r, t2.rows[k].level, t2.rows[k].category, cfg.sameValue)
  {
    var cleared := DeleteWhere(t, UnapprovedFullOf(r));
    var rule := FullRule(db, r, cfg.sameValue, r.team);
    var ls := FullLevels(cfg.levels, r, r.team);
    var cs := Categories(r, None, cfg.checks, cfg.categories);
    assert CheckRecordsSpec(t, db, r, cfg) == CheckLevels(cleared, rule, ls, cs);
    FullRuleShape(db, r, cfg.sameValue, r.team);
    CheckLevelsUnblocked(cleared, cleared, rule, ls, cs);
  }

  /** The same for check_records_partial. */
  lemma PartialNewRowsUnblocked(t: Table, db: Db, p: ResultPartial, parent: Result, cfg: Config)
    requires Fresh(t) && QualifiesPartial(p, parent)
    ensures var cleared := DeleteWhere(t, UnapprovedPartialOf(db, p));
      var t2 := CheckRecordsPartialSpec(t, db, p, parent, cfg);
      forall k :: k in t2.rows && cleared.nextId <= k ==>
        UnblockedPartial(db, cleared, p, parent, t2.rows[k].level, t2.rows[k].category, cfg.sameValue)
  {
    var cleared := DeleteWhere(t, UnapprovedPartialOf(db, p));
    var rule := PartialRule(db, p, parent, cfg.sameValue);
    var ls := PartialLevels(cfg.levels, parent);
    var cs := Categories(parent, Some(p), cfg.checks, cfg.categories);
    assert CheckRecordsPartialSpec(t, db, p, parent, cfg) == CheckLevels(cleared, rule, ls, cs);
    PartialRuleShape(db, p, parent, cfg.sameValue);
    CheckLevelsUnblocked(cleared, cleared, rule, ls, cs);
  }

  /** A candidate check_records may create: an unapproved, active
      full-result record of `r`, dated on its competition's start, in one
      of the matching record levels and one of the allowed categories. */
  predicate FullCandidate(rec: Record, r: Result, cfg: Config) {
    && rec.result == r.id && rec.partialResult.None?
    && !rec.approved && Active(rec)
    && rec.rtype == r.competition.ctype.id
    && rec.dateStart == r.competition.dateStart
    && rec.level in Ids(FullLevels(cfg.levels, r, r.team))
    && rec.category in CategoryIds(Categories(r, None, cfg.checks, cfg.categories))
  }

  /** A record the full rule makes for a matching level and an allowed
      category is a candidate. */
  lemma MadeFullIsCandidate(db: Db, r: Result, cfg: Config, rec: Record)
    requires MadeBy(rec, FullRule(db, r, cfg.sameValue, r.team), Ids(FullLevels(cfg.levels, r, r.team)),
                    CategoryIds(Categories(r, None, cfg.checks, cfg.categories)))
    ensures FullCandidate(rec, r, cfg)
  {
    var level, category :| level in Ids(FullLevels(cfg.levels, r, r.team))
      && category in CategoryIds(Categories(r, None, cfg.checks, cfg.categories))
      && rec == FullRule(db, r, cfg.sameValue, r.team)(level, category).create.made;
    assert rec == NewFull(r, level, category);
  }

  /** check_records never touches an approved record and never changes a
      row in place; it deletes all of the result's earlier unapproved
      full-result records, and every row it adds is a candidate of the
      result that no remaining row blocked in its slot. A result that does
      not qualify (value 0 or NULL, no organisation, external organisation)
      adds nothing. */
  lemma CheckRecordsFrame(t: Table, db: Db, r: Result, cfg: Config)
    requires Fresh(t)
    ensures var t2 := CheckRecordsSpec(t, db, r, cfg);
      && Fresh(t2)
      && (forall k :: k in t.rows && t.rows[k].approved ==> k in t2.rows && t2.rows[k] == t.rows[k])
      && (forall k :: k in t2.rows && k in t.rows ==>
            t2.rows[k] == t.rows[k] && !(t.rows[k].result == r.id && t.rows[k].partialResult.None? && !t.rows[k].approved))
      && (forall k :: k in t2.rows && k !in t.rows ==> QualifiesFull(r) && FullCandidate(t2.rows[k], r, cfg))
      && (forall k :: k in t2.rows && k !in t.rows ==>
            UnblockedFull(db, DeleteWhere(t, UnapprovedFullOf(r)), r, t2.rows[k].level, t2.rows[k].category, cfg.sameValue))
  {
    var p := UnapprovedFullOf(r);
    var cleared := DeleteWhere(t, p);
    var t2 := CheckRecordsSpec(t, db, r, cfg);
    var rule := FullRule(db, r, cfg.sameValue, r.team);
    var ls := FullLevels(cfg.levels, r, r.team);
    var cs := Categories(r, None, cfg.checks, cfg.categories);
    FullRuleFacts(db, r, cfg.sameValue, r.team);
    if QualifiesFull(r) {
      assert t2 == CheckLevels(cleared, rule, ls, cs);
      CheckLevelsEvolves(cleared, rule, ls, cs, Ids(ls), CategoryIds(cs));
      ClearThenEvolve(t, p, t2, rule, Ids(ls), CategoryIds(cs));
      forall k | k in t2.rows && k !in t.rows
        ensures FullCandidate(t2.rows[k], r, cfg)
      {
        MadeFullIsCandidate(db, r, cfg, t2.rows[k]);
      }
      FullNewRowsUnblocked(t, db, r, cfg);
      forall k | k in t2.rows && k !in t.rows
        ensures UnblockedFull(db, cleared, r, t2.rows[k].level, t2.rows[k].category, cfg.sameValue)
      {
        assert cleared.nextId <= k;
      }
    } else {
      assert t2 == cleared;
      EvolvesReflexive(cleared, rule, Ids(ls), CategoryIds(cs));
      ClearThenEvolve(t, p, t2, rule, Ids(ls), CategoryIds(cs));
      assert forall k :: k in t2.rows ==> k in t.rows;
    }
  }

  /** A candidate check_records_partial may create. */
  predicate PartialCandidate(rec: Record, p: ResultPartial, parent: Result, cfg: Config) {
    && rec.result == parent.id && rec.partialResult == Some(p.id)
    && !rec.approved && Active(rec)
    && rec.rtype == parent.competition.ctype.id
    && rec.dateStart == parent.competition.dateStart
    && rec.level in Ids(PartialLevels(cfg.levels, parent))
    && rec.category in CategoryIds(Categories(parent, Some(p), cfg.checks, cfg.categories))
  }

  /** A record the partial rule makes for a matching level and an allowed
      category is a candidate. */
  lemma MadePartialIsCandidate(db: Db, p: ResultPartial, parent: Result, cfg: Config, rec: Record)
    requires MadeBy(rec, PartialRule(db, p, parent, cfg.sameValue), Ids(PartialLevels(cfg.levels, parent)),
                    CategoryIds(Categories(parent, Some(p), cfg.checks, cfg.categories)))
    ensures PartialCandidate(rec, p, parent, cfg)
  {
    var level, category :| level in Ids(PartialLevels(cfg.levels, parent))
      && category in CategoryIds(Categories(parent, Some(p), cfg.checks, cfg.categories))
      && rec == PartialRule(db, p, parent, cfg.sameValue)(level, category).create.made;
    assert rec == NewPartial(p, parent, level, category);
  }

  /** check_records_partial, likewise. */
  lemma CheckRecordsPartialFrame(t: Table, db: Db, p: ResultPartial, parent: Result, cfg: Config)
    requires Fresh(t)
    ensures var t2 := CheckRecordsPartialSpec(t, db, p, parent, cfg);
      && Fresh(t2)
      && (forall k :: k in t.rows && t.rows[k].approved ==> k in t2.rows && t2.rows[k] == t.rows[k])
      && (forall k :: k in t2.rows && k in t.rows ==>
            t2.rows[k] == t.rows[k] && !UnapprovedPartialOf(db, p)(t.rows[k]))
      && (forall k :: k in t2.rows && k !in t.rows ==> QualifiesPartial(p, parent) && PartialCandidate(t2.rows[k], p, parent, cfg))
      && (forall k :: k in t2.rows && k !in t.rows ==>
            UnblockedPartial(db, DeleteWhere(t, UnapprovedPartialOf(db, p)), p, parent,
                             t2.rows[k].level, t2.rows[k].category, cfg.sameValue))
  {
    var del := UnapprovedPartialOf(db, p);
    var cleared := DeleteWhere(t, del);
    var t2 := CheckRecordsPartialSpec(t, db, p, parent, cfg);
    var rule := PartialRule(db, p, parent, cfg.sameValue);
    var ls := PartialLevels(cfg.levels, parent);
    var cs := Categories(parent, Some(p), cfg.checks, cfg.categories);
    PartialRuleFacts(db, p, parent, cfg.sameValue);
    if QualifiesPartial(p, parent) {
      assert t2 == CheckLevels(cleared, rule, ls, cs);
      CheckLevelsEvolves(cleared, rule, ls, cs, Ids(ls), CategoryIds(cs));
      ClearThenEvolve(t, del, t2, rule, Ids(ls), CategoryIds(cs));
      forall k | k in t2.rows && k !in t.rows
        ensures PartialCandidate(t2.rows[k], p, parent, cfg)
      {
        MadePartialIsCandidate(db, p, parent, cfg, t2.rows[k]);
      }
      PartialNewRowsUnblocked(t, db, p, parent, cfg);
      forall k | k in t2.rows && k !in t.rows
        ensures UnblockedPartial(db, cleared, p, parent, t2.rows[k].level, t2.rows[k].category, cfg.sameValue)
      {
        assert cleared.nextId <= k;
      }
    } else {
      assert t2 == cleared;
      EvolvesReflexive(cleared, rule, Ids(ls), CategoryIds(cs));
      ClearThenEvolve(t, del, t2, rule, Ids(ls), CategoryIds(cs));
      assert forall k :: k in t2.rows ==> k in t.rows;
    }
  }

  /** The converse: for an eligible level and category that no remaining
      row blocks, check_records leaves a record keyed by the result, level,
      type, category and start date (created, or found by get_or_create). */
  lemma CheckRecordsCreates(t: Table, db: Db, r: Result, cfg: Config, level: nat, category: nat)
    requires Fresh(t) && SavedResult(db, r) && QualifiesFull(r)
    requires level in Ids(FullLevels(cfg.levels, r, r.team))
    requires category in CategoryIds(Categories(r, None, cfg.checks, cfg.categories))
    requires UnblockedFull(db, DeleteWhere(t, UnapprovedFullOf(r)), r, level, category, cfg.sameValue)
    ensures exists k ::
      k in CheckRecordsSpec(t, db, r, cfg).rows && FullKey(CheckRecordsSpec(t, db, r, cfg).rows[k], r, level, category)
  {
    var cleared := DeleteWhere(t, UnapprovedFullOf(r));
    var rule := FullRule(db, r, cfg.sameValue, r.team);
    var ls := FullLevels(cfg.levels, r, r.team);
    var cs := Categories(r, None, cfg.checks, cfg.categories);
    FullRuleShape(db, r, cfg.sameValue, r.team);
    assert Reaches(cleared, rule, level, category);
    CheckLevelsReaches(cleared, rule, ls, cs, level, category);
    var t2 := CheckLevels(cleared, rule, ls, cs);
    assert CheckRecordsSpec(t, db, r, cfg) == t2;
    var k :| k in t2.rows && rule(level, category).create.key(t2.rows[k]);
    assert FullKey(t2.rows[k], r, level, category);
  }

  /** check_records_partial, likewise. */
  lemma CheckRecordsPartialCreates(t: Table, db: Db, p: ResultPartial, parent: Result, cfg: Config,
                                   level: nat, category: nat)
    requires Fresh(t) && SavedPartial(db, p) && QualifiesPartial(p, parent)
    requires level in Ids(PartialLevels(cfg.levels, parent))
    requires category in CategoryIds(Categories(parent, Some(p), cfg.checks, cfg.categories))
    requires UnblockedPartial(db, DeleteWhere(t, UnapprovedPartialOf(db, p)), p, parent, level, category, cfg.sameValue)
    ensures exists k ::
      k in CheckRecordsPartialSpec(t, db, p, parent, cfg).rows
      && PartialKey(CheckRecordsPartialSpec(t, db, p, parent, cfg).rows[k], p, parent, level, category)
  {
    var cleared := DeleteWhere(t, UnapprovedPartialOf(db, p));
    var rule := PartialRule(db, p, parent, cfg.sameValue);
    var ls := PartialLevels(cfg.levels, parent);
    var cs := Categories(parent, Some(p), cfg.checks, cfg.categories);
    PartialRuleShape(db, p, parent, cfg.sameValue);
    assert Reaches(cleared, rule, level, category);
    CheckLevelsReaches(cleared, rule, ls, cs, level, category);
    var t2 := CheckLevels(cleared, rule, ls, cs);
    assert CheckRecordsPartialSpec(t, db, p, parent, cfg) == t2;
    var k :| k in t2.rows && rule(level, category).create.key(t2.rows[k]);
    assert PartialKey(t2.rows[k], p, parent, level, category);
  }

  // ---------------------------------------------------------------------
  // Tie-breaks
  // ---------------------------------------------------------------------

  /** Checking a full-result slot twice changes nothing the second time. */
  lemma CheckFullSlotIdempotent(t: Table, db: Db, r: Result, level: nat, category: nat, sameValue: bool, team: bool)
    requires Fresh(t) && SavedResult(db, r)
    ensures var s := FullRule(db, r, sameValue, team)(level, category);
      CheckSlot(CheckSlot(t, s), s) == CheckSlot(t, s)
  {
    FullCreationSound(db, r, level, category);
    CheckSlotIdempotent(t, FullRule(db, r, sameValue, team)(level, category));
  }

  /** In either mode only an active full-result record of the slot, from
      the same day or earlier, with a value at least the new one's, can
      block it. */
  lemma BlockingRecordIsNotWorse(db: Db, rec: Record, r: Result, level: nat, category: nat, sameValue: bool, team: bool)
    requires BlocksFull(db, rec, r, level, category, sameValue, team)
    ensures Active(rec) && rec.partialResult.None? && InSlot(rec, level, r.competition.ctype.id, category)
    ensures DateLe(rec.dateStart, r.competition.dateStart) && OptLe(r.value, ValueOf(db, rec))
  {
  }

  lemma BlockingPartialIsNotWorse(db: Db, rec: Record, p: ResultPartial, parent: Result, level: nat, category: nat,
                                  sameValue: bool)
    requires BlocksPartial(db, rec, p, parent, level, category, sameValue)
    ensures Active(rec) && PartialTypeOf(db, rec) == Some(p.ptype.id)
    ensures DateLe(rec.dateStart, parent.competition.dateStart) && OptLe(p.value, PartialValueOf(db, rec))
  {
  }

  /** How an existing record with the same value is treated. Strict mode:
      it blocks only when it is from an earlier day. Equal-allowed mode: it
      blocks when it is from the same day or earlier and belongs to the same
      athlete (personal) or to a team sharing a member and the organisation. */
  lemma FullTieBreaks(db: Db, rec: Record, r: Result, level: nat, category: nat)
    requires Active(rec) && InSlot(rec, level, r.competition.ctype.id, category) && rec.partialResult.None?
    requires OptEq(ValueOf(db, rec), r.value)
    ensures BlocksFull(db, rec, r, level, category, false, false) <==> DateLt(rec.dateStart, r.competition.dateStart)
    ensures BlocksFull(db, rec, r, level, category, false, true) <==> DateLt(rec.dateStart, r.competition.dateStart)
    ensures BlocksFull(db, rec, r, level, category, true, false) <==>
      DateLe(rec.dateStart, r.competition.dateStart) && AthleteOf(db, rec) == AthleteKey(r)
    ensures BlocksFull(db, rec, r, level, category, true, true) <==>
      DateLe(rec.dateStart, r.competition.dateStart) && SharesTeam(db, rec, r)
  {
  }

  /** A greater value from the same day blocks a full result in strict
      mode, but does not block a partial result: the partial same-day test
      is for an exactly equal value. */
  lemma SameDayGreaterValue(db: Db, rec: Record, r: Result, p: ResultPartial, level: nat, category: nat)
    requires Active(rec) && InSlot(rec, level, r.competition.ctype.id, category)
    requires rec.dateStart == r.competition.dateStart
    ensures rec.partialResult.None? && OptLt(r.value, ValueOf(db, rec)) ==>
      BlocksFull(db, rec, r, level, category, false, r.team)
    ensures rec.partialResult.Some? && PartialTypeOf(db, rec) == Some(p.ptype.id) && OptLt(p.value, PartialValueOf(db, rec)) ==>
      !BlocksPartial(db, rec, p, r, level, category, false)
  {
  }

  /** How an existing partial record with the same value is treated.
      Strict mode: it blocks when it is from the same day or earlier.
      Equal-allowed mode: only when it also belongs to the same athlete. */
  lemma PartialTieBreaks(db: Db, rec: Record, p: ResultPartial, parent: Result, level: nat, category: nat)
    requires Active(rec) && InSlot(rec, level, parent.competition.ctype.id, category) && rec.partialResult.Some?
    requires PartialTypeOf(db, rec) == Some(p.ptype.id) && OptEq(PartialValueOf(db, rec), p.value)
    ensures BlocksPartial(db, rec, p, parent, level, category, false) <==> DateLe(rec.dateStart, parent.competition.dateStart)
    ensures BlocksPartial(db, rec, p, parent, level, category, true) <==>
      DateLe(rec.dateStart, parent.competition.dateStart) && AthleteOf(db, rec) == AthleteKey(parent)
  {
  }

  // ---------------------------------------------------------------------
  // The approval cascade
  // ---------------------------------------------------------------------

  /** `approved` is among a record's changed fields exactly when its
      approval differs from the snapshot. */
  lemma ApprovedChangedIff(snapshot: Record, rec: Record)
    ensures "approved" in ChangeLog.Diff(RecordFields(snapshot), RecordFields(rec)) <==> snapshot.approved != rec.approved
  {
    assert RecordFields(snapshot).Keys == RecordFields(rec).Keys;
    ChangeLog.DiffSpec(RecordFields(snapshot), RecordFields(rec), "approved");
  }

  /** A save that does not approve the record, or that leaves `approved` as
      it was in the snapshot, only persists the record. In particular a
      record built already approved and saved once does not cascade. */
  lemma SaveWithoutApprovalChange(t: Table, db: Db, key: Option<nat>, snapshot: Record, rec: Record)
    requires !rec.approved || snapshot.approved == rec.approved
    ensures SaveSpec(t, db, key, snapshot, rec) == Persist(t, key, rec).0
  {
    ApprovedChangedIff(snapshot, rec);
  }

  /** Approving a record that was unapproved in the snapshot cascades. */
  lemma SaveApproving(t: Table, db: Db, key: Option<nat>, snapshot: Record, rec: Record)
    requires !snapshot.approved && rec.approved
    ensures SaveSpec(t, db, key, snapshot, rec) == Cascade(Persist(t, key, rec).0, db, rec)
  {
    ApprovedChangedIff(snapshot, rec);
  }

  /** What the cascade does to one row: an approved superseded record is
      ended on the approved record's start date, an unapproved superseded
      record is deleted, and every other row (an equal or higher value, an
      ended or historical record, another slot or partial type) is left as
      it was. */
  lemma CascadeEffect(t: Table, db: Db, winner: Record, k: nat)
    requires k in t.rows
    ensures var t2 := Cascade(t, db, winner);
      && (Superseded(db, t.rows[k], winner) && t.rows[k].approved ==>
            k in t2.rows && t2.rows[k] == t.rows[k].(dateEnd := Some(winner.dateStart)))
      && (Superseded(db, t.rows[k], winner) && !t.rows[k].approved ==> k !in t2.rows)
      && (!Superseded(db, t.rows[k], winner) ==> k in t2.rows && t2.rows[k] == t.rows[k])
  {
  }

  /** After the cascade no active record of the approved record's slot has
      a lower value, and it added no row. */
  lemma CascadeClearsLower(t: Table, db: Db, winner: Record)
    ensures var t2 := Cascade(t, db, winner);
      && t2.rows.Keys <= t.rows.Keys
      && forall k :: k in t2.rows ==> !Superseded(db, t2.rows[k], winner)
  {
    var t2 := Cascade(t, db, winner);
    forall k | k in t2.rows
      ensures !Superseded(db, t2.rows[k], winner)
    {
      if Superseded(db, t.rows[k], winner) {
        assert !Active(t2.rows[k]);
      }
    }
  }
}
