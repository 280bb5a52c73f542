/** The nested update of a result's partial results in
    `ResultSerializer.update` (results/serializers/results.py): each
    submitted partial updates the stored partial with its (type, order) or
    is created, and the stored partials not submitted are deleted. */
module ResultUpdate {
  import opened Common
  import opened Domain
  import opened ResultModel
  import opened ResultValidation

  /** The key a submitted partial of result `instance` is looked up by. */
  function ItemKey(instance: nat, it: Item): (nat, nat, int) {
    (instance, it.ptype.id, it.order)
  }

  /** `setattr` of the submitted fields other than result, type and order. */
  function Apply(p: ResultPartial, it: Item): (q: ResultPartial)
    ensures KeyOf(q) == KeyOf(p) && q.id == p.id && q.ptype == p.ptype
    ensures q.value == (if it.value.Some? then it.value else p.value)
    ensures q.decimals == (if it.decimals.Some? then it.decimals.value else p.decimals)
  {
    p.(value := if it.value.Some? then it.value else p.value,
       decimals := if it.decimals.Some? then it.decimals.value else p.decimals)
  }

  /** `ResultPartial.objects.create(result=instance, **partial)`; the id is
      assigned by the table. Decimals default to 0. */
  function Made(instance: nat, it: Item): (p: ResultPartial)
    ensures KeyOf(p) == ItemKey(instance, it)
  {
    ResultPartial(0, instance, it.ptype, it.order, it.value, if it.decimals.Some? then it.decimals.value else 0)
  }

  /** No id twice. */
  predicate Distinct(s: seq<nat>) {
    forall i, j :: 0 <= i < j < |s| ==> s[i] != s[j]
  }

  /** Python's `list.remove`: drops the first occurrence. */
  function Remove(s: seq<nat>, x: nat): (r: seq<nat>)
    ensures forall y :: y != x ==> (y in r <==> y in s)
    ensures forall y :: y in r ==> y in s
    ensures Distinct(s) ==> Distinct(r) && x !in r
  {
    if s == [] then []
    else if s[0] == x then
      assert forall i :: 1 <= i < |s| ==> s[i] == s[1..][i - 1];
      s[1..]
    else
      var rest := Remove(s[1..], x);
      assert forall i :: 1 <= i < |s| ==> s[i] == s[1..][i - 1];
      assert Distinct(s) ==> Distinct(s[1..]) && s[0] !in s[1..];
      assert forall i :: 1 <= i <= |rest| ==> ([s[0]] + rest)[i] == rest[i - 1];
      [s[0]] + rest
  }

  /** The state of the update loop: the table, the ids of `partial_existing`
      not yet removed, and whether `remove` raised (ValueError), which ends
      the update with the rows as they are. */
  datatype Merging = Merging(rows: seq<ResultPartial>, nextId: nat, existing: seq<nat>, failed: bool)

  /** One submitted partial. A stored partial with the key is updated and
      its id removed from the list; a partial already removed (a key
      submitted twice) makes `remove` raise. Otherwise a partial is created. */
  function Step(m: Merging, instance: nat, it: Item): Merging {
    var i := Find(m.rows, ItemKey(instance, it));
    if i >= 0 then
      var rows := m.rows[i := Apply(m.rows[i], it)];
      if m.rows[i].id in m.existing then Merging(rows, m.nextId, Remove(m.existing, m.rows[i].id), false)
      else Merging(rows, m.nextId, m.existing, true)
    else Merging(m.rows + [Made(instance, it).(id := m.nextId)], m.nextId + 1, m.existing, false)
  }

  /** The loop over the submitted partials, stopped by the first error. */
  function Fold(m: Merging, instance: nat, items: seq<Item>): Merging
    decreases |items|
  {
    if items == [] || m.failed then m
    else Fold(Step(m, instance, items[0]), instance, items[1..])
  }

  /** The update of the partials of result `instance`. `items` is None when
      the data has no `partial` key: the partials are left alone. */
  function UpdateSpec(rows: seq<ResultPartial>, nextId: nat, instance: nat, items: Option<seq<Item>>): Merging {
    if items.None? then Merging(rows, nextId, [], false)
    else
      var m := Fold(Merging(rows, nextId, IdsOf(rows, instance), false), instance, items.value);
      if m.failed then m else Merging(DeleteIds(m.rows, m.existing), m.nextId, m.existing, false)
  }

  /** The body of the loop over the submitted partials: the stored partial
      with the item's key is updated in place and its id removed from
      `existing` (`failed` when it was already removed), or a partial is
      created. */
  method MergeItem(table: PartialTable, instance: nat, it: Item, existing: seq<nat>)
    returns (rest: seq<nat>, failed: bool)
    requires table.Valid()
    modifies table
    ensures table.Valid()
    ensures Merging(table.rows, table.nextId, rest, failed)
         == Step(Merging(old(table.rows), old(table.nextId), existing, false), instance, it)
  {
    var k := table.Get(ItemKey(instance, it));
    if k >= 0 {
      var id := table.rows[k].id;
      table.Put(k, Apply(table.rows[k], it));
      if id !in existing {
        return existing, true;
      }
      rest, failed := Remove(existing, id), false;
    } else {
      var created, newId := table.Create(Made(instance, it));
      rest, failed := existing, false;
    }
  }

  /** The update as the serializer runs it on the table. With `dryRun`
      (the `dry_run` flag of the data) nothing is touched. */
  method UpdatePartials(table: PartialTable, instance: nat, items: Option<seq<Item>>, dryRun: bool)
    returns (outcome: Outcome)
    requires table.Valid()
    modifies table
    ensures table.Valid()
    ensures dryRun ==> outcome == Pass && table.rows == old(table.rows) && table.nextId == old(table.nextId)
    ensures !dryRun ==> var m := UpdateSpec(old(table.rows), old(table.nextId), instance, items);
      && table.rows == m.rows && table.nextId == m.nextId
      && (outcome == Pass <==> !m.failed)
      && (outcome.Fail? ==> outcome.error == InternalError)
  {
    if dryRun || items.None? {
      return Pass;
    }
    var data := items.value;
    ghost var start := Merging(table.rows, table.nextId, IdsOf(table.rows, instance), false);
    var existing := IdsOf(table.rows, instance);
    var i := 0;
    while i < |data|
      invariant 0 <= i <= |data|
      invariant table.Valid()
      invariant Fold(Merging(table.rows, table.nextId, existing, false), instance, data[i..]) == Fold(start, instance, data)
    {
      assert data[i..][0] == data[i] && data[i..][1..] == data[i + 1..];
      var failed;
      existing, failed := MergeItem(table, instance, data[i], existing);
      if failed {
        return Fail(InternalError);
      }
      i := i + 1;
    }
    table.Delete(existing);
    outcome := Pass;
  }

  // ---------------------------------------------------------------------
  // What the update leaves
  // ---------------------------------------------------------------------

  /** A stored partial's (type, order) is among the submitted ones. */
  predicate Listed(items: seq<Item>, p: ResultPartial) {
    exists j :: 0 <= j < |items| && items[j].ptype.id == p.ptype.id && items[j].order == p.order
  }

  /** No (type, order) is submitted twice. */
  predicate DistinctKeys(items: seq<Item>) {
    forall i, j :: 0 <= i < j < |items| ==>
      items[i].ptype.id != items[j].ptype.id || items[i].order != items[j].order
  }

  /** Some row of result `instance` has the submitted partial's key and the
      submitted value and decimals. */
  predicate Carries(rows: seq<ResultPartial>, instance: nat, it: Item) {
    exists i :: 0 <= i < |rows| && KeyOf(rows[i]) == ItemKey(instance, it)
      && (it.value.Some? ==> rows[i].value == it.value)
      && (it.decimals.Some? ==> rows[i].decimals == it.decimals.value)
  }

  /** The partials of other results are those of `orig`. */
  ghost predicate OthersKept(orig: seq<ResultPartial>, rows: seq<ResultPartial>, instance: nat) {
    forall p: ResultPartial :: p.result != instance ==> (p in rows <==> p in orig)
  }

  /** A partial of the result is still in `existing` exactly when its key
      has not been submitted; no partial of another result is. */
  ghost predicate Pending(rows: seq<ResultPartial>, existing: seq<nat>, instance: nat, done: seq<Item>) {
    && (forall p :: p in rows && p.result == instance ==> (p.id in existing <==> !Listed(done, p)))
    && (forall p :: p in rows && p.result != instance ==> p.id !in existing)
  }

  /** Every submitted partial so far is carried by a row. */
  ghost predicate AllCarried(rows: seq<ResultPartial>, instance: nat, done: seq<Item>) {
    forall j :: 0 <= j < |done| ==> Carries(rows, instance, done[j])
  }

  /** The loop invariant of the update, after the submitted partials `done`. */
  ghost predicate Inv(orig: seq<ResultPartial>, m: Merging, instance: nat, done: seq<Item>) {
    && !m.failed
    && Unique(m.rows) && IdsBelow(m.rows, m.nextId)
    && OthersKept(orig, m.rows, instance)
    && Pending(m.rows, m.existing, instance, done)
    && Distinct(m.existing)
    && (forall id :: id in m.existing ==> id < m.nextId)
    && AllCarried(m.rows, instance, done)
  }

  /** The key of `it` was not submitted before. */
  predicate KeyNew(done: seq<Item>, it: Item) {
    forall j :: 0 <= j < |done| ==> done[j].ptype.id != it.ptype.id || done[j].order != it.order
  }

  lemma ListedSnoc(done: seq<Item>, it: Item, p: ResultPartial)
    ensures Listed(done + [it], p) <==> Listed(done, p) || (it.ptype.id == p.ptype.id && it.order == p.order)
  {
    var all := done + [it];
    assert all[|done|] == it;
    if Listed(all, p) {
      var j :| 0 <= j < |all| && all[j].ptype.id == p.ptype.id && all[j].order == p.order;
      if j < |done| {
        assert done[j] == all[j];
      }
    }
    if Listed(done, p) {
      var j :| 0 <= j < |done| && done[j].ptype.id == p.ptype.id && done[j].order == p.order;
      assert all[j] == done[j];
    }
  }

  /** The stored ids of a result are distinct. */
  lemma {:induction false} IdsOfDistinct(rows: seq<ResultPartial>, result: nat)
    requires Unique(rows)
    ensures Distinct(IdsOf(rows, result))
  {
    if rows != [] {
      assert Unique(rows[1..]);
      IdsOfDistinct(rows[1..], result);
      var rest := IdsOf(rows[1..], result);
      if rows[0].result == result {
        forall j | 0 <= j < |rest|
          ensures rest[j] != rows[0].id
        {
          assert rest[j] in rest;
          var k :| 0 <= k < |rows[1..]| && rows[1..][k].result == result && rows[1..][k].id == rest[j];
          assert rows[k + 1].id == rest[j];
        }
        assert forall i :: 1 <= i <= |rest| ==> ([rows[0].id] + rest)[i] == rest[i - 1];
      }
    }
  }

  lemma InvInit(rows: seq<ResultPartial>, nextId: nat, instance: nat)
    requires Unique(rows) && IdsBelow(rows, nextId)
    ensures Inv(rows, Merging(rows, nextId, IdsOf(rows, instance), false), instance, [])
  {
    var ids := IdsOf(rows, instance);
    IdsOfDistinct(rows, instance);
    forall p | p in rows && p.result != instance
      ensures p.id !in ids
    {
      var a :| 0 <= a < |rows| && rows[a] == p;
      assert forall b :: 0 <= b < |rows| && rows[b].id == p.id ==> b == a;
    }
    forall id | id in ids
      ensures id < nextId
    {
      var b :| 0 <= b < |rows| && rows[b].result == instance && rows[b].id == id;
    }
    forall p | p in rows && p.result == instance
      ensures p.id in ids
    {
      var a :| 0 <= a < |rows| && rows[a] == p;
    }
  }

  // The step that updates row i with q (same key and id).

  lemma UpdatedOthers(orig: seq<ResultPartial>, rows: seq<ResultPartial>, instance: nat, i: int, q: ResultPartial)
    requires OthersKept(orig, rows, instance)
    requires 0 <= i < |rows| && rows[i].result == instance && q.result == instance
    ensures OthersKept(orig, rows[i := q], instance)
  {
    var rows2 := rows[i := q];
    forall p: ResultPartial | p.result != instance
      ensures p in rows2 <==> p in rows
    {
      if p in rows2 {
        var k :| 0 <= k < |rows2| && rows2[k] == p;
        assert rows[k] == p;
      }
      if p in rows {
        var k :| 0 <= k < |rows| && rows[k] == p;
        assert rows2[k] == p;
      }
    }
  }

  lemma UpdatedPending(rows: seq<ResultPartial>, existing: seq<nat>, instance: nat, done: seq<Item>,
                       it: Item, i: int, q: ResultPartial)
    requires Unique(rows) && Pending(rows, existing, instance, done) && Distinct(existing)
    requires 0 <= i < |rows| && KeyOf(rows[i]) == ItemKey(instance, it) && KeyOf(q) == KeyOf(rows[i]) && q.id == rows[i].id
    ensures Pending(rows[i := q], Remove(existing, rows[i].id), instance, done + [it])
  {
    var rows2 := rows[i := q];
    var ex2 := Remove(existing, rows[i].id);
    forall p | p in rows2 && p.result == instance
      ensures p.id in ex2 <==> !Listed(done + [it], p)
    {
      ListedSnoc(done, it, p);
      var k :| 0 <= k < |rows2| && rows2[k] == p;
      if k != i {
        assert p == rows[k];
        assert p.id != rows[i].id && KeyOf(p) != KeyOf(rows[i]);
      }
    }
    forall p | p in rows2 && p.result != instance
      ensures p.id !in ex2
    {
      var k :| 0 <= k < |rows2| && rows2[k] == p;
      assert p == rows[k];
    }
  }

  lemma UpdatedCarried(rows: seq<ResultPartial>, instance: nat, done: seq<Item>, it: Item, i: int)
    requires AllCarried(rows, instance, done) && KeyNew(done, it)
    requires 0 <= i < |rows| && KeyOf(rows[i]) == ItemKey(instance, it)
    ensures AllCarried(rows[i := Apply(rows[i], it)], instance, done + [it])
  {
    var rows2 := rows[i := Apply(rows[i], it)];
    var all := done + [it];
    forall j | 0 <= j < |all|
      ensures Carries(rows2, instance, all[j])
    {
      if j == |done| {
        assert all[j] == it && KeyOf(rows2[i]) == ItemKey(instance, it);
      } else {
        assert all[j] == done[j];
        var k :| 0 <= k < |rows| && KeyOf(rows[k]) == ItemKey(instance, done[j])
          && (done[j].value.Some? ==> rows[k].value == done[j].value)
          && (done[j].decimals.Some? ==> rows[k].decimals == done[j].decimals.value);
        assert k != i;
        assert rows2[k] == rows[k];
      }
    }
  }

  /** Updating a stored partial whose key is submitted for the first time. */
  lemma StepFound(orig: seq<ResultPartial>, m: Merging, instance: nat, done: seq<Item>, it: Item)
    requires Inv(orig, m, instance, done) && KeyNew(done, it)
    requires Find(m.rows, ItemKey(instance, it)) >= 0
    ensures Inv(orig, Step(m, instance, it), instance, done + [it])
  {
    var i := Find(m.rows, ItemKey(instance, it));
    var q := Apply(m.rows[i], it);
    assert !Listed(done, m.rows[i]);
    assert m.rows[i].id in m.existing;
    UpdatedOthers(orig, m.rows, instance, i, q);
    UpdatedPending(m.rows, m.existing, instance, done, it, i, q);
    UpdatedCarried(m.rows, instance, done, it, i);
    assert Step(m, instance, it) == Merging(m.rows[i := q], m.nextId, Remove(m.existing, m.rows[i].id), false);
  }

  // The step that appends a created row.

  lemma CreatedPending(rows: seq<ResultPartial>, existing: seq<nat>, instance: nat, done: seq<Item>,
                       it: Item, made: ResultPartial)
    requires Pending(rows, existing, instance, done) && made.id !in existing
    requires KeyOf(made) == ItemKey(instance, it)
    requires forall k :: 0 <= k < |rows| ==> KeyOf(rows[k]) != KeyOf(made)
    ensures Pending(rows + [made], existing, instance, done + [it])
  {
    forall p | p in rows + [made] && p.result == instance
      ensures p.id in existing <==> !Listed(done + [it], p)
    {
      ListedSnoc(done, it, p);
      if p != made {
        var k :| 0 <= k < |rows| && rows[k] == p;
      }
    }
  }

  lemma CreatedCarried(rows: seq<ResultPartial>, instance: nat, done: seq<Item>, it: Item, made: ResultPartial)
    requires AllCarried(rows, instance, done)
    requires KeyOf(made) == ItemKey(instance, it) && made.value == it.value
    requires it.decimals.Some? ==> made.decimals == it.decimals.value
    ensures AllCarried(rows + [made], instance, done + [it])
  {
    var rows2 := rows + [made];
    var all := done + [it];
    forall j | 0 <= j < |all|
      ensures Carries(rows2, instance, all[j])
    {
      if j == |done| {
        assert all[j] == it && rows2[|rows|] == made;
      } else {
        assert all[j] == done[j];
        var k :| 0 <= k < |rows| && KeyOf(rows[k]) == ItemKey(instance, done[j])
          && (done[j].value.Some? ==> rows[k].value == done[j].value)
          && (done[j].decimals.Some? ==> rows[k].decimals == done[j].decimals.value);
        assert rows2[k] == rows[k];
      }
    }
  }

  /** Creating a partial whose key is not stored. */
  lemma StepCreated(orig: seq<ResultPartial>, m: Merging, instance: nat, done: seq<Item>, it: Item)
    requires Inv(orig, m, instance, done)
    requires Find(m.rows, ItemKey(instance, it)) < 0
    ensures Inv(orig, Step(m, instance, it), instance, done + [it])
  {
    var made := Made(instance, it).(id := m.nextId);
    var rows := m.rows + [made];
    assert Unique(rows) by {
      forall a | 0 <= a < |m.rows|
        ensures KeyOf(rows[a]) != KeyOf(made) && rows[a].id != made.id
      {
        assert rows[a] == m.rows[a];
      }
    }
    assert OthersKept(orig, rows, instance);
    CreatedPending(m.rows, m.existing, instance, done, it, made);
    CreatedCarried(m.rows, instance, done, it, made);
    assert Step(m, instance, it) == Merging(rows, m.nextId + 1, m.existing, false);
  }

  lemma StepKeepsInv(orig: seq<ResultPartial>, m: Merging, instance: nat, done: seq<Item>, it: Item)
    requires Inv(orig, m, instance, done) && KeyNew(done, it)
    ensures Inv(orig, Step(m, instance, it), instance, done + [it])
  {
    if Find(m.rows, ItemKey(instance, it)) >= 0 {
      StepFound(orig, m, instance, done, it);
    } else {
      StepCreated(orig, m, instance, done, it);
    }
  }

  // Stored partials are updated in place.

  /** Item `it` is submitted for the key of stored partial `p`. */
  predicate SameKey(it: Item, p: ResultPartial) {
    it.ptype.id == p.ptype.id && it.order == p.order
  }

  /** Every partial of the result in `orig` is, after the submitted partials
      `done`, still stored under its id: updated with the item submitted for
      its key, or untouched when its key has not been submitted. */
  ghost predicate InPlace(orig: seq<ResultPartial>, rows: seq<ResultPartial>, instance: nat, done: seq<Item>) {
    && (forall p, j :: p in orig && p.result == instance && 0 <= j < |done| && SameKey(done[j], p) ==>
          Apply(p, done[j]) in rows)
    && (forall p :: p in orig && p.result == instance && !Listed(done, p) ==> p in rows)
  }

  /** A step leaves every row whose key is not the item's where it was. */
  lemma StepKeepsOtherKeys(m: Merging, instance: nat, it: Item, q: ResultPartial)
    requires q in m.rows && KeyOf(q) != ItemKey(instance, it)
    ensures q in Step(m, instance, it).rows
  {
    var i := Find(m.rows, ItemKey(instance, it));
    var k :| 0 <= k < |m.rows| && m.rows[k] == q;
    assert k != i;
    assert Step(m, instance, it).rows[k] == q;
  }

  /** A step applies the item to the stored row with its key, in place. */
  lemma StepUpdatesKey(m: Merging, instance: nat, it: Item, p: ResultPartial)
    requires Unique(m.rows) && p in m.rows && KeyOf(p) == ItemKey(instance, it)
    ensures Apply(p, it) in Step(m, instance, it).rows
  {
    var i := Find(m.rows, ItemKey(instance, it));
    var k :| 0 <= k < |m.rows| && m.rows[k] == p;
    assert i == k;
    assert Step(m, instance, it).rows[i] == Apply(p, it);
  }

  lemma StepInPlace(orig: seq<ResultPartial>, m: Merging, instance: nat, done: seq<Item>, it: Item)
    requires Unique(m.rows) && KeyNew(done, it) && InPlace(orig, m.rows, instance, done)
    ensures InPlace(orig, Step(m, instance, it).rows, instance, done + [it])
  {
    var all := done + [it];
    var rows2 := Step(m, instance, it).rows;
    forall p | p in orig && p.result == instance
      ensures forall j :: 0 <= j < |all| && SameKey(all[j], p) ==> Apply(p, all[j]) in rows2
      ensures !Listed(all, p) ==> p in rows2
    {
      ListedSnoc(done, it, p);
      assert all[|done|] == it;
      assert forall j :: 0 <= j < |done| ==> all[j] == done[j];
      if SameKey(it, p) {
        assert !Listed(done, p);
        StepUpdatesKey(m, instance, it, p);
      } else {
        forall j | 0 <= j < |done| && SameKey(done[j], p)
          ensures Apply(p, done[j]) in rows2
        {
          StepKeepsOtherKeys(m, instance, it, Apply(p, done[j]));
        }
        if !Listed(all, p) {
          StepKeepsOtherKeys(m, instance, it, p);
        }
      }
    }
  }

  /** One submitted partial, as the `n`-th of `items`, keeps the invariant
      and the in-place update. */
  lemma StepAt(orig: seq<ResultPartial>, m: Merging, instance: nat, items: seq<Item>, n: nat)
    requires n < |items| && DistinctKeys(items)
    requires Inv(orig, m, instance, items[..n]) && InPlace(orig, m.rows, instance, items[..n])
    ensures Inv(orig, Step(m, instance, items[n]), instance, items[..n + 1])
    ensures InPlace(orig, Step(m, instance, items[n]).rows, instance, items[..n + 1])
  {
    assert KeyNew(items[..n], items[n]);
    StepKeepsInv(orig, m, instance, items[..n], items[n]);
    StepInPlace(orig, m, instance, items[..n], items[n]);
    assert items[..n + 1] == items[..n] + [items[n]];
  }

  /** The loop over `items[n..]` keeps the invariant and the in-place
      update. */
  lemma {:induction false} FoldKeepsInv(orig: seq<ResultPartial>, m: Merging, instance: nat, items: seq<Item>, n: nat)
    requires n <= |items| && DistinctKeys(items)
    requires Inv(orig, m, instance, items[..n]) && InPlace(orig, m.rows, instance, items[..n])
    ensures Inv(orig, Fold(m, instance, items[n..]), instance, items)
    ensures InPlace(orig, Fold(m, instance, items[n..]).rows, instance, items)
    decreases |items| - n
  {
    if n == |items| {
      assert items[..n] == items;
    } else {
      StepAt(orig, m, instance, items, n);
      assert items[n..][0] == items[n] && items[n..][1..] == items[n + 1..];
      FoldKeepsInv(orig, Step(m, instance, items[n]), instance, items, n + 1);
    }
  }

  /** The final delete keeps every updated partial: its key was submitted,
      so its id is no longer pending. */
  lemma FinalInPlace(orig: seq<ResultPartial>, m: Merging, instance: nat, items: seq<Item>)
    requires Inv(orig, m, instance, items) && InPlace(orig, m.rows, instance, items)
    ensures forall p, j :: p in orig && p.result == instance && 0 <= j < |items| && SameKey(items[j], p) ==>
      Apply(p, items[j]) in DeleteIds(m.rows, m.existing)
  {
    forall p, j | p in orig && p.result == instance && 0 <= j < |items| && SameKey(items[j], p)
      ensures Apply(p, items[j]) in DeleteIds(m.rows, m.existing)
    {
      assert Listed(items, Apply(p, items[j]));
    }
  }

  /** With no (type, order) submitted twice the update succeeds; afterwards
      the partials of other results are as they were, every partial of the
      result has a submitted key, every submitted partial is stored with
      its value and decimals, and a stored partial whose key is submitted
      keeps its id and the fields the item leaves out. */
  lemma UpdateWithDistinctKeys(rows: seq<ResultPartial>, nextId: nat, instance: nat, items: seq<Item>)
    requires Unique(rows) && IdsBelow(rows, nextId) && DistinctKeys(items)
    ensures var m := UpdateSpec(rows, nextId, instance, Some(items));
      && !m.failed && Unique(m.rows)
      && (forall p: ResultPartial :: p.result != instance ==> (p in m.rows <==> p in rows))
      && (forall p :: p in m.rows && p.result == instance ==> Listed(items, p))
      && (forall j :: 0 <= j < |items| ==> Carries(m.rows, instance, items[j]))
      && (forall p, j :: p in rows && p.result == instance && 0 <= j < |items| && SameKey(items[j], p) ==>
            Apply(p, items[j]) in m.rows)
  {
    var start := Merging(rows, nextId, IdsOf(rows, instance), false);
    InvInit(rows, nextId, instance);
    assert items[..0] == [] && items[0..] == items;
    assert InPlace(rows, start.rows, instance, []);
    FoldKeepsInv(rows, start, instance, items, 0);
    FinalDelete(rows, Fold(start, instance, items), instance, items);
    FinalInPlace(rows, Fold(start, instance, items), instance, items);
  }

  /** The bulk delete at the end removes exactly the partials of the result
      whose key was not submitted. */
  lemma FinalDelete(orig: seq<ResultPartial>, m: Merging, instance: nat, items: seq<Item>)
    requires Inv(orig, m, instance, items)
    ensures var final := DeleteIds(m.rows, m.existing);
      && Unique(final)
      && (forall p: ResultPartial :: p.result != instance ==> (p in final <==> p in orig))
      && (forall p :: p in final && p.result == instance ==> Listed(items, p))
      && (forall j :: 0 <= j < |items| ==> Carries(final, instance, items[j]))
  {
    var final := DeleteIds(m.rows, m.existing);
    forall j | 0 <= j < |items|
      ensures Carries(final, instance, items[j])
    {
      var k :| 0 <= k < |m.rows| && KeyOf(m.rows[k]) == ItemKey(instance, items[j])
        && (items[j].value.Some? ==> m.rows[k].value == items[j].value)
        && (items[j].decimals.Some? ==> m.rows[k].decimals == items[j].decimals.value);
      assert m.rows[k] in m.rows;
      assert Listed(items, m.rows[k]);
      assert m.rows[k] in final;
      var f :| 0 <= f < |final| && final[f] == m.rows[k];
    }
  }

  /** Submitting the same (type, order) twice makes `remove` raise: the
      second partial finds the row the first one updated or created, whose
      id is no longer in the list. */
  lemma RepeatedKeyRaises(rows: seq<ResultPartial>, nextId: nat, instance: nat, a: Item, b: Item)
    requires Unique(rows) && IdsBelow(rows, nextId)
    requires a.ptype.id == b.ptype.id && a.order == b.order
    ensures UpdateSpec(rows, nextId, instance, Some([a, b])).failed
  {
    var start := Merging(rows, nextId, IdsOf(rows, instance), false);
    InvInit(rows, nextId, instance);
    assert [] + [a] == [a];
    StepKeepsInv(rows, start, instance, [], a);
    var m1 := Step(start, instance, a);
    SecondStepFails(rows, m1, instance, a, b);
    assert [a, b][0] == a && [a, b][1..] == [b] && [b][0] == b && [b][1..] == [];
    assert Fold(start, instance, [a, b]) == Fold(m1, instance, [b]);
    assert Fold(m1, instance, [b]) == Fold(Step(m1, instance, b), instance, []);
  }

  /** After `a`, an item with the same key finds the row `a` left, whose id
      has already been removed. */
  lemma SecondStepFails(orig: seq<ResultPartial>, m: Merging, instance: nat, a: Item, b: Item)
    requires Inv(orig, m, instance, [a]) && a.ptype.id == b.ptype.id && a.order == b.order
    ensures Step(m, instance, b).failed
  {
    var i := Find(m.rows, ItemKey(instance, b));
    assert ItemKey(instance, a) == ItemKey(instance, b);
    assert Carries(m.rows, instance, [a][0]);
    assert i >= 0;
    assert Listed([a], m.rows[i]) by { assert [a][0] == a; }
    assert m.rows[i].id !in m.existing;
  }
}
