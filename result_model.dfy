/** The result models (results/models/results.py): the defaults Result.save
    fills in, the object permissions of results and partial results, and the
    partial-result table with its uniqueness on (result, type, order). */
module ResultModel {
  import opened Common
  import opened Domain

  // ---------------------------------------------------------------------
  // Result.save
  // ---------------------------------------------------------------------

  /** The fields Result.save fills in before the row is written: empty names
      from the athlete, and a missing position from the preliminary one or
      the other way round. Names and positions are tested for truthiness, so
      an empty name and a position 0 count as missing. */
  function Defaulted(r: Result): (s: Result)
    ensures s == r.(firstName := s.firstName, lastName := s.lastName,
                    position := s.position, positionPre := s.positionPre)
    ensures TextSet(r.firstName) || r.athlete.None? ==> s.firstName == r.firstName
    ensures !TextSet(r.firstName) && r.athlete.Some? ==> s.firstName == Some(r.athlete.value.firstName)
    ensures TextSet(r.lastName) || r.athlete.None? ==> s.lastName == r.lastName
    ensures !TextSet(r.lastName) && r.athlete.Some? ==> s.lastName == Some(r.athlete.value.lastName)
    ensures Truthy(r.position) == Truthy(r.positionPre) ==>
      s.position == r.position && s.positionPre == r.positionPre
    ensures Truthy(r.position) && !Truthy(r.positionPre) ==> s.position == r.position && s.positionPre == r.position
    ensures !Truthy(r.position) && Truthy(r.positionPre) ==> s.position == r.positionPre && s.positionPre == r.positionPre
  {
    var first := if r.athlete.Some? && !TextSet(r.firstName) then Some(r.athlete.value.firstName) else r.firstName;
    var last := if r.athlete.Some? && !TextSet(r.lastName) then Some(r.athlete.value.lastName) else r.lastName;
    if !Truthy(r.positionPre) && Truthy(r.position) then
      r.(firstName := first, lastName := last, positionPre := r.position)
    else if !Truthy(r.position) && Truthy(r.positionPre) then
      r.(firstName := first, lastName := last, position := r.positionPre)
    else
      r.(firstName := first, lastName := last)
  }

  /** Saving twice fills in nothing more than saving once, and after a save
      the position is set exactly when the preliminary position is. */
  lemma DefaultedIdempotent(r: Result)
    ensures Defaulted(Defaulted(r)) == Defaulted(r)
    ensures Truthy(Defaulted(r).position) == Truthy(Defaulted(r).positionPre)
  {
  }

  /** A result instance as Result.save changes it in place. */
  class ResultInstance {
    var row: Result

    constructor (r: Result)
      ensures row == r
    {
      row := r;
    }

    /** `save`: the defaults are assigned on the instance, then the row is
        written (the write and the record check it triggers are the record
        engine's). */
    method Save()
      modifies this
      ensures row == Defaulted(old(row))
    {
      if row.athlete.Some? {
        if !TextSet(row.firstName) {
          row := row.(firstName := Some(row.athlete.value.firstName));
        }
        if !TextSet(row.lastName) {
          row := row.(lastName := Some(row.athlete.value.lastName));
        }
      }
      if !Truthy(row.positionPre) && Truthy(row.position) {
        row := row.(positionPre := row.position);
      } else if !Truthy(row.position) && Truthy(row.positionPre) {
        row := row.(position := row.positionPre);
      }
    }
  }

  // ---------------------------------------------------------------------
  // Object permissions
  // ---------------------------------------------------------------------

  /** `has_object_update_permission` / `has_object_write_permission` of a
      result (the two are the same): anonymous users never; staff and
      superusers always; other users when they belong to the organiser's
      group and neither the competition is locked nor the result approved. */
  predicate CanChangeResult(u: User, r: Result) {
    IsAuthenticated(u)
    && (IsStaff(u) || IsSuperuser(u)
        || (InGroup(u, r.competition.organizerGroup) && !(r.competition.locked || r.approved)))
  }

  /** The permission of a partial result, read through its parent result. */
  predicate CanChangePartial(u: User, parent: Result) {
    IsAuthenticated(u)
    && (IsStaff(u) || IsSuperuser(u)
        || (InGroup(u, parent.competition.organizerGroup) && !(parent.competition.locked || parent.approved)))
  }

  /** Who may change a result: staff and superusers without condition; any
      other user only as a member of the organiser's group while the
      competition is open and the result unapproved. */
  lemma ResultPermissionSpec(u: User, r: Result)
    ensures StaffOrSuperuser(u) ==> CanChangeResult(u, r)
    ensures !StaffOrSuperuser(u) ==>
      (CanChangeResult(u, r) <==> InGroup(u, r.competition.organizerGroup) && !r.competition.locked && !r.approved)
    ensures u.Anonymous? ==> !CanChangeResult(u, r)
  {
  }

  /** A partial result may be changed exactly when its parent result may. */
  lemma PartialPermissionMirrorsParent(u: User, parent: Result)
    ensures CanChangePartial(u, parent) <==> CanChangeResult(u, parent)
  {
  }

  // ---------------------------------------------------------------------
  // The partial-result table
  // ---------------------------------------------------------------------

  /** The unique key of a partial result: (result, type, order). */
  function KeyOf(p: ResultPartial): (nat, nat, int) {
    (p.result, p.ptype.id, p.order)
  }

  /** No two rows share a key or an id. */
  predicate Unique(rows: seq<ResultPartial>) {
    forall i, j :: 0 <= i < j < |rows| ==> KeyOf(rows[i]) != KeyOf(rows[j]) && rows[i].id != rows[j].id
  }

  /** Every id was assigned before `nextId`. */
  predicate IdsBelow(rows: seq<ResultPartial>, nextId: nat) {
    forall i :: 0 <= i < |rows| ==> rows[i].id < nextId
  }

  /** `ResultPartial.objects.get(result=..., type=..., order=...)`: the
      index of the row with the key, or -1 (DoesNotExist). */
  function Find(rows: seq<ResultPartial>, key: (nat, nat, int)): (i: int)
    ensures -1 <= i < |rows|
    ensures i >= 0 ==> KeyOf(rows[i]) == key
    ensures i < 0 <==> forall j :: 0 <= j < |rows| ==> KeyOf(rows[j]) != key
  {
    if rows == [] then -1
    else if KeyOf(rows[|rows| - 1]) == key then |rows| - 1
    else Find(rows[..|rows| - 1], key)
  }

  /** In a table without duplicate keys the row found is the only one with
      the key. */
  lemma FindUnique(rows: seq<ResultPartial>, key: (nat, nat, int), j: int)
    requires Unique(rows) && 0 <= j < |rows| && KeyOf(rows[j]) == key
    ensures Find(rows, key) == j
  {
  }

  /** `ResultPartial.objects.filter(result=r).values_list('id')`. */
  function IdsOf(rows: seq<ResultPartial>, result: nat): (ids: seq<nat>)
    ensures forall id :: id in ids <==> exists i :: 0 <= i < |rows| && rows[i].result == result && rows[i].id == id
  {
    if rows == [] then []
    else
      var rest := IdsOf(rows[1..], result);
      assert forall i :: 1 <= i < |rows| ==> rows[i] == rows[1..][i - 1];
      (if rows[0].result == result then [rows[0].id] else []) + rest
  }

  /** `ResultPartial.objects.filter(pk__in=ids).delete()`: the rows whose
      id is not listed, in their order. */
  function DeleteIds(rows: seq<ResultPartial>, ids: seq<nat>): (r: seq<ResultPartial>)
    ensures forall p :: p in r <==> p in rows && p.id !in ids
    ensures Unique(rows) ==> Unique(r)
  {
    if rows == [] then []
    else
      var rest := DeleteIds(rows[1..], ids);
      if rows[0].id in ids then rest
      else
        ConsUnique(rows, rest);
        [rows[0]] + rest
  }

  /** Putting the first row back in front of rows taken from the others
      keeps the table free of duplicates. */
  lemma ConsUnique(rows: seq<ResultPartial>, rest: seq<ResultPartial>)
    requires |rows| > 0
    requires forall p :: p in rest ==> p in rows[1..]
    requires Unique(rows) ==> Unique(rest)
    ensures Unique(rows) ==> Unique([rows[0]] + rest)
  {
    if Unique(rows) {
      var r := [rows[0]] + rest;
      forall j | 1 <= j < |r|
        ensures KeyOf(r[0]) != KeyOf(r[j]) && r[0].id != r[j].id
      {
        assert r[j] == rest[j - 1];
        assert r[j] in rows[1..];
        var k :| 0 <= k < |rows[1..]| && rows[1..][k] == r[j];
        assert rows[k + 1] == r[j];
      }
      assert forall i, j :: 1 <= i < j < |r| ==> r[i] == rest[i - 1] && r[j] == rest[j - 1];
    }
  }

  /** The ResultPartial table: rows in insertion order and the next id. The
      database keeps (result, type, order) unique. */
  class PartialTable {
    var rows: seq<ResultPartial>
    var nextId: nat

    ghost predicate Valid()
      reads this
    {
      Unique(rows) && IdsBelow(rows, nextId)
    }

    constructor ()
      ensures Valid() && rows == [] && nextId == 0
    {
      rows := [];
      nextId := 0;
    }

    /** `objects.get` by key. */
    method Get(key: (nat, nat, int)) returns (i: int)
      ensures i == Find(rows, key)
    {
      i := |rows| - 1;
      assert rows[..i + 1] == rows;
      while i >= 0 && KeyOf(rows[i]) != key
        invariant -1 <= i < |rows|
        invariant Find(rows, key) == Find(rows[..i + 1], key)
      {
        assert rows[..i + 1][..i] == rows[..i];
        i := i - 1;
      }
      if i >= 0 {
        assert rows[..i + 1][..i] == rows[..i];
      }
    }

    /** `objects.create`: a row with a fresh id, refused by the unique
        constraint when its key is taken. */
    method Create(p: ResultPartial) returns (outcome: Outcome, id: nat)
      requires Valid()
      modifies this
      ensures Valid()
      ensures outcome == Pass <==> Find(old(rows), KeyOf(p)) < 0
      ensures outcome == Pass ==> id == old(nextId) && rows == old(rows) + [p.(id := id)] && nextId == old(nextId) + 1
      ensures outcome.Fail? ==> outcome.error == DuplicatePartialKey && rows == old(rows) && nextId == old(nextId)
    {
      var found := Get(KeyOf(p));
      if found >= 0 {
        outcome, id := Fail(DuplicatePartialKey), 0;
        return;
      }
      id := nextId;
      rows := rows + [p.(id := id)];
      nextId := nextId + 1;
      outcome := Pass;
    }

    /** `save` of a loaded partial whose key and id stay as they were. */
    method Put(k: nat, p: ResultPartial)
      requires Valid() && k < |rows| && KeyOf(p) == KeyOf(rows[k]) && p.id == rows[k].id
      modifies this
      ensures Valid()
      ensures rows == old(rows)[k := p] && nextId == old(nextId)
    {
      rows := rows[k := p];
    }

    /** The bulk delete by id. */
    method Delete(ids: seq<nat>)
      requires Valid()
      modifies this
      ensures Valid()
      ensures rows == DeleteIds(old(rows), ids) && nextId == old(nextId)
    {
      rows := DeleteIds(rows, ids);
    }
  }
}
