/** The Pohjolan malja statistic: points for organisations from the
    SM-level competitions of one calendar year. In each (competition,
    category) group the first result earns 8 points for its organisation,
    the second 7 and so on; a result of an external organisation earns
    nothing and, unless a non-external result shares its position, gives
    one more place to the points. */
module Statistics {
  import opened Common

  /** The columns of a result row the statistic reads: its competition and
      category ids, the competition's level abbreviation and year, the
      position and the organisation (with its `external` flag). */
  datatype Row = Row(
    competition: nat,
    category: nat,
    levelAbbreviation: string,
    year: int,
    position: Option<int>,
    organization: nat,
    external: bool)

  /** Points go to positions 1 to 8 of a group. */
  const StartCap: int := 8

  const CountedLevel: string := "SM"

  /** The query filter: SM level, the given year, a position of at least 1. */
  predicate Counted(year: int, r: Row) {
    r.levelAbbreviation == CountedLevel && r.year == year
    && r.position.Some? && r.position.value >= 1
  }

  /** Every row has a position. */
  predicate Placed(rows: seq<Row>) {
    forall i :: 0 <= i < |rows| ==> rows[i].position.Some?
  }

  /** The rows the statistic walks, in query order. */
  function Selected(table: seq<Row>, year: int): (rows: seq<Row>)
    ensures forall r :: r in rows <==> r in table && Counted(year, r)
    ensures Placed(rows)
  {
    var rows := Filter(table, r => Counted(year, r));
    assert forall i :: 0 <= i < |rows| ==> rows[i] in rows;
    rows
  }

  /** `data_dict`: organisation ids with their points, in insertion order. */
  type Totals = seq<(nat, int)>

  /** The organisations present in a totals list. */
  function Orgs(t: Totals): set<nat> {
    if t == [] then {} else {t[0].0} + Orgs(t[1..])
  }

  /** No organisation appears twice (dictionary keys). */
  predicate DistinctOrgs(t: Totals) {
    forall i, j :: 0 <= i < j < |t| ==> t[i].0 != t[j].0
  }

  /** The points of an organisation, 0 when it has none. */
  function Get(t: Totals, org: nat): int {
    if t == [] then 0
    else if t[0].0 == org then t[0].1
    else Get(t[1..], org)
  }

  lemma {:induction false} AbsentGet(t: Totals, org: nat)
    requires org !in Orgs(t)
    ensures Get(t, org) == 0
  {
    if t != [] {
      AbsentGet(t[1..], org);
    }
  }

  /** `data_dict[organization] += points`, or a new entry at the end. */
  function Credit(t: Totals, org: nat, points: int): (u: Totals)
    ensures Orgs(u) == Orgs(t) + {org}
    ensures DistinctOrgs(t) ==> DistinctOrgs(u)
    ensures DistinctOrgs(t) ==> Get(u, org) == Get(t, org) + points
    ensures forall o :: o != org ==> Get(u, o) == Get(t, o)
  {
    if t == [] then [(org, points)]
    else if t[0].0 == org then
      FirstNotInRest(t);
      [(org, t[0].1 + points)] + t[1..]
    else
      var rest := Credit(t[1..], org, points);
      FirstNotInRest(t);
      DistinctCons(t[0], rest);
      [t[0]] + rest
  }

  lemma {:induction false} OrgsMember(t: Totals, i: int)
    requires 0 <= i < |t|
    ensures t[i].0 in Orgs(t)
  {
    if i > 0 {
      OrgsMember(t[1..], i - 1);
    }
  }

  lemma {:induction false} NotInOrgs(t: Totals, o: nat)
    requires forall i :: 0 <= i < |t| ==> t[i].0 != o
    ensures o !in Orgs(t)
  {
    if t != [] {
      NotInOrgs(t[1..], o);
    }
  }

  lemma FirstNotInRest(t: Totals)
    requires t != []
    ensures DistinctOrgs(t) ==> t[0].0 !in Orgs(t[1..]) && DistinctOrgs(t[1..])
  {
    if DistinctOrgs(t) {
      NotInOrgs(t[1..], t[0].0);
    }
  }

  lemma DistinctCons(e: (nat, int), t: Totals)
    ensures e.0 !in Orgs(t) && DistinctOrgs(t) ==> DistinctOrgs([e] + t)
  {
    if e.0 !in Orgs(t) && DistinctOrgs(t) {
      forall j | 0 <= j < |t|
        ensures t[j].0 != e.0
      {
        OrgsMember(t, j);
      }
    }
  }

  /** The loop's variables: `data_dict`, `max_position` and the current
      (competition, category) pair, `None` before the first row. */
  datatype Tally = Tally(totals: Totals, cap: int, group: Option<(nat, nat)>)

  const Start: Tally := Tally([], StartCap, None)

  /** A non-external result of the table with the same competition,
      category and position. */
  predicate InternalPeer(table: seq<Row>, r: Row) {
    exists q :: q in table && q.competition == r.competition
      && q.category == r.category && q.position == r.position && !q.external
  }

  /** One iteration of the loop over the selected rows. */
  function Step(table: seq<Row>, t: Tally, r: Row): Tally
    requires r.position.Some?
  {
    var group := Some((r.competition, r.category));
    var cap := if t.group == group then t.cap else StartCap;
    if r.external then
      Tally(t.totals, if InternalPeer(table, r) then cap else cap + 1, group)
    else if r.position.value <= cap then
      Tally(Credit(t.totals, r.organization, cap - r.position.value + 1), cap, group)
    else
      Tally(t.totals, cap, group)
  }

  /** The loop as a left fold over the rows. */
  function Fold(table: seq<Row>, t: Tally, rows: seq<Row>): Tally
    requires Placed(rows)
    decreases |rows|
  {
    if rows == [] then t
    else Fold(table, Step(table, t, rows[0]), rows[1..])
  }

  lemma PlacedTail(rows: seq<Row>)
    requires Placed(rows) && rows != []
    ensures Placed(rows[1..])
  {
    assert forall k :: 0 <= k < |rows| - 1 ==> rows[1..][k] == rows[k + 1];
  }

  /** The points of every organisation after the loop. */
  function Points(table: seq<Row>, rows: seq<Row>): Totals
    requires Placed(rows)
  {
    Fold(table, Start, rows).totals
  }

  /** Values never increase along the list. */
  predicate Descending(t: Totals) {
    forall i, j :: 0 <= i < j < |t| ==> t[i].1 >= t[j].1
  }

  /** Places an entry after the entries with a larger value. */
  function Insert(e: (nat, int), s: Totals): (r: Totals)
    ensures multiset(r) == multiset(s) + multiset{e}
    ensures forall x :: x in r <==> x == e || x in s
    ensures Descending(s) ==> Descending(r)
  {
    if s == [] then [e]
    else if s[0].1 > e.1 then
      var rest := Insert(e, s[1..]);
      assert s == [s[0]] + s[1..];
      assert multiset([s[0]] + rest) == multiset{s[0]} + multiset(rest);
      assert multiset(s) == multiset{s[0]} + multiset(s[1..]);
      HeadDescending(s, e, rest);
      [s[0]] + rest
    else
      [e] + s
  }

  /** A descending list stays descending under a head no smaller than the rest. */
  lemma HeadDescending(s: Totals, e: (nat, int), rest: Totals)
    requires s != []
    requires forall x :: x in rest ==> x == e || x in s[1..]
    requires e.1 <= s[0].1
    ensures Descending(s) && Descending(rest) ==> Descending([s[0]] + rest)
  {
    if Descending(s) && Descending(rest) {
      forall k | 0 <= k < |rest|
        ensures s[0].1 >= rest[k].1
      {
        assert rest[k] in rest;
        if rest[k] != e {
          var j :| 0 <= j < |s[1..]| && s[1..][j] == rest[k];
          assert s[j + 1] == rest[k];
        }
      }
      var r := [s[0]] + rest;
      forall i, j | 0 <= i < j < |r|
        ensures r[i].1 >= r[j].1
      {
        if i > 0 {
          assert r[i] == rest[i - 1] && r[j] == rest[j - 1];
        } else {
          assert r[j] == rest[j - 1];
        }
      }
    }
  }

  /** `sorted(data_dict.items(), key=value, reverse=True)`. */
  function Rank(t: Totals): (r: Totals)
    ensures multiset(r) == multiset(t)
    ensures Descending(r)
  {
    if t == [] then []
    else
      assert t == [t[0]] + t[1..];
      Insert(t[0], Rank(t[1..]))
  }

  datatype Response = Forbidden | Ranking(entries: Totals)

  /** The view: staff only; the points of the SM competitions of `year`,
      largest first. `table` is the result table; the database returns the
      selected rows with the rows of each competition and category
      together, by ascending position. */
  method PohjolanMalja(user: User, table: seq<Row>, year: int) returns (response: Response)
    requires QueryOrdered(Selected(table, year))
    ensures !IsStaff(user) <==> response == Forbidden
    ensures IsStaff(user) ==> response == Ranking(Rank(Points(table, Selected(table, year))))
    ensures IsStaff(user) ==> forall e :: e in response.entries ==>
      e.1 == Expected(table, Selected(table, year), |Selected(table, year)|, e.0)
    ensures IsStaff(user) ==> forall org :: (forall e :: e in response.entries ==> e.0 != org) ==>
      Expected(table, Selected(table, year), |Selected(table, year)|, org) == 0
  {
    if !IsStaff(user) {
      return Forbidden;
    }
    var rows := Selected(table, year);
    var totals: Totals := [];
    var cap := StartCap;
    var group: Option<(nat, nat)> := None;
    ghost var goal := Fold(table, Start, rows);
    var rest := rows;
    while rest != []
      invariant Placed(rest)
      invariant Fold(table, Tally(totals, cap, group), rest) == goal
      decreases |rest|
    {
      var r := rest[0];
      ghost var before := Tally(totals, cap, group);
      if group != Some((r.competition, r.category)) {
        cap := StartCap;
        group := Some((r.competition, r.category));
      }
      if r.external {
        if !InternalPeer(table, r) {
          cap := cap + 1;
        }
      } else if r.position.value <= cap {
        totals := Credit(totals, r.organization, cap - r.position.value + 1);
      }
      assert Tally(totals, cap, group) == Step(table, before, r);
      PlacedTail(rest);
      rest := rest[1..];
    }
    assert FromTable(table, rows) by {
      assert forall i :: 0 <= i < |rows| ==> rows[i] in rows;
    }
    RankingMatches(table, rows);
    return Ranking(Rank(totals));
  }

  /** Each organisation appears once in the totals. */
  lemma {:induction false} FoldDistinct(table: seq<Row>, t: Tally, rows: seq<Row>)
    requires Placed(rows) && DistinctOrgs(t.totals)
    ensures DistinctOrgs(Fold(table, t, rows).totals)
    decreases |rows|
  {
    if rows != [] {
      FoldDistinct(table, Step(table, t, rows[0]), rows[1..]);
    }
  }

  lemma PointsDistinct(table: seq<Row>, rows: seq<Row>)
    requires Placed(rows)
    ensures DistinctOrgs(Points(table, rows))
  {
    FoldDistinct(table, Start, rows);
  }

  /** The reference count without external results: a result at
      position p <= 8 earns 9 - p points for its organisation. */
  function Reference(rows: seq<Row>, org: nat): int
    requires Placed(rows)
  {
    if rows == [] then 0
    else
      var r := rows[0];
      (if r.organization == org && r.position.value <= StartCap
       then StartCap - r.position.value + 1 else 0)
      + Reference(rows[1..], org)
  }

  predicate NoExternal(rows: seq<Row>) {
    forall i :: 0 <= i < |rows| ==> !rows[i].external
  }

  lemma {:induction false} FoldWithoutExternal(table: seq<Row>, t: Tally, rows: seq<Row>, org: nat)
    requires Placed(rows) && NoExternal(rows)
    requires t.cap == StartCap && DistinctOrgs(t.totals)
    ensures Fold(table, t, rows).cap == StartCap
    ensures Get(Fold(table, t, rows).totals, org) == Get(t.totals, org) + Reference(rows, org)
    decreases |rows|
  {
    if rows != [] {
      var next := Step(table, t, rows[0]);
      assert next.cap == StartCap;
      assert Get(next.totals, org) == Get(t.totals, org)
        + (if rows[0].organization == org && rows[0].position.value <= StartCap
           then StartCap - rows[0].position.value + 1 else 0);
      FoldDistinct(table, t, [rows[0]]);
      assert Fold(table, t, [rows[0]]) == next;
      FoldWithoutExternal(table, next, rows[1..], org);
    }
  }

  /** Without external results the cap never moves: every organisation's
      points are the sum of 9 - p over its results at positions p <= 8. */
  lemma WithoutExternalPoints(table: seq<Row>, rows: seq<Row>, org: nat)
    requires Placed(rows) && NoExternal(rows)
    ensures Get(Points(table, rows), org) == Reference(rows, org)
  {
    FoldWithoutExternal(table, Start, rows, org);
  }

  /** An organisation that scores nothing never enters the totals. */
  lemma {:induction false} FoldOrgs(table: seq<Row>, t: Tally, rows: seq<Row>, org: nat)
    requires Placed(rows)
    requires forall i :: 0 <= i < |rows| ==> rows[i].organization != org || rows[i].external
    ensures org in Orgs(Fold(table, t, rows).totals) <==> org in Orgs(t.totals)
    decreases |rows|
  {
    if rows != [] {
      FoldOrgs(table, Step(table, t, rows[0]), rows[1..], org);
    }
  }

  lemma ExternalOrganizationAbsent(table: seq<Row>, rows: seq<Row>, org: nat)
    requires Placed(rows)
    requires forall i :: 0 <= i < |rows| ==> rows[i].organization != org || rows[i].external
    ensures org !in Orgs(Points(table, rows))
  {
    FoldOrgs(table, Start, rows, org);
  }

  // ---------------------------------------------------------------------
  // The moving cap over rows in query order
  // ---------------------------------------------------------------------

  /** The position of a row, 0 when it has none. */
  function Pos(r: Row): int {
    if r.position.Some? then r.position.value else 0
  }

  /** The (competition, category) group of a row. */
  function GroupOf(r: Row): (nat, nat) {
    (r.competition, r.category)
  }

  /** The rows of one competition and category come together.
      `order_by("competition", "category", ...)` sorts by the related
      models' own orderings (a competition by descending start date and
      name, a category by sport, order, team and name), not by id, so the
      groups themselves may come in any order. */
  predicate GroupsTogether(rows: seq<Row>) {
    forall i, j, k :: 0 <= i < j < k < |rows| && GroupOf(rows[i]) == GroupOf(rows[k])
      ==> GroupOf(rows[j]) == GroupOf(rows[i])
  }

  /** Inside a group the rows come by ascending position. The result value
      only orders rows that share a group and a position, and it is not a
      column of `Row`. */
  predicate PositionsAscend(rows: seq<Row>) {
    forall i, j :: 0 <= i < j < |rows| && GroupOf(rows[i]) == GroupOf(rows[j])
      ==> Pos(rows[i]) <= Pos(rows[j])
  }

  /** The rows come in the query's order, as far as the loop depends on it. */
  predicate QueryOrdered(rows: seq<Row>) {
    GroupsTogether(rows) && PositionsAscend(rows)
  }

  /** Every row of the query is a row of the table. */
  predicate FromTable(table: seq<Row>, rows: seq<Row>) {
    forall i :: 0 <= i < |rows| ==> rows[i] in table
  }

  /** An external result with no non-external result at its place: it
      gives one more place to the points. */
  predicate Unpeered(table: seq<Row>, r: Row) {
    r.external && !InternalPeer(table, r)
  }

  /** The unpeered external rows of group `g` among `rows[..n]` that are
      placed before position `p`. */
  function Ahead(table: seq<Row>, rows: seq<Row>, n: nat, g: (nat, nat), p: int): nat
    requires n <= |rows|
  {
    if n == 0 then 0
    else
      Ahead(table, rows, n - 1, g, p)
      + (if GroupOf(rows[n - 1]) == g && Unpeered(table, rows[n - 1]) && Pos(rows[n - 1]) < p then 1 else 0)
  }

  /** The points row `rows[i]` earns for its organisation: none for an
      external result. A result at position p of group g, with E unpeered
      external results of g placed before it, earns max(0, 8 + E - p + 1). */
  function Earned(table: seq<Row>, rows: seq<Row>, i: nat): int
    requires i < |rows|
  {
    var r := rows[i];
    if r.external then 0
    else
      var points := StartCap + Ahead(table, rows, |rows|, GroupOf(r), Pos(r)) - Pos(r) + 1;
      if points > 0 then points else 0
  }

  /** The reference count: what the rows among `rows[..n]` of organisation
      `org` earn. */
  function Expected(table: seq<Row>, rows: seq<Row>, n: nat, org: nat): int
    requires n <= |rows|
  {
    if n == 0 then 0
    else
      Expected(table, rows, n - 1, org)
      + (if rows[n - 1].organization == org then Earned(table, rows, n - 1) else 0)
  }

  /** The unpeered external rows of group `g` among `rows[..n]`, at any
      position. */
  function Raised(table: seq<Row>, rows: seq<Row>, n: nat, g: (nat, nat)): nat
    requires n <= |rows|
  {
    if n == 0 then 0
    else
      Raised(table, rows, n - 1, g)
      + (if GroupOf(rows[n - 1]) == g && Unpeered(table, rows[n - 1]) then 1 else 0)
  }

  /** A non-external row is not ahead of itself, and the rows after it in
      its group are placed no earlier. */
  lemma {:induction false} AheadStops(table: seq<Row>, rows: seq<Row>, i: nat, n: nat)
    requires QueryOrdered(rows) && i <= n <= |rows| && i < |rows| && !rows[i].external
    ensures Ahead(table, rows, n, GroupOf(rows[i]), Pos(rows[i]))
         == Ahead(table, rows, i, GroupOf(rows[i]), Pos(rows[i]))
    decreases n
  {
    if n > i {
      AheadStops(table, rows, i, n - 1);
    }
  }

  /** Before a non-external row, every unpeered external row of its group
      is placed strictly before it: one at the same place would have the
      row itself as its peer. */
  lemma {:induction false} AheadIsRaised(table: seq<Row>, rows: seq<Row>, i: nat, n: nat)
    requires Placed(rows) && QueryOrdered(rows) && FromTable(table, rows)
    requires n <= i < |rows| && !rows[i].external
    ensures Ahead(table, rows, n, GroupOf(rows[i]), Pos(rows[i])) == Raised(table, rows, n, GroupOf(rows[i]))
    decreases n
  {
    if n > 0 {
      AheadIsRaised(table, rows, i, n - 1);
      var q := rows[n - 1];
      if GroupOf(q) == GroupOf(rows[i]) && Unpeered(table, q) {
        assert rows[i] in table;
        assert Pos(q) < Pos(rows[i]);
      }
    }
  }

  /** The groups come one after another: when the group changes at row
      `i`, no earlier row belongs to the new group. */
  lemma {:induction false} FreshGroup(table: seq<Row>, rows: seq<Row>, i: nat, n: nat)
    requires QueryOrdered(rows) && 0 < i < |rows| && n <= i
    requires GroupOf(rows[i - 1]) != GroupOf(rows[i])
    ensures Raised(table, rows, n, GroupOf(rows[i])) == 0
    decreases n
  {
    if n > 0 {
      FreshGroup(table, rows, i, n - 1);
      assert GroupOf(rows[n - 1]) != GroupOf(rows[i]);
    }
  }

  /** The loop's variables after the first `i` rows: the organisation's
      points so far, and the cap of the current group moved by its
      unpeered external rows. */
  predicate After(table: seq<Row>, rows: seq<Row>, i: nat, t: Tally, org: nat)
    requires i <= |rows|
  {
    && DistinctOrgs(t.totals)
    && Get(t.totals, org) == Expected(table, rows, i, org)
    && (i == 0 ==> t.group.None?)
    && (i > 0 ==> t.group == Some(GroupOf(rows[i - 1]))
                  && t.cap == StartCap + Raised(table, rows, i, GroupOf(rows[i - 1])))
  }

  lemma StepAfter(table: seq<Row>, rows: seq<Row>, i: nat, t: Tally, org: nat)
    requires Placed(rows) && QueryOrdered(rows) && FromTable(table, rows)
    requires i < |rows| && After(table, rows, i, t, org)
    ensures After(table, rows, i + 1, Step(table, t, rows[i]), org)
  {
    var r := rows[i];
    var g := GroupOf(r);
    if i > 0 && GroupOf(rows[i - 1]) != g {
      FreshGroup(table, rows, i, i);
    }
    assert (if t.group == Some(g) then t.cap else StartCap) == StartCap + Raised(table, rows, i, g);
    if !r.external {
      AheadStops(table, rows, i, |rows|);
      AheadIsRaised(table, rows, i, i);
    }
  }

  lemma {:induction false} FoldAfter(table: seq<Row>, rows: seq<Row>, i: nat, t: Tally, org: nat)
    requires Placed(rows) && QueryOrdered(rows) && FromTable(table, rows)
    requires i <= |rows| && After(table, rows, i, t, org)
    ensures Placed(rows[i..])
    ensures Get(Fold(table, t, rows[i..]).totals, org) == Expected(table, rows, |rows|, org)
    decreases |rows| - i
  {
    if i < |rows| {
      StepAfter(table, rows, i, t, org);
      FoldAfter(table, rows, i + 1, Step(table, t, rows[i]), org);
      assert rows[i..][0] == rows[i] && rows[i..][1..] == rows[i + 1..];
    }
  }

  /** The moving cap, for every table whose groups come together by
      ascending position: each organisation gets exactly the reference
      count, where a result at position p earns max(0, 8 + E - p + 1) and
      E is the number of unpeered external results of its competition and
      category placed before it. */
  lemma MovingCap(table: seq<Row>, rows: seq<Row>, org: nat)
    requires Placed(rows) && QueryOrdered(rows) && FromTable(table, rows)
    ensures Get(Points(table, rows), org) == Expected(table, rows, |rows|, org)
  {
    FoldAfter(table, rows, 0, Start, org);
    assert rows[0..] == rows;
  }

  /** The points of an organisation listed in the totals are its entry. */
  lemma {:induction false} GetMember(t: Totals, e: (nat, int))
    requires DistinctOrgs(t) && e in t
    ensures Get(t, e.0) == e.1
  {
    if t[0] != e {
      assert e in t[1..];
      FirstNotInRest(t);
      var k :| 0 <= k < |t[1..]| && t[1..][k] == e;
      OrgsMember(t[1..], k);
      GetMember(t[1..], e);
    }
  }

  /** The ranking lists every organisation with its reference count, and an
      organisation it leaves out has a reference count of 0. */
  lemma RankingMatches(table: seq<Row>, rows: seq<Row>)
    requires Placed(rows) && QueryOrdered(rows) && FromTable(table, rows)
    ensures forall e :: e in Rank(Points(table, rows)) ==> e.1 == Expected(table, rows, |rows|, e.0)
    ensures forall org :: (forall e :: e in Rank(Points(table, rows)) ==> e.0 != org) ==>
      Expected(table, rows, |rows|, org) == 0
  {
    var totals := Points(table, rows);
    var ranked := Rank(totals);
    PointsDistinct(table, rows);
    forall e | e in ranked
      ensures e.1 == Expected(table, rows, |rows|, e.0)
    {
      assert e in multiset(ranked);
      assert e in totals;
      GetMember(totals, e);
      MovingCap(table, rows, e.0);
    }
    forall org | forall e :: e in ranked ==> e.0 != org
      ensures Expected(table, rows, |rows|, org) == 0
    {
      forall i | 0 <= i < |totals|
        ensures totals[i].0 != org
      {
        assert totals[i] in multiset(totals);
        assert totals[i] in ranked;
      }
      NotInOrgs(totals, org);
      AbsentGet(totals, org);
      MovingCap(table, rows, org);
    }
  }

  function Sm(competition: nat, category: nat, position: int, org: nat, external: bool): Row {
    Row(competition, category, CountedLevel, 2020, Some(position), org, external)
  }

  /** Organisation 1 at positions 1, 5 and 15 and organisation 2 at 9 and
      5, in one competition, each result in a category of its own (the
      test's result factory makes a new category for every result), in
      the order they are created. */
  const ExampleRows: seq<Row> := [
    Sm(1, 1, 1, 1, false), Sm(1, 2, 5, 1, false), Sm(1, 3, 15, 1, false),
    Sm(1, 4, 9, 2, false), Sm(1, 5, 5, 2, false)]

  /** Selecting from rows that all pass the filter keeps them all. */
  lemma {:induction false} SelectedAll(rows: seq<Row>, year: int)
    requires forall i :: 0 <= i < |rows| ==> Counted(year, rows[i])
    ensures Selected(rows, year) == rows
    decreases |rows|
  {
    if rows != [] {
      SelectedAll(rows[1..], year);
    }
  }

  lemma ExampleTotals()
    ensures Points(ExampleRows, ExampleRows) == [(1, 12), (2, 4)]
  {
    var t1 := Step(ExampleRows, Start, ExampleRows[0]);
    assert t1 == Tally([(1, 8)], 8, Some((1, 1)));
    var t2 := Step(ExampleRows, t1, ExampleRows[1]);
    assert t2 == Tally([(1, 12)], 8, Some((1, 2)));
    var t3 := Step(ExampleRows, t2, ExampleRows[2]);
    assert t3 == Tally([(1, 12)], 8, Some((1, 3)));
    var t4 := Step(ExampleRows, t3, ExampleRows[3]);
    assert t4 == Tally([(1, 12)], 8, Some((1, 4)));
    var t5 := Step(ExampleRows, t4, ExampleRows[4]);
    assert t5 == Tally([(1, 12), (2, 4)], 8, Some((1, 5)));
    assert ExampleRows[4..] == [ExampleRows[4]];
    assert Fold(ExampleRows, t4, ExampleRows[4..]) == t5;
    assert ExampleRows[3..] == [ExampleRows[3]] + ExampleRows[4..];
    assert Fold(ExampleRows, t3, ExampleRows[3..]) == t5;
    assert ExampleRows[2..] == [ExampleRows[2]] + ExampleRows[3..];
    assert Fold(ExampleRows, t2, ExampleRows[2..]) == t5;
    assert ExampleRows[1..] == [ExampleRows[1]] + ExampleRows[2..];
    assert Fold(ExampleRows, t1, ExampleRows[1..]) == t5;
  }

  /** Organisation 1 earns 8 + 4 points and organisation 2 earns 4. */
  lemma PointsExample()
    ensures Rank(Points(ExampleRows, Selected(ExampleRows, 2020))) == [(1, 12), (2, 4)]
  {
    ExampleCounted();
    SelectedAll(ExampleRows, 2020);
    ExampleTotals();
    ExampleRank();
  }

  lemma ExampleCounted()
    ensures forall i :: 0 <= i < |ExampleRows| ==> Counted(2020, ExampleRows[i])
  {
  }

  lemma ExampleRank()
    ensures Rank([(1, 12), (2, 4)]) == [(1, 12), (2, 4)]
  {
    var t: Totals := [(1, 12), (2, 4)];
    assert t[1..] == [(2, 4)];
    assert t[1..][1..] == [];
    assert Rank(t[1..]) == [(2, 4)];
  }

  /** Two external results ahead of organisation 1 in category 1 raise the
      cap to 10, so its third place earns 8; in category 2 the cap is back
      at 8 and its third place earns 6. */
  const ResetRows: seq<Row> := [
    Sm(1, 1, 1, 9, true), Sm(1, 1, 2, 9, true), Sm(1, 1, 3, 1, false),
    Sm(1, 2, 3, 1, false)]

  lemma CapResetsPerCategory()
    ensures Points(ResetRows, ResetRows) == [(1, 14)]
  {
    assert !InternalPeer(ResetRows, ResetRows[0]);
    assert !InternalPeer(ResetRows, ResetRows[1]);
    var t1 := Step(ResetRows, Start, ResetRows[0]);
    assert t1 == Tally([], 9, Some((1, 1)));
    var t2 := Step(ResetRows, t1, ResetRows[1]);
    assert t2 == Tally([], 10, Some((1, 1)));
    var t3 := Step(ResetRows, t2, ResetRows[2]);
    assert t3 == Tally([(1, 8)], 10, Some((1, 1)));
    var t4 := Step(ResetRows, t3, ResetRows[3]);
    assert t4 == Tally([(1, 14)], 8, Some((1, 2)));
    assert ResetRows[3..] == [ResetRows[3]];
    assert ResetRows[2..] == [ResetRows[2], ResetRows[3]];
  }

  /** An external result that shares its place with a non-external one
      does not raise the cap: the next place earns 7. */
  const SharedRows: seq<Row> := [
    Sm(1, 1, 1, 2, false), Sm(1, 1, 1, 9, true), Sm(1, 1, 2, 1, false)]

  lemma SharedPlaceKeepsCap()
    ensures Points(SharedRows, SharedRows) == [(2, 8), (1, 7)]
  {
    assert SharedRows[0] in SharedRows;
    assert InternalPeer(SharedRows, SharedRows[1]);
    var t1 := Step(SharedRows, Start, SharedRows[0]);
    assert t1 == Tally([(2, 8)], 8, Some((1, 1)));
    var t2 := Step(SharedRows, t1, SharedRows[1]);
    assert t2 == t1;
    var t3 := Step(SharedRows, t2, SharedRows[2]);
    assert t3 == Tally([(2, 8), (1, 7)], 8, Some((1, 1)));
    assert SharedRows[2..] == [SharedRows[2]];
    assert SharedRows[1..] == [SharedRows[1], SharedRows[2]];
  }

  /** A competition with a later start date comes first in the query
      whatever its id: the order is admitted. */
  lemma LaterCompetitionFirst()
    ensures QueryOrdered([Sm(2, 1, 1, 1, false), Sm(1, 1, 1, 2, false)])
  {
  }

  /** Competitions 1 and 2 tie on start date and name, so the query may
      interleave their rows of category 1. The loop then resets the cap
      on every change of competition: the external result of competition 1
      no longer raises it, and organisation 2 gets 7 points for its second
      place where the reference count gives 8. */
  const InterleavedRows: seq<Row> := [
    Sm(1, 1, 1, 9, true), Sm(2, 1, 1, 1, false), Sm(1, 1, 2, 2, false)]

  lemma InterleavedGroups()
    ensures !GroupsTogether(InterleavedRows)
    ensures Get(Points(InterleavedRows, InterleavedRows), 2) == 7
    ensures Expected(InterleavedRows, InterleavedRows, |InterleavedRows|, 2) == 8
  {
    assert GroupOf(InterleavedRows[0]) == GroupOf(InterleavedRows[2]);
    assert !InternalPeer(InterleavedRows, InterleavedRows[0]);
    var t1 := Step(InterleavedRows, Start, InterleavedRows[0]);
    assert t1 == Tally([], 9, Some((1, 1)));
    var t2 := Step(InterleavedRows, t1, InterleavedRows[1]);
    assert t2 == Tally([(1, 8)], 8, Some((2, 1)));
    var t3 := Step(InterleavedRows, t2, InterleavedRows[2]);
    assert t3 == Tally([(1, 8), (2, 7)], 8, Some((1, 1)));
    assert InterleavedRows[2..] == [InterleavedRows[2]];
    assert InterleavedRows[1..] == [InterleavedRows[1], InterleavedRows[2]];
    assert Ahead(InterleavedRows, InterleavedRows, 3, (1, 1), 2) == 1;
  }
}
