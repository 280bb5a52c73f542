/** Which categories and record levels a result can hold a record in
    (results/utils/records.py: _get_ages, _get_gender, get_categories and
    the record level filters of the check functions). */
module Eligibility {
  import opened Common
  import opened Domain

  /** The athletes a result stands for: the team members of a team result,
      otherwise its single athlete. */
  function Athletes(r: Result): seq<Athlete> {
    if r.team then r.teamMembers
    else if r.athlete.Some? then [r.athlete.value] else []
  }

  // ---------------------------------------------------------------------
  // Ages
  // ---------------------------------------------------------------------

  /** Calendar-year ages in `year` of the athletes that have a birth date, in order. */
  function DatedAges(athletes: seq<Athlete>, year: int): (ages: seq<int>)
    ensures |ages| <= |athletes|
    ensures ages == [] <==> forall i :: 0 <= i < |athletes| ==> athletes[i].dateOfBirth.None?
  {
    if athletes == [] then []
    else
      var rest := DatedAges(athletes[1..], year);
      assert forall i :: 1 <= i < |athletes| ==> athletes[i] == athletes[1..][i - 1];
      (if athletes[0].dateOfBirth.Some? then [year - athletes[0].dateOfBirth.value.year] else []) + rest
  }

  /** One iteration of the age loop. An accumulator holding 0 counts as
      unset, because the source tests it with `not`. */
  function AgeStep(acc: (Option<int>, Option<int>), age: int): (Option<int>, Option<int>) {
    (if !Truthy(acc.0) || acc.0.value < age then Some(age) else acc.0,
     if !Truthy(acc.1) || acc.1.value > age then Some(age) else acc.1)
  }

  function AgesFold(acc: (Option<int>, Option<int>), ages: seq<int>): (Option<int>, Option<int>)
    decreases |ages|
  {
    if ages == [] then acc else AgesFold(AgeStep(acc, ages[0]), ages[1..])
  }

  /** (oldest, youngest) calendar-year age of the result's athletes. */
  function AgesOf(r: Result): (Option<int>, Option<int>) {
    AgesFold((None, None), DatedAges(Athletes(r), r.competition.dateStart.year))
  }

  /** _get_ages: the loop over the athletes. */
  method GetAges(r: Result) returns (maxAge: Option<int>, minAge: Option<int>)
    ensures (maxAge, minAge) == AgesOf(r)
  {
    var athletes := Athletes(r);
    var year := r.competition.dateStart.year;
    maxAge, minAge := None, None;
    var i := 0;
    while i < |athletes|
      invariant 0 <= i <= |athletes|
      invariant AgesFold((maxAge, minAge), DatedAges(athletes[i..], year)) == AgesOf(r)
    {
      var athlete := athletes[i];
      assert athletes[i..][1..] == athletes[i + 1..];
      var rest := DatedAges(athletes[i + 1..], year);
      if athlete.dateOfBirth.Some? {
        var age := year - athlete.dateOfBirth.value.year;
        assert DatedAges(athletes[i..], year) == [age] + rest;
        assert ([age] + rest)[1..] == rest;
        assert AgesFold((maxAge, minAge), [age] + rest) == AgesFold(AgeStep((maxAge, minAge), age), rest);
        if !Truthy(maxAge) || maxAge.value < age {
          maxAge := Some(age);
        }
        if !Truthy(minAge) || minAge.value > age {
          minAge := Some(age);
        }
      } else {
        assert DatedAges(athletes[i..], year) == rest;
      }
      i := i + 1;
    }
    assert athletes[i..] == [];
  }

  /** Once set, an accumulator stays set; it is set iff some age was seen. */
  lemma {:induction false} AgesFoldDefined(acc: (Option<int>, Option<int>), ages: seq<int>)
    ensures AgesFold(acc, ages).0.None? <==> acc.0.None? && ages == []
    ensures AgesFold(acc, ages).1.None? <==> acc.1.None? && ages == []
    decreases |ages|
  {
    if ages != [] {
      AgesFoldDefined(AgeStep(acc, ages[0]), ages[1..]);
    }
  }

  /** Without a zero age the fold computes the true maximum and minimum. */
  lemma {:induction false} AgesFoldExtremes(acc: (Option<int>, Option<int>), ages: seq<int>)
    requires forall a :: a in ages ==> a != 0
    requires acc.0.Some? ==> acc.0.value != 0
    requires acc.1.Some? ==> acc.1.value != 0
    ensures var res := AgesFold(acc, ages);
      res.0.Some? ==>
        (forall a :: a in ages ==> a <= res.0.value)
        && (acc.0.Some? ==> acc.0.value <= res.0.value)
        && (res.0 == acc.0 || res.0.value in ages)
    ensures var res := AgesFold(acc, ages);
      res.1.Some? ==>
        (forall a :: a in ages ==> res.1.value <= a)
        && (acc.1.Some? ==> res.1.value <= acc.1.value)
        && (res.1 == acc.1 || res.1.value in ages)
    decreases |ages|
  {
    if ages != [] {
      var next := AgeStep(acc, ages[0]);
      assert ages[0] in ages;
      assert forall a :: a in ages[1..] ==> a in ages;
      AgesFoldExtremes(next, ages[1..]);
      AgesFoldDefined(next, ages[1..]);
      assert forall a :: a in ages ==> a == ages[0] || a in ages[1..];
    }
  }

  /** _get_ages returns (None, None) exactly when no athlete has a birth
      date; when no athlete's calendar-year age is 0 it returns the oldest
      and the youngest age. */
  lemma AgesOfSpec(r: Result)
    ensures var ages := DatedAges(Athletes(r), r.competition.dateStart.year);
      (AgesOf(r).0.None? <==> ages == []) && (AgesOf(r).1.None? <==> ages == [])
    ensures var ages := DatedAges(Athletes(r), r.competition.dateStart.year);
      (forall a :: a in ages ==> a != 0) && ages != [] ==>
        AgesOf(r).0.Some? && AgesOf(r).0.value in ages && (forall a :: a in ages ==> a <= AgesOf(r).0.value)
        && AgesOf(r).1.Some? && AgesOf(r).1.value in ages && (forall a :: a in ages ==> AgesOf(r).1.value <= a)
  {
    var ages := DatedAges(Athletes(r), r.competition.dateStart.year);
    AgesFoldDefined((None, None), ages);
    if (forall a :: a in ages ==> a != 0) && ages != [] {
      AgesFoldExtremes((None, None), ages);
    }
  }

  // ---------------------------------------------------------------------
  // Gender
  // ---------------------------------------------------------------------

  predicate HasSex(athletes: seq<Athlete>, s: Sex) {
    exists i :: 0 <= i < |athletes| && athletes[i].gender == Some(s)
  }

  /** The gender a group of athletes resolves to. */
  function GenderOf(athletes: seq<Athlete>): Option<Sex> {
    if HasSex(athletes, M) && !HasSex(athletes, W) then Some(M)
    else if !HasSex(athletes, M) && HasSex(athletes, W) then Some(W)
    else None
  }

  /** _get_gender: collects the non-empty genders, then decides. */
  method GetGender(r: Result) returns (gender: Option<Sex>)
    ensures gender == GenderOf(Athletes(r))
    ensures gender == Some(M) <==> HasSex(Athletes(r), M) && !HasSex(Athletes(r), W)
    ensures gender == Some(W) <==> HasSex(Athletes(r), W) && !HasSex(Athletes(r), M)
    ensures gender.None? <==> (HasSex(Athletes(r), M) <==> HasSex(Athletes(r), W))
  {
    var athletes := Athletes(r);
    var genderList: seq<Sex> := [];
    var i := 0;
    while i < |athletes|
      invariant 0 <= i <= |athletes|
      invariant forall s :: s in genderList <==> exists j :: 0 <= j < i && athletes[j].gender == Some(s)
    {
      if athletes[i].gender.Some? {
        genderList := genderList + [athletes[i].gender.value];
      }
      i := i + 1;
    }
    if M in genderList && W !in genderList {
      gender := Some(M);
    } else if M !in genderList && W in genderList {
      gender := Some(W);
    } else {
      gender := None;
    }
  }

  // ---------------------------------------------------------------------
  // Categories
  // ---------------------------------------------------------------------

  /** `CategoryForCompetitionType.objects.filter(type=..., category=...).first()`. */
  function FindCheck(checks: seq<CategoryCheck>, ctype: nat, category: nat): (c: Option<CategoryCheck>)
    ensures c.None? <==> forall i :: 0 <= i < |checks| ==> !(checks[i].ctype == ctype && checks[i].category == category)
    ensures c.Some? ==> c.value in checks && c.value.ctype == ctype && c.value.category == category
  {
    if checks == [] then None
    else if checks[0].ctype == ctype && checks[0].category == category then Some(checks[0])
    else
      var rest := FindCheck(checks[1..], ctype, category);
      assert forall i :: 1 <= i < |checks| ==> checks[i] == checks[1..][i - 1];
      rest
  }

  /** What record-group broadening filters the category table by. */
  datatype Criteria = Criteria(
    maxAge: Option<int>,
    minAge: Option<int>,
    gender: Option<Sex>,
    sport: Option<nat>,
    team: bool,
    teamCount: int,
    ctype: nat,
    group: int)

  /** `Q(gender='') | Q(gender=gender)`; with an unresolved gender the second
      test is `gender IS NULL`. */
  predicate GenderAllows(g: CategoryGender, resolved: Option<Sex>) {
    g == AnyGender
    || (resolved.None? && g == NullGender)
    || (resolved.Some? && g == Only(resolved.value))
  }

  /** The category has a check row for the type in the given record group. */
  predicate LinkedToGroup(checks: seq<CategoryCheck>, category: nat, ctype: nat, group: int) {
    exists i :: 0 <= i < |checks| && checks[i].category == category && checks[i].ctype == ctype
                && checks[i].recordGroup == Some(group)
  }

  predicate Eligible(c: Category, k: Criteria, checks: seq<CategoryCheck>) {
    && GenderAllows(c.gender, k.gender)
    && c.sport == k.sport
    && c.team == k.team
    && (k.maxAge.None? || c.maxAge.None? || c.maxAge.value >= k.maxAge.value)
    && (k.minAge.None? || c.minAge.None? || c.minAge.value <= k.minAge.value)
    && (!k.team || c.teamSize.None? || c.teamSize == Some(k.teamCount))
    && LinkedToGroup(checks, c.id, k.ctype, k.group)
  }

  function CriteriaOf(r: Result, maxAge: Option<int>, minAge: Option<int>, gender: Option<Sex>, group: int): Criteria {
    Criteria(maxAge, minAge, gender, r.competition.ctype.sport, r.team, |r.teamMembers|,
             r.competition.ctype.id, group)
  }

  /** The categories of `table` broadening admits, in table order. */
  function Broaden(table: seq<Category>, k: Criteria, checks: seq<CategoryCheck>): (cs: seq<Category>)
    ensures forall c :: c in cs <==> c in table && Eligible(c, k, checks)
  {
    Filter(table, c => Eligible(c, k, checks))
  }

  /** The check row switches off record checking for this result or partial. */
  predicate Gated(check: CategoryCheck, partial: Option<ResultPartial>) {
    (partial.None? && !check.checkRecord)
    || (partial.Some? && !check.checkRecordPartial)
    || (partial.Some? && partial.value.ptype.id in check.limitPartial)
  }

  /** get_categories. `partial` is the partial result being checked, if any. */
  function Categories(r: Result, partial: Option<ResultPartial>, checks: seq<CategoryCheck>,
                      table: seq<Category>): seq<Category>
  {
    var check := FindCheck(checks, r.competition.ctype.id, r.category.id);
    if check.Some? && Gated(check.value, partial) then []
    else if check.None? || !Truthy(check.value.recordGroup) then [r.category]
    else
      var ages := AgesOf(r);
      Broaden(table, CriteriaOf(r, ages.0, ages.1, GenderOf(Athletes(r)), check.value.recordGroup.value), checks)
  }

  /** get_categories, as the source computes it: the gates, then the age
      and gender loops, then the filter. */
  method GetCategories(r: Result, partial: Option<ResultPartial>, checks: seq<CategoryCheck>,
                       table: seq<Category>) returns (cs: seq<Category>)
    ensures cs == Categories(r, partial, checks, table)
  {
    var check := FindCheck(checks, r.competition.ctype.id, r.category.id);
    if check.Some? && Gated(check.value, partial) {
      return [];
    }
    if check.None? || !Truthy(check.value.recordGroup) {
      return [r.category];
    }
    var maxAge, minAge := GetAges(r);
    var gender := GetGender(r);
    cs := Broaden(table, CriteriaOf(r, maxAge, minAge, gender, check.value.recordGroup.value), checks);
  }

  /** The three gates: a check row with record checking off, or a partial
      whose type is listed in limit_partial, yields no category at all. */
  lemma GatedCategoriesEmpty(r: Result, partial: Option<ResultPartial>, checks: seq<CategoryCheck>,
                             table: seq<Category>, i: int)
    requires 0 <= i < |checks| && checks[i].ctype == r.competition.ctype.id && checks[i].category == r.category.id
    requires forall j :: 0 <= j < i ==> !(checks[j].ctype == r.competition.ctype.id && checks[j].category == r.category.id)
    requires Gated(checks[i], partial)
    ensures Categories(r, partial, checks, table) == []
  {
    FindCheckIsFirst(checks, r.competition.ctype.id, r.category.id, i);
  }

  lemma {:induction false} FindCheckIsFirst(checks: seq<CategoryCheck>, ctype: nat, category: nat, i: int)
    requires 0 <= i < |checks| && checks[i].ctype == ctype && checks[i].category == category
    requires forall j :: 0 <= j < i ==> !(checks[j].ctype == ctype && checks[j].category == category)
    ensures FindCheck(checks, ctype, category) == Some(checks[i])
  {
    if i > 0 {
      FindCheckIsFirst(checks[1..], ctype, category, i - 1);
    }
  }

  /** Without a check row, or with an unset (NULL or 0) record group, the
      only category is the result's own. */
  lemma UngroupedIsOwnCategory(r: Result, partial: Option<ResultPartial>, checks: seq<CategoryCheck>,
                               table: seq<Category>)
    requires var check := FindCheck(checks, r.competition.ctype.id, r.category.id);
      check.None? || (!Gated(check.value, partial) && !Truthy(check.value.recordGroup))
    ensures Categories(r, partial, checks, table) == [r.category]
  {
  }

  /** Every category broadening admits agrees with the result on gender,
      sport, team flag, age span and team size, and shares its record group. */
  lemma BroadenedCategory(r: Result, partial: Option<ResultPartial>, checks: seq<CategoryCheck>,
                          table: seq<Category>, c: Category)
    requires var check := FindCheck(checks, r.competition.ctype.id, r.category.id);
      check.Some? && !Gated(check.value, partial) && Truthy(check.value.recordGroup)
    requires c in Categories(r, partial, checks, table)
    ensures c in table
    ensures GenderAllows(c.gender, GenderOf(Athletes(r)))
    ensures c.sport == r.competition.ctype.sport && c.team == r.team
    ensures AgesOf(r).0.Some? && c.maxAge.Some? ==> c.maxAge.value >= AgesOf(r).0.value
    ensures AgesOf(r).1.Some? && c.minAge.Some? ==> c.minAge.value <= AgesOf(r).1.value
    ensures r.team && c.teamSize.Some? ==> c.teamSize.value == |r.teamMembers|
    ensures LinkedToGroup(checks, c.id, r.competition.ctype.id,
                          FindCheck(checks, r.competition.ctype.id, r.category.id).value.recordGroup.value)
  {
  }

  // ---------------------------------------------------------------------
  // Record levels
  // ---------------------------------------------------------------------

  /** `Q(area=None) | Q(area__in=organization.areas.all())`. */
  predicate AreaAllows(l: RecordLevel, org: Option<Organization>) {
    l.area.None? || (org.Some? && l.area.value in org.value.areas)
  }

  /** The record level filter of check_team_records (team) and
      check_personal_records (not team). */
  predicate FullLevelMatches(l: RecordLevel, r: Result, team: bool) {
    && AreaAllows(l, r.organization)
    && r.competition.level in l.levels
    && r.competition.ctype.id in l.types
    && !l.historical
    && l.decimals == (r.decimals != 0)
    && l.base
    && (if team then l.team else l.personal)
  }

  /** The record level filter of check_records_partial; no decimals test. */
  predicate PartialLevelMatches(l: RecordLevel, parent: Result) {
    && AreaAllows(l, parent.organization)
    && parent.competition.level in l.levels
    && parent.competition.ctype.id in l.types
    && !l.historical
    && l.partial
  }

  function FullLevels(levels: seq<RecordLevel>, r: Result, team: bool): (ls: seq<RecordLevel>)
    ensures forall l :: l in ls <==> l in levels && FullLevelMatches(l, r, team)
  {
    Filter(levels, l => FullLevelMatches(l, r, team))
  }

  function PartialLevels(levels: seq<RecordLevel>, parent: Result): (ls: seq<RecordLevel>)
    ensures forall l :: l in ls <==> l in levels && PartialLevelMatches(l, parent)
  {
    Filter(levels, l => PartialLevelMatches(l, parent))
  }
}
