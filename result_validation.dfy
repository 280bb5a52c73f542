/** The validation helpers of the result serializers
    (results/serializers/results.py): ages, gender, team size and team
    status, duplicates, licence requirements, value limits and the checks
    of partial results. Each helper raises one error or passes; the model
    returns the error as an Outcome. */
module ResultValidation {
  import opened Common
  import opened Domain
  import opened Eligibility
  import ResultModel

  // ---------------------------------------------------------------------
  // Ages
  // ---------------------------------------------------------------------

  /** Python's comparison of (month, day) tuples. */
  predicate MonthDayBefore(a: Date, b: Date) {
    a.month < b.month || (a.month == b.month && a.day < b.day)
  }

  /** The date `n` years after `birth`, on the same month and day. */
  function Anniversary(birth: Date, n: int): Date {
    Date(birth.year + n, birth.month, birth.day)
  }

  /** `_age_difference`: in exact mode the completed years at the start of
      the competition (the year difference, less one before the birthday),
      otherwise the difference of the calendar years. */
  function AgeDifference(start: Date, birth: Date, exact: bool): (age: int)
    ensures !exact ==> age == start.year - birth.year
    ensures exact ==> DateLe(Anniversary(birth, age), start) && DateLt(start, Anniversary(birth, age + 1))
    ensures exact ==> age == start.year - birth.year || age == start.year - birth.year - 1
  {
    if exact then start.year - birth.year - (if MonthDayBefore(start, birth) then 1 else 0)
    else start.year - birth.year
  }

  /** The exact age is the one number of completed years: a birthday on or
      before the start, the next one after it. */
  lemma ExactAgeUnique(start: Date, birth: Date, n: int)
    requires DateLe(Anniversary(birth, n), start) && DateLt(start, Anniversary(birth, n + 1))
    ensures AgeDifference(start, birth, true) == n
  {
  }

  /** `_check_max_age`, called only when the category has a maximum age. */
  function CheckMaxAge(start: Date, category: Category, athlete: Athlete): (r: Outcome)
    requires category.maxAge.Some?
    ensures r.Fail? ==> r.error == TooOld
    ensures athlete.dateOfBirth.None? ==> r == Pass
    ensures athlete.dateOfBirth.Some? && category.ageExact ==>
      (r.Fail? <==> DateLe(Anniversary(athlete.dateOfBirth.value, category.maxAge.value), start))
    ensures athlete.dateOfBirth.Some? && !category.ageExact ==>
      (r.Fail? <==> start.year > athlete.dateOfBirth.value.year + category.maxAge.value)
  {
    if athlete.dateOfBirth.Some? then
      var age := AgeDifference(start, athlete.dateOfBirth.value, category.ageExact);
      if (!category.ageExact && age > category.maxAge.value) || (category.ageExact && age >= category.maxAge.value)
      then Fail(TooOld) else Pass
    else Pass
  }

  /** `_check_min_age`, called only when the category has a minimum age. */
  function CheckMinAge(start: Date, category: Category, athlete: Athlete): (r: Outcome)
    requires category.minAge.Some?
    ensures r.Fail? ==> r.error == TooYoung
    ensures athlete.dateOfBirth.None? ==> r == Pass
    ensures athlete.dateOfBirth.Some? && category.ageExact ==>
      (r.Fail? <==> DateLt(start, Anniversary(athlete.dateOfBirth.value, category.minAge.value)))
    ensures athlete.dateOfBirth.Some? && !category.ageExact ==>
      (r.Fail? <==> start.year < athlete.dateOfBirth.value.year + category.minAge.value)
  {
    if athlete.dateOfBirth.Some? && AgeDifference(start, athlete.dateOfBirth.value, category.ageExact) < category.minAge.value
    then Fail(TooYoung) else Pass
  }

  /** The first loop of `_check_age`: every athlete against the minimum age. */
  function MinAgeLoop(start: Date, category: Category, athletes: seq<Athlete>): (r: Outcome)
    requires category.minAge.Some?
    ensures r.Fail? ==> r.error == TooYoung
    ensures r == Pass <==> forall i :: 0 <= i < |athletes| ==> CheckMinAge(start, category, athletes[i]) == Pass
  {
    if athletes == [] then Pass
    else
      var first := CheckMinAge(start, category, athletes[0]);
      if first.Fail? then first
      else
        var rest := MinAgeLoop(start, category, athletes[1..]);
        assert forall i :: 1 <= i < |athletes| ==> athletes[i] == athletes[1..][i - 1];
        rest
  }

  /** The second loop of `_check_age`: every athlete against the maximum age. */
  function MaxAgeLoop(start: Date, category: Category, athletes: seq<Athlete>): (r: Outcome)
    requires category.maxAge.Some?
    ensures r.Fail? ==> r.error == TooOld
    ensures r == Pass <==> forall i :: 0 <= i < |athletes| ==> CheckMaxAge(start, category, athletes[i]) == Pass
  {
    if athletes == [] then Pass
    else
      var first := CheckMaxAge(start, category, athletes[0]);
      if first.Fail? then first
      else
        var rest := MaxAgeLoop(start, category, athletes[1..]);
        assert forall i :: 1 <= i < |athletes| ==> athletes[i] == athletes[1..][i - 1];
        rest
  }

  /** An athlete meets the age limits the category sets (a limit of 0 is no
      limit). */
  predicate AgeFits(start: Date, category: Category, a: Athlete) {
    (Truthy(category.minAge) ==> CheckMinAge(start, category, a) == Pass)
    && (Truthy(category.maxAge) ==> CheckMaxAge(start, category, a) == Pass)
  }

  /** `_check_age`: all minimum ages are checked before any maximum age. */
  function CheckAge(start: Date, category: Category, athletes: seq<Athlete>): (r: Outcome)
    ensures r == Pass <==> forall i :: 0 <= i < |athletes| ==> AgeFits(start, category, athletes[i])
    ensures r.Fail? ==> r.error == TooYoung || r.error == TooOld
    ensures Truthy(category.minAge) && (exists i :: 0 <= i < |athletes| && CheckMinAge(start, category, athletes[i]).Fail?)
      ==> r == Fail(TooYoung)
  {
    var young := if Truthy(category.minAge) then MinAgeLoop(start, category, athletes) else Pass;
    if young.Fail? then young
    else if Truthy(category.maxAge) then MaxAgeLoop(start, category, athletes)
    else Pass
  }

  // ---------------------------------------------------------------------
  // Gender and team
  // ---------------------------------------------------------------------

  /** A W category and an M athlete, or an M category and a W athlete. */
  predicate GenderClash(g: CategoryGender, s: Option<Sex>) {
    (g == Only(W) && s == Some(M)) || (g == Only(M) && s == Some(W))
  }

  /** `_check_gender`. */
  function CheckGender(category: Category, athletes: seq<Athlete>): (r: Outcome)
    ensures r.Fail? ==> r.error == GenderNotAllowed
    ensures r == Pass <==> forall i :: 0 <= i < |athletes| ==> !GenderClash(category.gender, athletes[i].gender)
  {
    if athletes == [] then Pass
    else if GenderClash(category.gender, athletes[0].gender) then Fail(GenderNotAllowed)
    else
      var rest := CheckGender(category, athletes[1..]);
      assert forall i :: 1 <= i < |athletes| ==> athletes[i] == athletes[1..][i - 1];
      rest
  }

  /** Only an M or W category can reject an athlete, and only for the other
      of the two genders. */
  lemma GenderOnlyMOrWRejects(category: Category, athletes: seq<Athlete>)
    ensures category.gender !in {Only(M), Only(W)} ==> CheckGender(category, athletes) == Pass
    ensures category.gender == Only(W) ==>
      (CheckGender(category, athletes) == Pass <==> forall i :: 0 <= i < |athletes| ==> athletes[i].gender != Some(M))
    ensures category.gender == Only(M) ==>
      (CheckGender(category, athletes) == Pass <==> forall i :: 0 <= i < |athletes| ==> athletes[i].gender != Some(W))
  {
  }

  /** `_check_number_of_team_members`. */
  function CheckTeamSize(category: Category, athletes: seq<Athlete>): (r: Outcome)
    ensures r.Fail? ==> r.error == WrongTeamSize
    ensures !category.team || !Truthy(category.teamSize) ==> r == Pass
    ensures category.team && Truthy(category.teamSize) ==> (r == Pass <==> |athletes| == category.teamSize.value)
  {
    if category.team && Truthy(category.teamSize) && |athletes| != category.teamSize.value then Fail(WrongTeamSize)
    else Pass
  }

  /** `_check_team`. `team` is the submitted team flag (None when the key is
      absent); `athleteGiven` says the data holds a non-empty athlete and
      `membersGiven` that it holds the team_members key. */
  function CheckTeam(team: Option<bool>, athleteGiven: bool, membersGiven: bool, category: Category): (r: Outcome)
    ensures r == Pass <==>
      (team == Some(true) ==> category.team) && (category.team ==> !athleteGiven && membersGiven)
    ensures r.Fail? ==> r.error in {WrongTeamCategory, AthleteForTeam, MissingTeamMembers}
  {
    if team == Some(true) && !category.team then Fail(WrongTeamCategory)
    else if athleteGiven && category.team then Fail(AthleteForTeam)
    else if !membersGiven && category.team then Fail(MissingTeamMembers)
    else Pass
  }

  /** `_check_team_status`. `instanceTeam` is the stored team flag (None when
      a result is being created), `team` the submitted one. */
  function CheckTeamStatus(instanceTeam: Option<bool>, team: Option<bool>): (r: Outcome)
    ensures r.Fail? ==> r.error == TeamStatusChange
    ensures r == Pass <==> instanceTeam.None? || team.None? || team.value == instanceTeam.value
  {
    if instanceTeam.Some? && ((team == Some(true) && !instanceTeam.value) || (instanceTeam.value && team == Some(false)))
    then Fail(TeamStatusChange)
    else Pass
  }

  /** What a new result is looked up by in `_check_existence`. */
  datatype EntryKey = EntryKey(competition: nat, athlete: Option<nat>, lastName: Option<string>, category: nat)

  /** A stored result with the same competition and category and, for a
      team, the same last name, otherwise the same athlete. */
  predicate SameEntry(e: Result, key: EntryKey, team: bool) {
    e.competition.id == key.competition && e.category.id == key.category
    && if team then e.lastName == key.lastName else AthleteKey(e) == key.athlete
  }

  /** `_check_existence` over the stored results. */
  function CheckExistence(creating: bool, key: EntryKey, team: bool, stored: seq<Result>): (r: Outcome)
    ensures r.Fail? ==> r.error == EntryExists
    ensures !creating ==> r == Pass
    ensures creating ==> (r == Pass <==> forall i :: 0 <= i < |stored| ==> !SameEntry(stored[i], key, team))
  {
    if creating && exists i :: 0 <= i < |stored| && SameEntry(stored[i], key, team) then Fail(EntryExists)
    else Pass
  }

  /** An athlete as `_check_requirements` reads it: whether the athlete's
      organisation is external, and the athlete's information items. */
  datatype Licensee = Licensee(external: bool, info: seq<Information>)

  /** An information item of the type that is valid on the day (a missing
      date never matches). */
  predicate Holds(item: Information, requirement: string, day: Date) {
    item.itype == requirement
    && item.dateStart.Some? && DateLe(item.dateStart.value, day)
    && item.dateEnd.Some? && DateLe(day, item.dateEnd.value)
  }

  /** The athlete passes the requirement: external, or holding it on the day. */
  predicate Meets(a: Licensee, requirement: string, day: Date) {
    a.external || exists j :: 0 <= j < |a.info| && Holds(a.info[j], requirement, day)
  }

  /** `_check_requirements`: `requirements` is the competition type's and
      level's comma-separated requirements, split and stripped. */
  function CheckRequirements(requirements: seq<string>, day: Date, athletes: seq<Licensee>): (r: Outcome)
    ensures r.Fail? ==> r.error == MissingRequirement
    ensures r == Pass <==>
      forall i, k :: 0 <= i < |requirements| && 0 <= k < |athletes| && requirements[i] != "" ==>
        Meets(athletes[k], requirements[i], day)
  {
    if requirements == [] then Pass
    else if requirements[0] != "" && exists k :: 0 <= k < |athletes| && !Meets(athletes[k], requirements[0], day)
    then Fail(MissingRequirement)
    else
      var rest := CheckRequirements(requirements[1..], day, athletes);
      assert forall i :: 1 <= i < |requirements| ==> requirements[i] == requirements[1..][i - 1];
      rest
  }

  // ---------------------------------------------------------------------
  // Value limits
  // ---------------------------------------------------------------------

  /** The limits `_get_result_limits` returns, or the disallowed category. */
  datatype Limits = Disallowed | Bounds(max: Option<Decimal>, min: Option<Decimal>)

  /** `_get_result_limits`: the (type, category) row's override when it is
      set and non-zero (whole numbers), otherwise the competition type's
      limit; a row with `disallow` raises. */
  function ResultLimits(category: Category, ctype: CompetitionType, checks: seq<CategoryCheck>): (l: Limits)
    ensures l.Disallowed? <==> var c := FindCheck(checks, ctype.id, category.id); c.Some? && c.value.disallow
    ensures l.Bounds? ==>
      var c := FindCheck(checks, ctype.id, category.id);
      && (c.Some? && Truthy(c.value.maxResult) ==> l.max == Some(c.value.maxResult.value * Scale))
      && (c.None? || !Truthy(c.value.maxResult) ==> l.max == ctype.maxResult)
      && (c.Some? && Truthy(c.value.minResult) ==> l.min == Some(c.value.minResult.value * Scale))
      && (c.None? || !Truthy(c.value.minResult) ==> l.min == ctype.minResult)
  {
    var c := FindCheck(checks, ctype.id, category.id);
    if c.Some? && c.value.disallow then Disallowed
    else
      Bounds(if c.Some? && Truthy(c.value.maxResult) then Some(c.value.maxResult.value * Scale) else ctype.maxResult,
             if c.Some? && Truthy(c.value.minResult) then Some(c.value.minResult.value * Scale) else ctype.minResult)
  }

  /** The maximum of a team category with a team size is per athlete:
      multiplied by the size. A zero maximum stays zero. */
  function TeamMax(category: Category, max: Option<Decimal>): (m: Option<Decimal>)
    ensures m.None? <==> max.None?
    ensures category.team && Truthy(category.teamSize) && max.Some? ==> m.value == max.value * category.teamSize.value
    ensures !(category.team && Truthy(category.teamSize)) ==> m == max
  {
    if category.team && Truthy(category.teamSize) && Truthy(max) then Some(max.value * category.teamSize.value) else max
  }

  /** Inclusive bounds; a missing bound does not limit. */
  predicate Within(value: Decimal, max: Option<Decimal>, min: Option<Decimal>) {
    (min.None? || min.value <= value) && (max.None? || value <= max.value)
  }

  /** `_check_value_limits`. */
  function CheckValueLimits(value: Decimal, category: Category, ctype: CompetitionType, checks: seq<CategoryCheck>): (r: Outcome)
    ensures ResultLimits(category, ctype, checks).Disallowed? ==> r == Fail(CategoryDisallowed)
    ensures ResultLimits(category, ctype, checks).Bounds? ==>
      var l := ResultLimits(category, ctype, checks);
      && (r == Pass <==> Within(value, TeamMax(category, l.max), l.min))
      && (l.min.Some? && value < l.min.value ==> r == Fail(TooLow))
      && (r == Fail(TooHigh) <==> (l.min.None? || l.min.value <= value) && !Within(value, TeamMax(category, l.max), l.min))
  {
    match ResultLimits(category, ctype, checks)
    case Disallowed => Fail(CategoryDisallowed)
    case Bounds(max, min) =>
      var top := TeamMax(category, max);
      if min.Some? && value < min.value then Fail(TooLow)
      else if top.Some? && value > top.value then Fail(TooHigh)
      else Pass
  }

  /** The values a category accepts form an interval: a value between two
      accepted values is accepted. */
  lemma AcceptedValuesConvex(category: Category, ctype: CompetitionType, checks: seq<CategoryCheck>,
                             lo: Decimal, v: Decimal, hi: Decimal)
    requires lo <= v <= hi
    requires CheckValueLimits(lo, category, ctype, checks) == Pass
    requires CheckValueLimits(hi, category, ctype, checks) == Pass
    ensures CheckValueLimits(v, category, ctype, checks) == Pass
  {
  }

  /** The limit cases of the result tests: a type with limits 0 and 1000,
      then a (type, category) row overriding them with 1 and 999. Both
      bounds are inclusive and the override replaces the type's limits. */
  lemma LimitExamples()
    ensures var t := CompetitionType(1, None, Some(1000 * Scale), Some(0));
      var c := Category(1, None, Some(20), Some(17), false, Only(M), false, None);
      && CheckValueLimits(1001 * Scale, c, t, []) == Fail(TooHigh)
      && CheckValueLimits(1000 * Scale, c, t, []) == Pass
      && CheckValueLimits(-1 * Scale, c, t, []) == Fail(TooLow)
      && CheckValueLimits(0, c, t, []) == Pass
  {
  }

  lemma LimitExamplesWithOverride()
    ensures var t := CompetitionType(1, None, Some(1000 * Scale), Some(0));
      var c := Category(1, None, Some(20), Some(17), false, Only(M), false, None);
      var checks := [CategoryCheck(1, 1, Some(999), Some(1), false, true, true, None, {})];
      && CheckValueLimits(1000 * Scale, c, t, checks) == Fail(TooHigh)
      && CheckValueLimits(999 * Scale, c, t, checks) == Pass
      && CheckValueLimits(0, c, t, checks) == Fail(TooLow)
      && CheckValueLimits(1 * Scale, c, t, checks) == Pass
  {
    var checks := [CategoryCheck(1, 1, Some(999), Some(1), false, true, true, None, {})];
    assert FindCheck(checks, 1, 1) == Some(checks[0]);
  }

  // ---------------------------------------------------------------------
  // Partial results
  // ---------------------------------------------------------------------

  /** A submitted partial result: its type, order, and the value and
      decimals when the keys are present. */
  datatype Item = Item(ptype: ResultType, order: int, value: Option<Decimal>, decimals: Option<int>)

  /** The value checks of one partial in `_check_partial`: the type's
      minimum, and its maximum (any set maximum, zero included) times the
      team size. */
  function CheckItem(it: Item, ctypeId: nat, category: Category): (r: Outcome)
    ensures it.ptype.competitionType != ctypeId ==> r == Fail(PartialTypeMismatch)
    ensures it.ptype.competitionType == ctypeId ==>
      (r == Pass <==> it.value.None? || Within(it.value.value, PartialMax(it.ptype, category), it.ptype.minResult))
    ensures r.Fail? ==> r.error in {PartialTypeMismatch, TooLow, TooHigh}
  {
    if it.ptype.competitionType != ctypeId then Fail(PartialTypeMismatch)
    else if it.value.Some? && it.ptype.minResult.Some? && it.value.value < it.ptype.minResult.value then Fail(TooLow)
    else if it.value.Some? && it.ptype.maxResult.Some? &&
            it.value.value > (if category.team && Truthy(category.teamSize)
                              then it.ptype.maxResult.value * category.teamSize.value
                              else it.ptype.maxResult.value)
    then Fail(TooHigh)
    else Pass
  }

  /** The maximum a partial value may reach in `_check_partial`. */
  function PartialMax(t: ResultType, category: Category): (m: Option<Decimal>)
    ensures m.None? <==> t.maxResult.None?
  {
    if t.maxResult.Some? && category.team && Truthy(category.teamSize)
    then Some(t.maxResult.value * category.teamSize.value) else t.maxResult
  }

  /** `_check_partial`: each submitted partial in turn. */
  function CheckPartials(items: seq<Item>, ctypeId: nat, category: Category): (r: Outcome)
    ensures r == Pass <==> forall i :: 0 <= i < |items| ==> CheckItem(items[i], ctypeId, category) == Pass
    ensures r.Fail? ==> exists i :: 0 <= i < |items| && CheckItem(items[i], ctypeId, category) == r
  {
    if items == [] then Pass
    else
      var first := CheckItem(items[0], ctypeId, category);
      if first.Fail? then first
      else
        var rest := CheckPartials(items[1..], ctypeId, category);
        assert forall i :: 1 <= i < |items| ==> items[i] == items[1..][i - 1];
        rest
  }

  /** `ResultPartialSerializer.validate`. `instanceParent` is the stored
      partial's result when a partial is being changed, `parent` the result
      in the data. Its maximum is applied only when set and non-zero. */
  function ValidatePartial(u: User, instanceParent: Option<Result>, parent: Result, it: Item): (r: Outcome)
    ensures StaffOrSuperuser(u) ==> r != Fail(NoPermission)
    ensures !StaffOrSuperuser(u) && (parent.competition.locked || parent.approved) ==> r == Fail(NoPermission)
    ensures r == Pass ==>
      it.ptype.competitionType == parent.competition.ctype.id
      && (it.value.Some? && it.ptype.minResult.Some? ==> it.value.value >= it.ptype.minResult.value)
  {
    if !StaffOrSuperuser(u)
       && ((instanceParent.Some? && (instanceParent.value.competition.locked || instanceParent.value.approved))
           || parent.competition.locked || parent.approved || !InGroup(u, parent.competition.organizerGroup))
    then Fail(NoPermission)
    else if it.ptype.competitionType != parent.competition.ctype.id then Fail(PartialTypeMismatch)
    else if it.value.Some? && it.ptype.minResult.Some? && it.value.value < it.ptype.minResult.value then Fail(TooLow)
    else if Truthy(it.ptype.maxResult) && it.value.Some? &&
            it.value.value > (if parent.category.team && Truthy(parent.category.teamSize)
                              then it.ptype.maxResult.value * parent.category.teamSize.value
                              else it.ptype.maxResult.value)
    then Fail(TooHigh)
    else Pass
  }

  /** The permission part of the partial serializer refuses exactly the
      users the partial's object permission refuses for the new parent, and
      in addition, for a partial moved from another result, other users
      when that old result is locked or approved. When the partial keeps
      its result (or is new) the two permissions agree. */
  lemma ValidatePartialPermission(u: User, instanceParent: Option<Result>, parent: Result, it: Item)
    ensures ValidatePartial(u, instanceParent, parent, it) == Fail(NoPermission) <==>
      !ResultModel.CanChangePartial(u, parent)
      || (!StaffOrSuperuser(u) && instanceParent.Some?
          && (instanceParent.value.competition.locked || instanceParent.value.approved))
    ensures instanceParent.None? || instanceParent == Some(parent) ==>
      (ValidatePartial(u, instanceParent, parent, it) == Fail(NoPermission) <==>
       !ResultModel.CanChangePartial(u, parent))
  {
  }

  /** The standalone serializer and the nested check of a result's partials
      decide alike, except that the standalone one ignores a maximum of 0. */
  lemma PartialChecksAgree(u: User, parent: Result, it: Item)
    requires ResultModel.CanChangePartial(u, parent)
    requires it.ptype.maxResult != Some(0)
    ensures ValidatePartial(u, None, parent, it) == CheckItem(it, parent.competition.ctype.id, parent.category)
  {
  }

  /** With a maximum of 0 the two disagree on any positive value. */
  lemma PartialChecksDisagreeOnZeroMax(u: User, parent: Result, it: Item)
    requires ResultModel.CanChangePartial(u, parent)
    requires it.ptype.competitionType == parent.competition.ctype.id
    requires it.ptype.maxResult == Some(0) && it.ptype.minResult == None
    requires it.value.Some? && it.value.value > 0
    ensures ValidatePartial(u, None, parent, it) == Pass
    ensures CheckItem(it, parent.competition.ctype.id, parent.category) == Fail(TooHigh)
  {
  }
}
