/** Shared vocabulary of the model: optional values (nullable columns),
    calendar dates, fixed-point decimals, the acting user and the
    validation errors the serializers raise. */
module Common {

  /** A nullable column or an absent key. */
  datatype Option<+T> = None | Some(value: T)

  /** Python truthiness of a nullable integer column: NULL and 0 are both false. */
  predicate Truthy(o: Option<int>) {
    o.Some? && o.value != 0
  }

  /** SQL comparison with a NULL operand is never true. */
  predicate OptLt(a: Option<int>, b: Option<int>) {
    a.Some? && b.Some? && a.value < b.value
  }

  predicate OptLe(a: Option<int>, b: Option<int>) {
    a.Some? && b.Some? && a.value <= b.value
  }

  predicate OptEq(a: Option<int>, b: Option<int>) {
    a.Some? && b.Some? && a.value == b.value
  }

  /** Decimal columns have three decimal places; the model stores them as
      integers counting thousandths. */
  type Decimal = int

  const Scale: int := 1000

  /** A calendar date. */
  datatype Date = Date(year: int, month: int, day: int)

  predicate DateLt(a: Date, b: Date) {
    a.year < b.year
    || (a.year == b.year && a.month < b.month)
    || (a.year == b.year && a.month == b.month && a.day < b.day)
  }

  predicate DateLe(a: Date, b: Date) {
    DateLt(a, b) || a == b
  }

  /** The user of a request. Anonymous users are neither staff nor superusers. */
  datatype User = Anonymous | Member(staff: bool, superuser: bool, groups: set<nat>)

  predicate IsAuthenticated(u: User) { u.Member? }

  predicate IsStaff(u: User) { u.Member? && u.staff }

  predicate IsSuperuser(u: User) { u.Member? && u.superuser }

  predicate StaffOrSuperuser(u: User) { IsStaff(u) || IsSuperuser(u) }

  /** `group in user.groups.all()`; a missing group is in no user's groups. */
  predicate InGroup(u: User, g: Option<nat>) {
    u.Member? && g.Some? && g.value in u.groups
  }

  /** The validation errors raised by the serializers, one per message. */
  datatype Error =
    | NotAuthenticated
    | NoPermission
    | NoPermissionLocked
    | NoPermissionPublish
    | NoPermissionApprove
    | StartAfterEnd
    | StartBeforeEvent
    | EndAfterEvent
    | TooOld
    | TooYoung
    | GenderNotAllowed
    | WrongTeamSize
    | CategoryDisallowed
    | TooLow
    | TooHigh
    | PartialTypeMismatch
    | DuplicatePartialKey
    | WrongTeamCategory
    | AthleteForTeam
    | MissingTeamMembers
    | TeamStatusChange
    | EntryExists
    | MissingRequirement
    | InternalError

  /** Either validation passes or it raises one error. */
  datatype Outcome = Pass | Fail(error: Error)

  /** A queryset `.filter(...)` over a table held in query order: the rows
      that satisfy `p`, in their original order. */
  function Filter<T(!new)>(s: seq<T>, p: T -> bool): (r: seq<T>)
    ensures |r| <= |s|
    ensures forall x :: x in r <==> x in s && p(x)
  {
    if s == [] then []
    else (if p(s[0]) then [s[0]] else []) + Filter(s[1..], p)
  }

  /** Filtering a sequence extended by one element filters the prefix and
      then that element. */
  lemma {:induction false} FilterSnoc<T(!new)>(s: seq<T>, x: T, p: T -> bool)
    ensures Filter(s + [x], p) == Filter(s, p) + (if p(x) then [x] else [])
  {
    var last := if p(x) then [x] else [];
    if s == [] {
      assert s + [x] == [x] && [x][1..] == [];
    } else {
      var head := if p(s[0]) then [s[0]] else [];
      assert (s + [x])[0] == s[0] && (s + [x])[1..] == s[1..] + [x];
      FilterSnoc(s[1..], x, p);
      calc {
        Filter(s + [x], p);
        head + Filter(s[1..] + [x], p);
        head + (Filter(s[1..], p) + last);
        (head + Filter(s[1..], p)) + last;
      }
    }
  }
}
