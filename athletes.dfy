/** Who may see and change athletes and their information items: the
    visibility tiers of athlete information and the permission predicates
    of the athlete models. */
module Athletes {
  import opened Common
  import opened Domain

  /** The tiers from the most to the least visible. */
  const Tiers: seq<Visibility> := [Public, AuthenticatedUsers, StaffUsers, SuperuserOnly]

  /** The visibilities a user may read, in tier order. */
  function GetVisibility(u: User): (vs: seq<Visibility>)
    ensures Public in vs
    ensures AuthenticatedUsers in vs <==> IsAuthenticated(u)
    ensures StaffUsers in vs <==> StaffOrSuperuser(u)
    ensures SuperuserOnly in vs <==> IsSuperuser(u)
  {
    if !IsAuthenticated(u) then [Public]
    else if IsSuperuser(u) then [Public, AuthenticatedUsers, StaffUsers, SuperuserOnly]
    else if IsStaff(u) then [Public, AuthenticatedUsers, StaffUsers]
    else [Public, AuthenticatedUsers]
  }

  /** Every user's list is a prefix of the tier order, so a user who may
      read a tier may read every more visible tier. */
  lemma TiersNested(u: User)
    ensures 1 <= |GetVisibility(u)| <= |Tiers|
    ensures GetVisibility(u) == Tiers[..|GetVisibility(u)|]
    ensures forall i, j :: 0 <= i <= j < |Tiers| && Tiers[j] in GetVisibility(u) ==> Tiers[i] in GetVisibility(u)
  {
    var vs := GetVisibility(u);
    assert vs == Tiers[..|vs|];
    forall i, j | 0 <= i <= j < |Tiers| && Tiers[j] in vs
      ensures Tiers[i] in vs
    {
      var k :| 0 <= k < |vs| && vs[k] == Tiers[j];
      assert Tiers[k] == Tiers[j];
      assert k == j;
      assert vs[i] == Tiers[i];
    }
  }

  /** `has_object_read_permission` of an information item: exactly the
      items whose visibility the user's list holds. */
  predicate CanReadInformation(u: User, item: Information)
    ensures CanReadInformation(u, item) <==> item.visibility in GetVisibility(u)
  {
    if item.visibility == Public then true
    else if IsAuthenticated(u) && item.visibility == AuthenticatedUsers then true
    else if (IsStaff(u) || IsSuperuser(u)) && item.visibility == StaffUsers then true
    else if IsSuperuser(u) && item.visibility == SuperuserOnly then true
    else false
  }

  /** `date_start <= today <= date_end`; a NULL date never matches. */
  predicate CurrentOn(item: Information, today: Date) {
    item.dateStart.Some? && item.dateEnd.Some?
    && DateLe(item.dateStart.value, today) && DateLe(today, item.dateEnd.value)
  }

  /** `get_visibility_queryset`: the items of `items` a user is shown, in
      their order. Staff and superusers see every date; other users only
      the items valid today. */
  function VisibleInformation(u: User, items: seq<Information>, today: Date): (shown: seq<Information>)
    ensures forall x :: x in shown <==>
      x in items && CanReadInformation(u, x) && (StaffOrSuperuser(u) || CurrentOn(x, today))
  {
    if !IsAuthenticated(u) then
      Filter(items, (x: Information) => x.visibility in [Public] && CurrentOn(x, today))
    else if IsSuperuser(u) then
      Filter(items, (x: Information) => x.visibility in [Public, AuthenticatedUsers, StaffUsers, SuperuserOnly])
    else if IsStaff(u) then
      Filter(items, (x: Information) => x.visibility in [Public, AuthenticatedUsers, StaffUsers])
    else
      Filter(items, (x: Information) => x.visibility in [Public, AuthenticatedUsers] && CurrentOn(x, today))
  }

  /** An item past its end date is hidden from an ordinary user and shown
      to a superuser. */
  lemma PastInformation(items: seq<Information>, today: Date, groups: set<nat>)
    requires |items| == 1
    requires items[0].visibility == Public && items[0].dateEnd.Some?
    requires DateLt(items[0].dateEnd.value, today)
    ensures VisibleInformation(Member(false, false, groups), items, today) == []
    ensures VisibleInformation(Member(false, true, groups), items, today) == items
  {
    assert items[1..] == [];
  }

  /** The `allow_staff_or_superuser` decorator: staff and superusers pass,
      everyone else gets the wrapped answer. */
  predicate AllowStaffOrSuperuser(u: User, inner: bool) {
    StaffOrSuperuser(u) || inner
  }

  /** The `authenticated_users` decorator: anonymous users are refused,
      everyone else gets the wrapped answer. */
  predicate AuthenticatedOnly(u: User, inner: bool) {
    IsAuthenticated(u) && inner
  }

  /** The write, object-write and object-update permissions of athletes
    and of information items, and the create permission of information
    items: the decorator around a `False` answer. */
  predicate ChangeAllowed(u: User)
    ensures ChangeAllowed(u) <==> StaffOrSuperuser(u)
  {
    AllowStaffOrSuperuser(u, false)
  }

  /** The create permission of athletes: the decorator around a `True`
      answer. */
  predicate AthleteCreate(u: User)
    ensures AthleteCreate(u) <==> IsAuthenticated(u)
  {
    AuthenticatedOnly(u, true)
  }
}
