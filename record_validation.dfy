/** Who may change a record through the API: staff and superusers
    freely; managers of the record level's area or of the sport only the
    `approved` and `historical` flags of an existing record. */
module RecordValidation {
  import opened Common

  /** The group that manages an area. */
  datatype Area = Area(manager: Option<nat>)

  /** The sport of a competition type, with its manager group. */
  datatype Sport = Sport(manager: Option<nat>)

  /** The stored record of an update: the area of its level and the sport
      of its competition type, each through a nullable key. */
  datatype StoredRecord = StoredRecord(levelArea: Option<Area>, typeSport: Option<Sport>)

  /** The keys a manager may submit. */
  const ManagerKeys: set<string> := {"approved", "historical"}

  /** The user is in the manager group of the record level's area. */
  predicate ManagesArea(u: User, r: StoredRecord) {
    r.levelArea.Some? && InGroup(u, r.levelArea.value.manager)
  }

  /** `Sport.is_manager`: the user is in the sport's manager group. */
  predicate ManagesSport(u: User, r: StoredRecord) {
    r.typeSport.Some? && InGroup(u, r.typeSport.value.manager)
  }

  /** `RecordSerializer.validate` over the submitted keys. Reading the
      sport of a type without one raises and is `InternalError`. */
  function Validate(u: User, instance: Option<StoredRecord>, keys: set<string>): (out: Outcome)
    ensures out == Pass <==>
      StaffOrSuperuser(u)
      || (instance.Some? && keys <= ManagerKeys
          && (ManagesArea(u, instance.value) || ManagesSport(u, instance.value)))
    ensures out != Pass ==> out == Fail(NoPermission) || out == Fail(InternalError)
    ensures out == Fail(InternalError) ==> instance.Some? && instance.value.typeSport.None?
    ensures !StaffOrSuperuser(u) && instance.None? ==> out == Fail(NoPermission)
  {
    if IsSuperuser(u) || IsStaff(u) then Pass
    else if instance.None? then Fail(NoPermission)
    else if (set k | k in keys && k !in ["approved", "historical"]) != {} then Fail(NoPermission)
    else
      var r := instance.value;
      if r.levelArea.Some? && r.levelArea.value.manager.Some?
         && u.Member? && r.levelArea.value.manager.value in u.groups then
        Pass
      else if r.typeSport.None? then Fail(InternalError)
      else if InGroup(u, r.typeSport.value.manager) then Pass
      else Fail(NoPermission)
  }

  /** An area manager approves a record of an area level but may not
      change its category in the same request; a user in neither the
      area's nor the sport's manager group may not approve it. */
  lemma AreaApproval(areaGroup: nat, sportGroup: nat, groups: set<nat>)
    requires areaGroup in groups && sportGroup !in groups
    ensures Validate(Member(false, false, groups),
                     Some(StoredRecord(Some(Area(Some(areaGroup))), Some(Sport(Some(sportGroup))))),
                     {"approved"}) == Pass
    ensures Validate(Member(false, false, groups),
                     Some(StoredRecord(Some(Area(Some(areaGroup))), Some(Sport(Some(sportGroup))))),
                     {"approved", "category"}) == Fail(NoPermission)
    ensures Validate(Member(false, false, groups - {areaGroup}),
                     Some(StoredRecord(Some(Area(Some(areaGroup))), Some(Sport(Some(sportGroup))))),
                     {"approved"}) == Fail(NoPermission)
  {
    assert "category" in {"approved", "category"} && "category" !in ManagerKeys;
  }
}
