/** Validation of a competition create or update: the date bounds that
    apply to every user, then who may create or change a competition and
    which flags they may set. */
module CompetitionValidation {
  import opened Common
  import opened Domain

  /** The stored competition of an update. */
  datatype Stored = Stored(
    organization: Option<Organization>,
    level: CompetitionLevel,
    event: Option<Event>,
    locked: bool,
    public: bool,
    approved: bool)

  /** The submitted fields; `None` is a key missing from the request. */
  datatype Submitted = Submitted(
    dateStart: Option<Date>,
    dateEnd: Option<Date>,
    event: Option<Event>,
    organization: Option<Organization>,
    level: Option<CompetitionLevel>,
    locked: Option<bool>,
    public: Option<bool>,
    approved: Option<bool>)

  /** `is_area_manager`: one of the organisation's areas has a group the
      user belongs to. `areaGroup` maps an area id to its group. */
  predicate IsAreaManager(u: User, org: Organization, areaGroup: map<nat, nat>) {
    exists a :: a in org.areas && a in areaGroup && InGroup(u, Some(areaGroup[a]))
  }

  /** The event whose dates bound the competition: the submitted one, else
      the stored one. */
  function EventOf(instance: Option<Stored>, data: Submitted): Option<Event> {
    if data.event.Some? then data.event
    else if instance.Some? then instance.value.event
    else None
  }

  /** `_check_dates`. A create without an event reads the event of a
      missing instance and raises. */
  function CheckDates(instance: Option<Stored>, data: Submitted): (out: Outcome)
    ensures out == Fail(StartAfterEnd) <==>
      data.dateStart.Some? && data.dateEnd.Some? && DateLt(data.dateEnd.value, data.dateStart.value)
    ensures out == Pass <==>
      (data.event.Some? || instance.Some?)
      && !(data.dateStart.Some? && data.dateEnd.Some? && DateLt(data.dateEnd.value, data.dateStart.value))
      && (EventOf(instance, data).Some? && data.dateStart.Some? ==>
            DateLe(EventOf(instance, data).value.dateStart, data.dateStart.value))
      && (EventOf(instance, data).Some? && data.dateEnd.Some? ==>
            DateLe(data.dateEnd.value, EventOf(instance, data).value.dateEnd))
  {
    if data.dateEnd.Some? && data.dateStart.Some? && DateLt(data.dateEnd.value, data.dateStart.value) then
      Fail(StartAfterEnd)
    else if data.event.None? && instance.None? then
      Fail(InternalError)
    else
      var event := if data.event.Some? then data.event
        else if instance.value.event.Some? then instance.value.event
        else None;
      if event.Some? && data.dateStart.Some? && DateLt(data.dateStart.value, event.value.dateStart) then
        Fail(StartBeforeEvent)
      else if event.Some? && data.dateEnd.Some? && DateLt(event.value.dateEnd, data.dateEnd.value) then
        Fail(EndAfterEvent)
      else
        Pass
  }

  /** The area-manager bypass: the user manages the stored organisation on
      an area-competition level (or there is no instance), and manages the
      submitted organisation on the submitted area-competition level (or
      no organisation is submitted). */
  predicate AreaBypass(u: User, instance: Option<Stored>, data: Submitted, areaGroup: map<nat, nat>) {
    (instance.None?
     || (instance.value.organization.Some?
         && IsAreaManager(u, instance.value.organization.value, areaGroup)
         && instance.value.level.areaCompetition))
    && (data.organization.None?
        || (IsAreaManager(u, data.organization.value, areaGroup)
            && data.level.Some? && data.level.value.areaCompetition))
  }

  /** The user is in the organiser group of the stored or the submitted
      organisation. */
  predicate OrganizerMember(u: User, instance: Option<Stored>, data: Submitted) {
    (instance.Some? && instance.value.organization.Some?
     && InGroup(u, instance.value.organization.value.group))
    || (data.organization.Some? && InGroup(u, data.organization.value.group))
  }

  /** The stored competition or its event is locked, or the request locks it. */
  predicate TouchesLock(instance: Option<Stored>, data: Submitted) {
    (instance.Some? && (instance.value.locked
                        || (instance.value.event.Some? && instance.value.event.value.locked)))
    || data.locked == Some(true)
    || (instance.None? && data.event.Some? && data.event.value.locked)
  }

  /** The request publishes a competition that is not yet public. */
  predicate Publishes(instance: Option<Stored>, data: Submitted) {
    (instance.None? || !instance.value.public) && data.public == Some(true)
  }

  /** The request approves a competition that is not yet approved. */
  predicate Approves(instance: Option<Stored>, data: Submitted) {
    (instance.None? || !instance.value.approved) && data.approved == Some(true)
  }

  /** No attribute or key lookup of `validate` raises: a stored
      competition has an organisation and an event, and a submitted
      organisation comes with a level. */
  predicate Complete(instance: Option<Stored>, data: Submitted) {
    (instance.Some? ==> instance.value.organization.Some? && instance.value.event.Some?)
    && (data.organization.Some? ==> data.level.Some?)
  }

  /** `CompetitionSerializer.validate`. `publishRequiresStaff` is the
      COMPETITION_PUBLISH_REQUIRES_STAFF setting. An attribute of a missing
      organisation or event, or a missing `level` key, raises and is
      `InternalError`. */
  function Validate(u: User, instance: Option<Stored>, data: Submitted, areaGroup: map<nat, nat>,
                    publishRequiresStaff: bool): (out: Outcome)
    ensures !IsAuthenticated(u) ==> out == Fail(NotAuthenticated)
    ensures IsAuthenticated(u) && CheckDates(instance, data).Fail? ==> out == CheckDates(instance, data)
    ensures IsAuthenticated(u) && (StaffOrSuperuser(u) || AreaBypass(u, instance, data, areaGroup))
      ==> out == CheckDates(instance, data)
    ensures out == Pass && !StaffOrSuperuser(u) && !AreaBypass(u, instance, data, areaGroup) ==>
      OrganizerMember(u, instance, data) && !TouchesLock(instance, data)
      && !(publishRequiresStaff && Publishes(instance, data)) && !Approves(instance, data)
    ensures IsAuthenticated(u) && CheckDates(instance, data) == Pass && Complete(instance, data)
      && OrganizerMember(u, instance, data) && !TouchesLock(instance, data)
      && !(publishRequiresStaff && Publishes(instance, data)) && !Approves(instance, data)
      ==> out == Pass
  {
    if !IsAuthenticated(u) then Fail(NotAuthenticated)
    else if CheckDates(instance, data).Fail? then CheckDates(instance, data)
    else if IsSuperuser(u) || IsStaff(u) then Pass
    else if instance.Some? && instance.value.organization.None? then Fail(InternalError)
    else
      var storedSide := instance.None?
        || (IsAreaManager(u, instance.value.organization.value, areaGroup)
            && instance.value.level.areaCompetition);
      if storedSide && data.organization.Some? && IsAreaManager(u, data.organization.value, areaGroup)
         && data.level.None? then
        Fail(InternalError)
      else if storedSide
        && (data.organization.None?
            || (IsAreaManager(u, data.organization.value, areaGroup) && data.level.value.areaCompetition)) then
        Pass
      else if !(instance.Some? && InGroup(u, instance.value.organization.value.group))
        && (data.organization.None? || !InGroup(u, data.organization.value.group)) then
        Fail(NoPermission)
      else if instance.Some? && !instance.value.locked && instance.value.event.None? then
        Fail(InternalError)
      else if (instance.Some? && (instance.value.locked || instance.value.event.value.locked))
        || (data.locked.Some? && data.locked.value)
        || (instance.None? && data.event.value.locked) then
        Fail(NoPermissionLocked)
      else if publishRequiresStaff
        && (instance.None? || !instance.value.public) && data.public.Some? && data.public.value then
        Fail(NoPermissionPublish)
      else if (instance.None? || !instance.value.approved) && data.approved.Some? && data.approved.value then
        Fail(NoPermissionApprove)
      else
        Pass
  }
}
