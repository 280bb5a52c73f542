/** The rows of the results database that the record engine and the
    validation rules read (the models package of the results app), as values. Foreign keys
    are ids; the rows an operation reads through a key are passed in. */
module Domain {
  import opened Common

  /** Athlete gender codes. An athlete with an empty gender has `None`. */
  datatype Sex = M | W | O | U

  /** Category.gender is a nullable text column: NULL, the empty string
      (any gender) or a code. The record query tells NULL and '' apart. */
  datatype CategoryGender = NullGender | AnyGender | Only(sex: Sex)

  datatype Category = Category(
    id: nat,
    sport: Option<nat>,
    maxAge: Option<int>,
    minAge: Option<int>,
    ageExact: bool,
    gender: CategoryGender,
    team: bool,
    teamSize: Option<int>)

  /** CategoryForCompetitionType: a (type, category) pair with its result
      limit overrides (whole numbers) and record checking switches. */
  datatype CategoryCheck = CategoryCheck(
    category: nat,
    ctype: nat,
    maxResult: Option<int>,
    minResult: Option<int>,
    disallow: bool,
    checkRecord: bool,
    checkRecordPartial: bool,
    recordGroup: Option<int>,
    limitPartial: set<nat>)

  datatype CompetitionType = CompetitionType(
    id: nat,
    sport: Option<nat>,
    maxResult: Option<Decimal>,
    minResult: Option<Decimal>)

  /** CompetitionResultType: the type of a partial result. */
  datatype ResultType = ResultType(
    id: nat,
    competitionType: nat,
    records: bool,
    maxResult: Option<Decimal>,
    minResult: Option<Decimal>)

  /** CompetitionLevel: SM, say; `areaCompetition` marks levels whose
      competitions area managers may run. */
  datatype CompetitionLevel = CompetitionLevel(id: nat, abbreviation: string, areaCompetition: bool)

  /** An event groups competitions and bounds their dates. */
  datatype Event = Event(
    id: nat,
    dateStart: Date,
    dateEnd: Date,
    organization: Option<Organization>,
    approved: bool,
    locked: bool,
    public: bool)

  datatype Competition = Competition(
    id: nat,
    dateStart: Date,
    level: nat,
    levelAbbreviation: string,
    ctype: CompetitionType,
    locked: bool,
    approved: bool,
    organizerGroup: Option<nat>)

  datatype Organization = Organization(
    id: nat,
    external: bool,
    areas: set<nat>,
    group: Option<nat>)

  datatype Athlete = Athlete(
    id: nat,
    firstName: string,
    lastName: string,
    gender: Option<Sex>,
    dateOfBirth: Option<Date>)

  /** A result: a single athlete's (team = false) or a team's total. */
  datatype Result = Result(
    id: nat,
    competition: Competition,
    athlete: Option<Athlete>,
    teamMembers: seq<Athlete>,
    firstName: Option<string>,
    lastName: Option<string>,
    organization: Option<Organization>,
    category: Category,
    value: Option<Decimal>,
    decimals: int,
    position: Option<int>,
    positionPre: Option<int>,
    approved: bool,
    team: bool)

  /** ResultPartial: a sub-result of the result with id `result`. */
  datatype ResultPartial = ResultPartial(
    id: nat,
    result: nat,
    ptype: ResultType,
    order: int,
    value: Option<Decimal>,
    decimals: int)

  datatype RecordLevel = RecordLevel(
    id: nat,
    levels: set<nat>,
    types: set<nat>,
    area: Option<nat>,
    base: bool,
    partial: bool,
    personal: bool,
    team: bool,
    decimals: bool,
    historical: bool)

  /** A record row. `partialResult` is `None` for a full-result record. */
  datatype Record = Record(
    result: nat,
    partialResult: Option<nat>,
    level: nat,
    rtype: nat,
    category: nat,
    approved: bool,
    dateStart: Date,
    dateEnd: Option<Date>,
    historical: bool)

  /** Who may read an item of athlete information: P, A, S or U. */
  datatype Visibility = Public | AuthenticatedUsers | StaffUsers | SuperuserOnly

  /** AthleteInformation: a typed item (a licence, say) valid between two
      nullable dates. */
  datatype Information = Information(
    itype: string,
    value: string,
    dateStart: Option<Date>,
    dateEnd: Option<Date>,
    visibility: Visibility)

  /** The id of the athlete of a result, as the `result__athlete` column. */
  function AthleteKey(r: Result): Option<nat> {
    if r.athlete.Some? then Some(r.athlete.value.id) else None
  }

  /** The id of the organisation of a result, as the `result__organization` column. */
  function OrganizationKey(r: Result): Option<nat> {
    if r.organization.Some? then Some(r.organization.value.id) else None
  }

  /** Python truthiness of a text column: NULL and '' are both false. */
  predicate TextSet(s: Option<string>) {
    s.Some? && s.value != ""
  }
}
