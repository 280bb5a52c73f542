/** Updating an event and cascading its `public`, `locked` and `approved`
    flags to the event's competitions, and which events a user is listed. */
module Events {
  import opened Common
  import opened Domain

  /** The three flags an event shares with its competitions. */
  datatype Flag = PublicFlag | LockedFlag | ApprovedFlag

  /** The order in which `perform_update` considers the flags. */
  const Flags: seq<Flag> := [PublicFlag, LockedFlag, ApprovedFlag]

  /** The flags of one competition of the event. */
  datatype CompetitionFlags = CompetitionFlags(id: nat, public: bool, locked: bool, approved: bool)

  function GetFlag(c: CompetitionFlags, f: Flag): bool {
    match f
    case PublicFlag => c.public
    case LockedFlag => c.locked
    case ApprovedFlag => c.approved
  }

  /** `setattr(competition, param, value)`. */
  function SetFlag(c: CompetitionFlags, f: Flag, v: bool): (d: CompetitionFlags)
    ensures GetFlag(d, f) == v && d.id == c.id
    ensures forall g :: g != f ==> GetFlag(d, g) == GetFlag(c, g)
    ensures GetFlag(c, f) == v ==> d == c
  {
    match f
    case PublicFlag => c.(public := v)
    case LockedFlag => c.(locked := v)
    case ApprovedFlag => c.(approved := v)
  }

  function EventFlag(e: Event, f: Flag): bool {
    match f
    case PublicFlag => e.public
    case LockedFlag => e.locked
    case ApprovedFlag => e.approved
  }

  /** The submitted flags; `None` is a key missing from the request. */
  datatype Submitted = Submitted(public: Option<bool>, locked: Option<bool>, approved: Option<bool>)

  function Given(d: Submitted, f: Flag): Option<bool> {
    match f
    case PublicFlag => d.public
    case LockedFlag => d.locked
    case ApprovedFlag => d.approved
  }

  /** `serializer.save()` of the event, as far as the three flags go. */
  function Applied(e: Event, d: Submitted): (r: Event)
    ensures forall f :: EventFlag(r, f) == (if Given(d, f).Some? then Given(d, f).value else EventFlag(e, f))
    ensures r.id == e.id && r.dateStart == e.dateStart && r.dateEnd == e.dateEnd
    ensures r.organization == e.organization
  {
    e.(public := if d.public.Some? then d.public.value else e.public,
       locked := if d.locked.Some? then d.locked.value else e.locked,
       approved := if d.approved.Some? then d.approved.value else e.approved)
  }

  /** The event's competitions and the ids of the competitions saved so
      far, in order (each save writes a change-log entry). */
  datatype Store = Store(competitions: seq<CompetitionFlags>, saved: seq<nat>)

  /** The ids of the competitions whose flag differs from `v`, in order. */
  function Differing(cs: seq<CompetitionFlags>, f: Flag, v: bool): (ids: seq<nat>)
    ensures forall id :: id in ids <==> exists c :: c in cs && c.id == id && GetFlag(c, f) != v
    ensures |ids| <= |cs|
    ensures (forall c :: c in cs ==> GetFlag(c, f) == v) ==> ids == []
  {
    if cs == [] then []
    else
      assert forall c :: c in cs <==> c == cs[0] || c in cs[1..];
      (if GetFlag(cs[0], f) != v then [cs[0].id] else []) + Differing(cs[1..], f, v)
  }

  /** One iteration of `_update_competitions`: set and save competition
      `i` when its flag differs. */
  function Touch(s: Store, f: Flag, v: bool, i: nat): Store
    requires i < |s.competitions|
  {
    if GetFlag(s.competitions[i], f) != v then
      Store(s.competitions[i := SetFlag(s.competitions[i], f, v)], s.saved + [s.competitions[i].id])
    else s
  }

  /** The loop of `_update_competitions` from competition `i` on. */
  function PropagateFrom(s: Store, f: Flag, v: bool, i: nat): Store
    requires i <= |s.competitions|
    decreases |s.competitions| - i
  {
    if i == |s.competitions| then s
    else
      var t := Touch(s, f, v, i);
      assert |t.competitions| == |s.competitions|;
      PropagateFrom(t, f, v, i + 1)
  }

  /** One step of the loop sets competition `i` and leaves the others. */
  lemma TouchSpec(s: Store, f: Flag, v: bool, i: nat)
    requires i < |s.competitions|
    ensures var t := Touch(s, f, v, i);
      && |t.competitions| == |s.competitions|
      && t.competitions[i] == SetFlag(s.competitions[i], f, v)
      && (forall j :: 0 <= j < |s.competitions| && j != i ==> t.competitions[j] == s.competitions[j])
      && t.saved == s.saved + (if GetFlag(s.competitions[i], f) != v then [s.competitions[i].id] else [])
  {
  }

  /** The competitions after the loop from `i` on. */
  lemma {:induction false} PropagateFromCompetitions(s: Store, f: Flag, v: bool, i: nat)
    requires i <= |s.competitions|
    ensures |PropagateFrom(s, f, v, i).competitions| == |s.competitions|
    ensures forall j :: 0 <= j < i ==> PropagateFrom(s, f, v, i).competitions[j] == s.competitions[j]
    ensures forall j :: i <= j < |s.competitions| ==>
      PropagateFrom(s, f, v, i).competitions[j] == SetFlag(s.competitions[j], f, v)
    decreases |s.competitions| - i
  {
    if i < |s.competitions| {
      var t := Touch(s, f, v, i);
      TouchSpec(s, f, v, i);
      PropagateFromCompetitions(t, f, v, i + 1);
      var r := PropagateFrom(t, f, v, i + 1);
      assert PropagateFrom(s, f, v, i) == r;
      forall j | i <= j < |s.competitions|
        ensures r.competitions[j] == SetFlag(s.competitions[j], f, v)
      {
        if j > i {
          assert t.competitions[j] == s.competitions[j];
        }
      }
    }
  }

  lemma Associative(a: seq<nat>, b: seq<nat>, c: seq<nat>)
    ensures (a + b) + c == a + (b + c)
  {
  }

  /** `Differing` of a suffix starting at `i`, one competition unfolded. */
  lemma DifferingAt(cs: seq<CompetitionFlags>, f: Flag, v: bool, i: nat)
    requires i < |cs|
    ensures Differing(cs[i..], f, v)
      == (if GetFlag(cs[i], f) != v then [cs[i].id] else []) + Differing(cs[i + 1..], f, v)
  {
    assert cs[i..][0] == cs[i] && cs[i..][1..] == cs[i + 1..];
  }

  /** The saves of the loop from `i` on. */
  lemma {:induction false} PropagateFromSaved(s: Store, f: Flag, v: bool, i: nat)
    requires i <= |s.competitions|
    ensures PropagateFrom(s, f, v, i).saved == s.saved + Differing(s.competitions[i..], f, v)
    decreases |s.competitions| - i
  {
    if i < |s.competitions| {
      var t := Touch(s, f, v, i);
      TouchSpec(s, f, v, i);
      PropagateFromSaved(t, f, v, i + 1);
      assert t.competitions[i + 1..] == s.competitions[i + 1..];
      DifferingAt(s.competitions, f, v, i);
      var head: seq<nat> := if GetFlag(s.competitions[i], f) != v then [s.competitions[i].id] else [];
      var rest := Differing(s.competitions[i + 1..], f, v);
      calc {
        PropagateFrom(s, f, v, i).saved;
        PropagateFrom(t, f, v, i + 1).saved;
        t.saved + rest;
        (s.saved + head) + rest;
        { Associative(s.saved, head, rest); }
        s.saved + Differing(s.competitions[i..], f, v);
      }
    }
  }

  /** `_update_competitions(param, value)`: every competition ends with the
      flag set to `value`, nothing else changes, and exactly the
      competitions whose flag differed are saved, in order. */
  function Propagate(s: Store, f: Flag, v: bool): (r: Store)
    ensures |r.competitions| == |s.competitions|
    ensures forall j :: 0 <= j < |s.competitions| ==> r.competitions[j] == SetFlag(s.competitions[j], f, v)
    ensures r.saved == s.saved + Differing(s.competitions, f, v)
  {
    PropagateFromCompetitions(s, f, v, 0);
    PropagateFromSaved(s, f, v, 0);
    assert s.competitions[0..] == s.competitions;
    PropagateFrom(s, f, v, 0)
  }

  /** Cascading the same value twice saves nothing the second time. */
  lemma PropagateTwice(s: Store, f: Flag, v: bool)
    ensures Propagate(Propagate(s, f, v), f, v) == Propagate(s, f, v)
  {
    var r := Propagate(s, f, v);
    var r2 := Propagate(r, f, v);
    assert r2.competitions == r.competitions;
    assert forall c :: c in r.competitions ==> GetFlag(c, f) == v;
  }

  /** One flag of the `include_competitions` branch: cascaded when it is
      submitted and differs from the event's stored value. */
  function CascadeFlag(e: Event, d: Submitted, f: Flag, s: Store): Store {
    if Given(d, f).Some? && Given(d, f).value != EventFlag(e, f) then Propagate(s, f, Given(d, f).value)
    else s
  }

  /** The `include_competitions` branch over the flags `fs`, in order. */
  function CascadeFlags(e: Event, d: Submitted, fs: seq<Flag>, s: Store): Store
    decreases |fs|
  {
    if fs == [] then s
    else CascadeFlag(e, d, fs[|fs| - 1], CascadeFlags(e, d, fs[..|fs| - 1], s))
  }

  /** The competitions after `perform_update`. REMOVE_COMPETITION_APPROVAL_WITH_EVENT
      and APPROVE_COMPETITIONS_WITH_EVENT are the two settings. */
  function UpdateSpec(e: Event, d: Submitted, includeCompetitions: bool,
                      removeApproval: bool, approveWithEvent: bool, s: Store): Store
  {
    if includeCompetitions then CascadeFlags(e, d, Flags, s)
    else if removeApproval && e.approved && d.approved == Some(false) then Propagate(s, ApprovedFlag, false)
    else if approveWithEvent && !e.approved && d.approved == Some(true) then Propagate(s, ApprovedFlag, true)
    else s
  }

  /** An event being updated, with its competitions. */
  class EventUpdate {
    var event: Event
    var competitions: seq<CompetitionFlags>
    var saved: seq<nat>

    function State(): Store
      reads this
    {
      Store(competitions, saved)
    }

    constructor (e: Event, cs: seq<CompetitionFlags>)
      ensures event == e && competitions == cs && saved == []
    {
      event := e;
      competitions := cs;
      saved := [];
    }

    /** `_update_competitions`. */
    method UpdateCompetitions(f: Flag, v: bool)
      modifies this
      ensures State() == Propagate(old(State()), f, v)
      ensures event == old(event)
    {
      var i := 0;
      while i < |competitions|
        invariant 0 <= i <= |competitions| == |old(competitions)|
        invariant PropagateFrom(State(), f, v, i) == PropagateFrom(old(State()), f, v, 0)
        invariant event == old(event)
      {
        if GetFlag(competitions[i], f) != v {
          saved := saved + [competitions[i].id];
          competitions := competitions[i := SetFlag(competitions[i], f, v)];
        }
        i := i + 1;
      }
    }

    /** `perform_update`: at most one of the three branches cascades, and
        the event itself is saved in every case. */
    method PerformUpdate(d: Submitted, includeCompetitions: bool, removeApproval: bool, approveWithEvent: bool)
      modifies this
      ensures State() == UpdateSpec(old(event), d, includeCompetitions, removeApproval, approveWithEvent, old(State()))
      ensures event == Applied(old(event), d)
    {
      if includeCompetitions {
        for k := 0 to |Flags|
          invariant State() == CascadeFlags(old(event), d, Flags[..k], old(State()))
          invariant event == old(event)
        {
          assert Flags[..k + 1][..k] == Flags[..k];
          var f := Flags[k];
          if Given(d, f).Some? && Given(d, f).value != EventFlag(event, f) {
            UpdateCompetitions(f, Given(d, f).value);
          }
        }
        assert Flags[..|Flags|] == Flags;
      } else if removeApproval && event.approved && d.approved.Some? && !d.approved.value {
        UpdateCompetitions(ApprovedFlag, false);
      } else if approveWithEvent && !event.approved && d.approved.Some? && d.approved.value {
        UpdateCompetitions(ApprovedFlag, true);
      }
      event := Applied(event, d);
    }
  }

  /** Un-approving an approved event with the removal setting on (and no
      `include_competitions`) un-approves every competition of the event. */
  lemma UnapprovalCascades(e: Event, d: Submitted, approveWithEvent: bool, s: Store)
    requires e.approved && d.approved == Some(false)
    ensures var r := UpdateSpec(e, d, false, true, approveWithEvent, s);
      |r.competitions| == |s.competitions|
      && forall j :: 0 <= j < |r.competitions| ==> !r.competitions[j].approved
  {
    var r := Propagate(s, ApprovedFlag, false);
    forall j | 0 <= j < |r.competitions|
      ensures !r.competitions[j].approved
    {
      assert GetFlag(r.competitions[j], ApprovedFlag) == false;
    }
  }

  /** With `include_competitions`, a request that repeats the event's own
      flags cascades nothing, whatever the two settings say. */
  lemma UnchangedFlagsCascadeNothing(e: Event, d: Submitted, removeApproval: bool,
                                     approveWithEvent: bool, s: Store)
    requires forall f :: Given(d, f).Some? ==> Given(d, f).value == EventFlag(e, f)
    ensures UpdateSpec(e, d, true, removeApproval, approveWithEvent, s) == s
  {
    assert Flags[..2] == [PublicFlag, LockedFlag];
    assert Flags[..2][..1] == [PublicFlag];
    assert Flags[..|Flags| - 1] == Flags[..2];
    assert CascadeFlag(e, d, PublicFlag, s) == s;
    assert CascadeFlags(e, d, [PublicFlag], s) == s;
    assert CascadeFlags(e, d, Flags[..2], s) == s;
  }

  /** With `include_competitions`, a submitted flag that differs from the
      event's is set on every competition, whatever the settings. */
  lemma ApprovalCascadesWithCompetitions(e: Event, d: Submitted, removeApproval: bool,
                                         approveWithEvent: bool, s: Store)
    requires d.approved.Some? && d.approved.value != e.approved
    ensures var r := UpdateSpec(e, d, true, removeApproval, approveWithEvent, s);
      forall j :: 0 <= j < |r.competitions| ==> r.competitions[j].approved == d.approved.value
  {
    assert Flags[..|Flags| - 1] == Flags[..2];
    var mid := CascadeFlags(e, d, Flags[..2], s);
    var r := Propagate(mid, ApprovedFlag, d.approved.value);
    assert UpdateSpec(e, d, true, removeApproval, approveWithEvent, s) == r;
    forall j | 0 <= j < |r.competitions|
      ensures r.competitions[j].approved == d.approved.value
    {
      assert GetFlag(r.competitions[j], ApprovedFlag) == d.approved.value;
    }
  }

  /** The LIMIT_NON_PUBLIC_EVENT_AND_COMPETITION setting. */
  datatype LimitMode = LimitStaff | LimitAuthenticated | NoLimit

  /** `get_queryset`: the events a user is listed, in their order. */
  function VisibleEvents(mode: LimitMode, u: User, events: seq<Event>): (shown: seq<Event>)
    ensures forall e :: e in shown <==>
      (e in events
       && (mode == LimitStaff && !StaffOrSuperuser(u) ==>
             e.public || (e.organization.Some? && InGroup(u, e.organization.value.group)))
       && (mode == LimitAuthenticated && !IsAuthenticated(u) ==> e.public))
  {
    match mode
    case LimitStaff =>
      if !IsSuperuser(u) && !IsStaff(u) then
        Filter(events, (e: Event) => e.public
          || (e.organization.Some? && e.organization.value.group.Some?
              && u.Member? && e.organization.value.group.value in u.groups))
      else events
    case LimitAuthenticated =>
      if !IsAuthenticated(u) then Filter(events, (e: Event) => e.public) else events
    case NoLimit => events
  }
}
