/**
  Group memberships managed from directories and OIDC sources, beside those placed by hand.
  A managed row remembers whether the user was already a member when it was created.
 */
module DirectorySync {
  import opened Common

  type Id = nat

  datatype Identity = Identity(source: Id, user: Id, subject: string)
  datatype Mapping = Mapping(source: Id, externalGroup: string, group: Id, autoCreate: bool, enabled: bool)
  datatype Member = Member(user: Id, group: Id)

  /** A managed row: identity and mapping by position; its value is `preserve_membership_on_unlink`. */
  datatype Link = Link(identity: nat, mapping: nat)
  datatype Default = Default(group: Id, preserve: bool)

  datatype State = State(
    identities: seq<Identity>,
    members: set<Member>,
    links: map<Link, bool>,
    defaults: map<nat, Default>)

  /** Rows point at existing identities and mappings. */
  ghost predicate WellFormed(mappings: seq<Mapping>, s: State) {
    && (forall l :: l in s.links ==> l.identity < |s.identities| && l.mapping < |mappings|)
    && (forall i :: i in s.defaults ==> i < |s.identities|)
  }

  function MemberOf(mappings: seq<Mapping>, s: State, l: Link): Member
    requires l.identity < |s.identities| && l.mapping < |mappings|
  {
    Member(s.identities[l.identity].user, mappings[l.mapping].group)
  }

  predicate ManagedElsewhere(mappings: seq<Mapping>, s: State, mb: Member)
    requires WellFormed(mappings, s)
  {
    exists l :: l in s.links && MemberOf(mappings, s, l) == mb
  }

  // ----- reconciling external memberships -----

  datatype Progress = Progress(state: State, changed: nat)

  /** One turn of the first loop; `None` where the unique constraint on rows is violated. */
  function AddOne(mappings: seq<Mapping>, p: Progress, id: nat, m: nat, existing: set<nat>): Option<Progress>
    requires id < |p.state.identities| && m < |mappings|
  {
    var s, l := p.state, Link(id, m);
    if m in existing then Some(p)
    else if l in s.links then None
    else
      var mb := MemberOf(mappings, s, l);
      var was := mb in s.members;
      Some(Progress(s.(links := s.links[l := was], members := s.members + {mb}), p.changed + if was then 0 else 1))
  }

  function AddAll(mappings: seq<Mapping>, s: State, id: nat, matched: seq<nat>, existing: set<nat>): (r: Option<Progress>)
    requires id < |s.identities| && forall k :: 0 <= k < |matched| ==> matched[k] < |mappings|
    ensures r.Some? ==> r.value.state.identities == s.identities
  {
    if matched == [] then Some(Progress(s, 0))
    else
      var p := AddAll(mappings, s, id, matched[..|matched| - 1], existing);
      if p.None? then None else AddOne(mappings, p.value, id, matched[|matched| - 1], existing)
  }

  /** One turn of the second loop. */
  function RemoveOne(mappings: seq<Mapping>, p: Progress, id: nat, m: nat, matched: seq<nat>): Progress
    requires WellFormed(mappings, p.state) && id < |p.state.identities| && m < |mappings|
  {
    var s, l := p.state, Link(id, m);
    if m in matched || l !in s.links then p
    else
      var mb := MemberOf(mappings, s, l);
      var unlinked := s.(links := s.links - {l});
      if !s.links[l] && !ManagedElsewhere(mappings, unlinked, mb)
      then Progress(unlinked.(members := unlinked.members - {mb}), p.changed + 1)
      else Progress(unlinked, p.changed)
  }

  function RemoveAll(mappings: seq<Mapping>, s: State, id: nat, order: seq<nat>, matched: seq<nat>): (r: Progress)
    requires WellFormed(mappings, s) && id < |s.identities| && forall k :: 0 <= k < |order| ==> order[k] < |mappings|
    ensures WellFormed(mappings, r.state) && r.state.identities == s.identities
  {
    if order == [] then Progress(s, 0)
    else RemoveOne(mappings, RemoveAll(mappings, s, id, order[..|order| - 1], matched), id, order[|order| - 1], matched)
  }

  function Existing(s: State, id: nat): set<nat> {
    set l | l in s.links && l.identity == id :: l.mapping
  }

  /** The rows of an identity, in the order in which the query returned them. */
  ghost predicate Lists(s: State, id: nat, order: seq<nat>) {
    Distinct(order) && forall m :: m in order <==> m in Existing(s, id)
  }

  datatype Outcome = Outcome(state: State, added: nat, removed: nat)

  function Reconcile(mappings: seq<Mapping>, s: State, id: nat, matched: seq<nat>, order: seq<nat>): (r: Option<Outcome>)
    requires WellFormed(mappings, s) && id < |s.identities| && Lists(s, id, order)
    requires forall k :: 0 <= k < |matched| ==> matched[k] < |mappings|
  {
    var added := AddAll(mappings, s, id, matched, Existing(s, id));
    if added.None? then None
    else
      AddAllWellFormed(mappings, s, id, matched, Existing(s, id));
      OrderInRange(mappings, s, id, order);
      var removed := RemoveAll(mappings, added.value.state, id, order, matched);
      Some(Outcome(removed.state, added.value.changed, removed.changed))
  }

  lemma {:induction false} AddAllWellFormed(mappings: seq<Mapping>, s: State, id: nat, matched: seq<nat>, existing: set<nat>)
    requires WellFormed(mappings, s) && id < |s.identities| && forall k :: 0 <= k < |matched| ==> matched[k] < |mappings|
    requires AddAll(mappings, s, id, matched, existing).Some?
    ensures WellFormed(mappings, AddAll(mappings, s, id, matched, existing).value.state)
  {
    if matched != [] {
      AddAllWellFormed(mappings, s, id, matched[..|matched| - 1], existing);
    }
  }

  lemma OrderInRange(mappings: seq<Mapping>, s: State, id: nat, order: seq<nat>)
    requires WellFormed(mappings, s) && Lists(s, id, order)
    ensures forall k :: 0 <= k < |order| ==> order[k] < |mappings|
  {
    forall k | 0 <= k < |order|
      ensures order[k] < |mappings|
    {
      assert order[k] in order;
    }
  }

  // ----- the OIDC fallback group -----

  predicate DefaultElsewhere(s: State, mb: Member)
    requires forall i :: i in s.defaults ==> i < |s.identities|
  {
    exists i :: i in s.defaults && Member(s.identities[i].user, s.defaults[i].group) == mb
  }

  /** The old fallback is undone unless it is to be preserved or managed elsewhere. */
  ghost function DropDefault(mappings: seq<Mapping>, s: State, id: nat): (r: State)
    requires WellFormed(mappings, s) && id in s.defaults
    ensures WellFormed(mappings, r) && r.identities == s.identities
  {
    var d := s.defaults[id];
    var mb := Member(s.identities[id].user, d.group);
    var unlinked := s.(defaults := s.defaults - {id});
    if !d.preserve && !ManagedElsewhere(mappings, unlinked, mb) && !DefaultElsewhere(unlinked, mb)
    then unlinked.(members := unlinked.members - {mb}) else unlinked
  }

  ghost function AddDefault(mappings: seq<Mapping>, s: State, id: nat, group: Id): (r: State)
    requires WellFormed(mappings, s) && id < |s.identities|
    ensures WellFormed(mappings, r) && r.identities == s.identities
  {
    var mb := Member(s.identities[id].user, group);
    s.(defaults := s.defaults[id := Default(group, mb in s.members)], members := s.members + {mb})
  }

  ghost function ReconcileDefault(mappings: seq<Mapping>, s: State, id: nat, group: Option<Id>): (r: State)
    requires WellFormed(mappings, s) && id < |s.identities|
    ensures WellFormed(mappings, r) && r.identities == s.identities
  {
    if id in s.defaults && group == Some(s.defaults[id].group) then s
    else
      var dropped := if id in s.defaults then DropDefault(mappings, s, id) else s;
      if group.Some? then AddDefault(mappings, dropped, id, group.value) else dropped
  }

  // ----- what one reconciliation keeps -----

  /** Every managed row stands for an actual membership. */
  ghost predicate Backed(mappings: seq<Mapping>, s: State)
    requires WellFormed(mappings, s)
  {
    forall l :: l in s.links ==> MemberOf(mappings, s, l) in s.members
  }

  /** A membership that every row about it would preserve. */
  ghost predicate Protected(mappings: seq<Mapping>, s: State, mb: Member)
    requires WellFormed(mappings, s)
  {
    && mb in s.members
    && (forall l :: l in s.links && MemberOf(mappings, s, l) == mb ==> s.links[l])
    && (forall i :: i in s.defaults && Member(s.identities[i].user, s.defaults[i].group) == mb ==> s.defaults[i].preserve)
  }

  ghost function GroupsOf(members: set<Member>, user: Id): set<Member> {
    set mb | mb in members && mb.user == user
  }

  /** `after` differs from `before` in `delta` groups of `user` and in nobody else's. */
  ghost predicate Shifts(before: set<Member>, after: set<Member>, user: Id, delta: int) {
    && |after| == |before| + delta
    && |GroupsOf(after, user)| == |GroupsOf(before, user)| + delta
    && forall mb: Member :: mb.user != user ==> (mb in after <==> mb in before)
  }

  lemma MembershipShifts(before: set<Member>, mb: Member)
    ensures mb !in before ==> Shifts(before, before + {mb}, mb.user, 1)
    ensures mb in before ==> before + {mb} == before && Shifts(before, before - {mb}, mb.user, -1)
  {
    if mb in before {
      assert GroupsOf(before, mb.user) == GroupsOf(before - {mb}, mb.user) + {mb};
      assert before == (before - {mb}) + {mb};
    } else {
      assert GroupsOf(before + {mb}, mb.user) == GroupsOf(before, mb.user) + {mb};
    }
  }

  lemma AddOneKeeps(mappings: seq<Mapping>, p: Progress, id: nat, m: nat, existing: set<nat>)
    requires WellFormed(mappings, p.state) && id < |p.state.identities| && m < |mappings|
    requires AddOne(mappings, p, id, m, existing).Some?
    ensures var q := AddOne(mappings, p, id, m, existing).value;
            && WellFormed(mappings, q.state) && q.state.identities == p.state.identities
            && (Backed(mappings, p.state) ==> Backed(mappings, q.state))
            && (forall mb :: Protected(mappings, p.state, mb) ==> Protected(mappings, q.state, mb))
            && Shifts(p.state.members, q.state.members, p.state.identities[id].user, q.changed - p.changed)
  {
    MembershipShifts(p.state.members, MemberOf(mappings, p.state, Link(id, m)));
  }

  lemma RemoveOneKeeps(mappings: seq<Mapping>, p: Progress, id: nat, m: nat, matched: seq<nat>)
    requires WellFormed(mappings, p.state) && id < |p.state.identities| && m < |mappings| && Backed(mappings, p.state)
    ensures var q := RemoveOne(mappings, p, id, m, matched);
            && WellFormed(mappings, q.state) && q.state.identities == p.state.identities
            && Backed(mappings, q.state)
            && (forall mb :: Protected(mappings, p.state, mb) ==> Protected(mappings, q.state, mb))
            && Shifts(p.state.members, q.state.members, p.state.identities[id].user, p.changed - q.changed)
  {
    MembershipShifts(p.state.members, MemberOf(mappings, p.state, Link(id, m)));
  }

  lemma {:induction false} AddAllKeeps(mappings: seq<Mapping>, s: State, id: nat, matched: seq<nat>, existing: set<nat>)
    requires WellFormed(mappings, s) && Backed(mappings, s) && id < |s.identities|
    requires forall k :: 0 <= k < |matched| ==> matched[k] < |mappings|
    requires AddAll(mappings, s, id, matched, existing).Some?
    ensures var q := AddAll(mappings, s, id, matched, existing).value;
            && WellFormed(mappings, q.state) && Backed(mappings, q.state)
            && (forall mb :: Protected(mappings, s, mb) ==> Protected(mappings, q.state, mb))
            && Shifts(s.members, q.state.members, s.identities[id].user, q.changed)
  {
    if matched != [] {
      var n := |matched| - 1;
      AddAllKeeps(mappings, s, id, matched[..n], existing);
      AddOneKeeps(mappings, AddAll(mappings, s, id, matched[..n], existing).value, id, matched[n], existing);
    }
  }

  lemma {:induction false} RemoveAllKeeps(mappings: seq<Mapping>, s: State, id: nat, order: seq<nat>, matched: seq<nat>)
    requires WellFormed(mappings, s) && Backed(mappings, s) && id < |s.identities|
    requires forall k :: 0 <= k < |order| ==> order[k] < |mappings|
    ensures var q := RemoveAll(mappings, s, id, order, matched);
            && Backed(mappings, q.state)
            && (forall mb :: Protected(mappings, s, mb) ==> Protected(mappings, q.state, mb))
            && Shifts(s.members, q.state.members, s.identities[id].user, 0 - q.changed)
  {
    if order != [] {
      var n := |order| - 1;
      RemoveAllKeeps(mappings, s, id, order[..n], matched);
      RemoveOneKeeps(mappings, RemoveAll(mappings, s, id, order[..n], matched), id, order[n], matched);
    }
  }

  /** A reconciliation keeps rows backed and protected memberships, and moves the user's group count by added - removed. */
  lemma ReconcileKeeps(mappings: seq<Mapping>, s: State, id: nat, matched: seq<nat>, order: seq<nat>)
    requires WellFormed(mappings, s) && Backed(mappings, s) && id < |s.identities| && Lists(s, id, order)
    requires forall k :: 0 <= k < |matched| ==> matched[k] < |mappings|
    requires Reconcile(mappings, s, id, matched, order).Some?
    ensures var r := Reconcile(mappings, s, id, matched, order).value;
            && r.state.identities == s.identities
            && WellFormed(mappings, r.state) && Backed(mappings, r.state)
            && (forall mb :: Protected(mappings, s, mb) ==> Protected(mappings, r.state, mb))
            && Shifts(s.members, r.state.members, s.identities[id].user, r.added - r.removed)
  {
    var a := AddAll(mappings, s, id, matched, Existing(s, id)).value;
    AddAllKeeps(mappings, s, id, matched, Existing(s, id));
    OrderInRange(mappings, s, id, order);
    RemoveAllKeeps(mappings, a.state, id, order, matched);
    var r := RemoveAll(mappings, a.state, id, order, matched);
    ShiftsCompose(s.members, a.state.members, r.state.members, s.identities[id].user, a.changed, 0 - r.changed);
  }

  lemma ShiftsCompose(a: set<Member>, b: set<Member>, c: set<Member>, user: Id, d: int, e: int)
    requires Shifts(a, b, user, d) && Shifts(b, c, user, e)
    ensures Shifts(a, c, user, d + e)
  {
  }

  lemma DefaultKeeps(mappings: seq<Mapping>, s: State, id: nat, group: Option<Id>)
    requires WellFormed(mappings, s) && id < |s.identities|
    ensures var r := ReconcileDefault(mappings, s, id, group);
            && (Backed(mappings, s) ==> Backed(mappings, r))
            && (forall mb :: Protected(mappings, s, mb) ==> Protected(mappings, r, mb))
  {
    if id in s.defaults {
      DropDefaultKeeps(mappings, s, id);
    }
  }

  lemma DropDefaultKeeps(mappings: seq<Mapping>, s: State, id: nat)
    requires WellFormed(mappings, s) && id in s.defaults
    ensures var r := DropDefault(mappings, s, id);
            && (Backed(mappings, s) ==> Backed(mappings, r))
            && (forall mb :: Protected(mappings, s, mb) ==> Protected(mappings, r, mb))
  {
    var unlinked := s.(defaults := s.defaults - {id});
    assert forall l :: l in s.links ==> MemberOf(mappings, unlinked, l) == MemberOf(mappings, s, l);
  }

  // ----- runs -----

  datatype Step =
    | External(identity: nat, matched: seq<nat>, order: seq<nat>)
    | Fallback(identity: nat, group: Option<Id>)

  ghost predicate Enabled(mappings: seq<Mapping>, s: State, step: Step) {
    && step.identity < |s.identities|
    && (step.External? ==> Lists(s, step.identity, step.order) && forall k :: 0 <= k < |step.matched| ==> step.matched[k] < |mappings|)
  }

  /** A call that raises is undone. */
  ghost function Next(mappings: seq<Mapping>, s: State, step: Step): (r: State)
    requires WellFormed(mappings, s)
    ensures WellFormed(mappings, r) && r.identities == s.identities
  {
    if !Enabled(mappings, s, step) then s
    else match step
      case External(id, matched, order) =>
        var r := Reconcile(mappings, s, id, matched, order);
        if r.None? then s else r.value.state
      case Fallback(id, group) => ReconcileDefault(mappings, s, id, group)
  }

  ghost function Run(mappings: seq<Mapping>, s: State, steps: seq<Step>): (r: State)
    requires WellFormed(mappings, s)
    ensures WellFormed(mappings, r) && r.identities == s.identities
  {
    if steps == [] then s else Next(mappings, Run(mappings, s, steps[..|steps| - 1]), steps[|steps| - 1])
  }

  lemma NextKeeps(mappings: seq<Mapping>, s: State, step: Step)
    requires WellFormed(mappings, s) && Backed(mappings, s)
    ensures Backed(mappings, Next(mappings, s, step))
    ensures forall mb :: Protected(mappings, s, mb) ==> Protected(mappings, Next(mappings, s, step), mb)
  {
    if Enabled(mappings, s, step) {
      match step {
        case External(id, matched, order) =>
          if Reconcile(mappings, s, id, matched, order).Some? {
            ReconcileKeeps(mappings, s, id, matched, order);
          }
        case Fallback(id, group) => DefaultKeeps(mappings, s, id, group);
      }
    }
  }

  /**
    Over every interleaving of both reconciliations: managed rows imply membership, and a
    membership that was there before any row about it is never taken away.
   */
  lemma {:induction false} EarlierMembershipsSurvive(mappings: seq<Mapping>, s: State, steps: seq<Step>)
    requires WellFormed(mappings, s) && Backed(mappings, s)
    ensures Backed(mappings, Run(mappings, s, steps))
    ensures forall mb :: Protected(mappings, s, mb) ==> Protected(mappings, Run(mappings, s, steps), mb)
  {
    if steps != [] {
      EarlierMembershipsSurvive(mappings, s, steps[..|steps| - 1]);
      NextKeeps(mappings, Run(mappings, s, steps[..|steps| - 1]), steps[|steps| - 1]);
    }
  }

  // ----- when a reconciliation raises -----

  ghost predicate InRange(mappings: seq<Mapping>, matched: seq<nat>) {
    forall k :: 0 <= k < |matched| ==> matched[k] < |mappings|
  }

  /** Some match that has no row yet occurs twice. */
  ghost predicate RepeatsNew(matched: seq<nat>, existing: set<nat>) {
    exists j, k :: 0 <= j < k < |matched| && matched[j] == matched[k] && matched[j] !in existing
  }

  lemma RepeatsLast(matched: seq<nat>, existing: set<nat>)
    requires matched != []
    ensures var n := |matched| - 1;
            RepeatsNew(matched, existing) <==>
            RepeatsNew(matched[..n], existing) || (matched[n] !in existing && matched[n] in matched[..n])
  {
    var n := |matched| - 1;
    var earlier := matched[..n];
    if RepeatsNew(earlier, existing) {
      var j, k :| 0 <= j < k < n && earlier[j] == earlier[k] && earlier[j] !in existing;
      assert matched[j] == matched[k];
    }
    if matched[n] !in existing && matched[n] in earlier {
      var j :| 0 <= j < n && earlier[j] == matched[n];
      assert matched[j] == matched[n];
    }
    if j, k :| 0 <= j < k < |matched| && matched[j] == matched[k] && matched[j] !in existing {
      assert earlier[j] == matched[j];
      assert k < n ==> earlier[k] == matched[k];
    }
  }

  // ----- the rows of an identity are its matches -----

  lemma {:induction false} AddAllLinks(mappings: seq<Mapping>, s: State, id: nat, matched: seq<nat>, existing: set<nat>)
    requires WellFormed(mappings, s) && id < |s.identities| && forall k :: 0 <= k < |matched| ==> matched[k] < |mappings|
    requires existing == Existing(s, id) && AddAll(mappings, s, id, matched, existing).Some?
    ensures var q := AddAll(mappings, s, id, matched, existing).value.state;
            && (forall m :: Link(id, m) in q.links <==> m in existing || m in matched)
            && (forall l: Link :: l.identity != id ==> (l in q.links <==> l in s.links))
            && q.defaults == s.defaults
  {
    forall m: nat
      ensures Link(id, m) in s.links <==> m in existing
    {
      if Link(id, m) in s.links {
        assert Link(id, m).mapping == m;
      }
    }
    if matched != [] {
      var n := |matched| - 1;
      AddAllLinks(mappings, s, id, matched[..n], existing);
      assert matched == matched[..n] + [matched[n]];
    }
  }

  lemma {:induction false} RemoveAllLinks(mappings: seq<Mapping>, s: State, id: nat, order: seq<nat>, matched: seq<nat>)
    requires WellFormed(mappings, s) && id < |s.identities| && forall k :: 0 <= k < |order| ==> order[k] < |mappings|
    ensures var q := RemoveAll(mappings, s, id, order, matched).state;
            && (forall m :: Link(id, m) in q.links <==> Link(id, m) in s.links && (m in matched || m !in order))
            && (forall l: Link :: l.identity != id ==> (l in q.links <==> l in s.links))
            && q.defaults == s.defaults
  {
    if order != [] {
      var n := |order| - 1;
      RemoveAllLinks(mappings, s, id, order[..n], matched);
      assert order == order[..n] + [order[n]];
    }
  }

  /** The first loop raises exactly if a match without a row occurs twice. */
  lemma {:induction false} AddAllRaisesIff(mappings: seq<Mapping>, s: State, id: nat, matched: seq<nat>, existing: set<nat>)
    requires WellFormed(mappings, s) && id < |s.identities| && InRange(mappings, matched) && existing == Existing(s, id)
    ensures AddAll(mappings, s, id, matched, existing).None? <==> RepeatsNew(matched, existing)
  {
    if matched != [] {
      var n := |matched| - 1;
      AddAllRaisesIff(mappings, s, id, matched[..n], existing);
      RepeatsLast(matched, existing);
      if AddAll(mappings, s, id, matched[..n], existing).Some? {
        AddAllLinks(mappings, s, id, matched[..n], existing);
      }
    }
  }

  /** And so does the whole reconciliation. */
  lemma ReconcileRaisesIff(mappings: seq<Mapping>, s: State, id: nat, matched: seq<nat>, order: seq<nat>)
    requires WellFormed(mappings, s) && id < |s.identities| && Lists(s, id, order) && InRange(mappings, matched)
    ensures Reconcile(mappings, s, id, matched, order).None? <==> RepeatsNew(matched, Existing(s, id))
  {
    AddAllRaisesIff(mappings, s, id, matched, Existing(s, id));
  }

  /** After a reconciliation the identity's rows are exactly its matches; nobody else's rows changed. */
  lemma RowsEqualMatches(mappings: seq<Mapping>, s: State, id: nat, matched: seq<nat>, order: seq<nat>)
    requires WellFormed(mappings, s) && id < |s.identities| && Lists(s, id, order)
    requires forall k :: 0 <= k < |matched| ==> matched[k] < |mappings|
    requires Reconcile(mappings, s, id, matched, order).Some?
    ensures var r := Reconcile(mappings, s, id, matched, order).value.state;
            && (forall m :: m in Existing(r, id) <==> m in matched)
            && (forall l: Link :: l.identity != id ==> (l in r.links <==> l in s.links))
            && r.defaults == s.defaults
  {
    var existing := Existing(s, id);
    AddAllLinks(mappings, s, id, matched, existing);
    AddAllWellFormed(mappings, s, id, matched, existing);
    OrderInRange(mappings, s, id, order);
    var a := AddAll(mappings, s, id, matched, existing).value.state;
    RemoveAllLinks(mappings, a, id, order, matched);
    var r := RemoveAll(mappings, a, id, order, matched).state;
    forall m: nat
      ensures m in Existing(r, id) <==> m in matched
    {
      if m in matched {
        assert Link(id, m) in r.links && Link(id, m).mapping == m;
      }
      assert m in existing <==> m in order;
    }
  }

  lemma {:induction false} AddNothing(mappings: seq<Mapping>, s: State, id: nat, matched: seq<nat>, existing: set<nat>)
    requires id < |s.identities| && forall k :: 0 <= k < |matched| ==> matched[k] < |mappings| && matched[k] in existing
    ensures AddAll(mappings, s, id, matched, existing) == Some(Progress(s, 0))
  {
    if matched != [] {
      AddNothing(mappings, s, id, matched[..|matched| - 1], existing);
    }
  }

  lemma {:induction false} RemoveNothing(mappings: seq<Mapping>, s: State, id: nat, order: seq<nat>, matched: seq<nat>)
    requires WellFormed(mappings, s) && id < |s.identities|
    requires forall k :: 0 <= k < |order| ==> order[k] < |mappings| && order[k] in matched
    ensures RemoveAll(mappings, s, id, order, matched) == Progress(s, 0)
  {
    if order != [] {
      RemoveNothing(mappings, s, id, order[..|order| - 1], matched);
    }
  }

  /** Reconciling again with the same matches, in whatever order the rows come, does nothing. */
  lemma RepeatedReconcileIsNoOp(mappings: seq<Mapping>, s: State, id: nat, matched: seq<nat>, order: seq<nat>, again: seq<nat>)
    requires WellFormed(mappings, s) && id < |s.identities| && Lists(s, id, order)
    requires forall k :: 0 <= k < |matched| ==> matched[k] < |mappings|
    requires Reconcile(mappings, s, id, matched, order).Some?
    requires Lists(Reconcile(mappings, s, id, matched, order).value.state, id, again)
    ensures var r := Reconcile(mappings, s, id, matched, order).value.state;
            WellFormed(mappings, r) && r.identities == s.identities && Reconcile(mappings, r, id, matched, again) == Some(Outcome(r, 0, 0))
  {
    var existing := Existing(s, id);
    AddAllWellFormed(mappings, s, id, matched, existing);
    OrderInRange(mappings, s, id, order);
    var r := Reconcile(mappings, s, id, matched, order).value.state;
    RowsEqualMatches(mappings, s, id, matched, order);
    assert forall k :: 0 <= k < |matched| ==> matched[k] in matched;
    AddNothing(mappings, r, id, matched, Existing(r, id));
    assert forall k :: 0 <= k < |again| ==> again[k] in again;
    OrderInRange(mappings, r, id, again);
    RemoveNothing(mappings, r, id, again, matched);
  }

  // ----- when members are those placed by hand and those with a row -----

  /** Members are those placed by hand and those with a row; a row preserves exactly what was placed by hand. */
  ghost predicate Accounted(mappings: seq<Mapping>, s: State, manual: set<Member>)
    requires WellFormed(mappings, s)
  {
    && (forall mb :: mb in s.members <==> mb in manual || ManagedElsewhere(mappings, s, mb))
    && (forall l :: l in s.links ==> (s.links[l] <==> MemberOf(mappings, s, l) in manual))
  }

  lemma LinkedMembers(mappings: seq<Mapping>, s: State, q: State, l: Link)
    requires WellFormed(mappings, s) && WellFormed(mappings, q) && q.identities == s.identities
    requires l !in s.links && q.links.Keys == s.links.Keys + {l}
    ensures forall x :: ManagedElsewhere(mappings, q, x) <==> x == MemberOf(mappings, q, l) || ManagedElsewhere(mappings, s, x)
  {
    forall x
      ensures ManagedElsewhere(mappings, q, x) <==> x == MemberOf(mappings, q, l) || ManagedElsewhere(mappings, s, x)
    {
      if k :| k in s.links && MemberOf(mappings, s, k) == x {
        assert k in q.links && MemberOf(mappings, q, k) == x;
      }
      if k :| k in q.links && MemberOf(mappings, q, k) == x && k != l {
        assert k in s.links && MemberOf(mappings, s, k) == x;
      }
    }
  }

  lemma OnlyLinksMatter(mappings: seq<Mapping>, s: State, q: State, mb: Member)
    requires WellFormed(mappings, s) && WellFormed(mappings, q) && q.identities == s.identities && q.links == s.links
    ensures ManagedElsewhere(mappings, s, mb) == ManagedElsewhere(mappings, q, mb)
  {
    forall l | l in s.links
      ensures MemberOf(mappings, s, l) == MemberOf(mappings, q, l)
    {
    }
  }

  /** A new row keeps the account exactly if its membership was placed by hand or is new with it. */
  lemma AddOneAccountedIff(mappings: seq<Mapping>, p: Progress, id: nat, m: nat, existing: set<nat>, manual: set<Member>)
    requires WellFormed(mappings, p.state) && Accounted(mappings, p.state, manual)
    requires id < |p.state.identities| && m < |mappings| && AddOne(mappings, p, id, m, existing).Some?
    ensures var q := AddOne(mappings, p, id, m, existing).value.state;
            var mb := MemberOf(mappings, p.state, Link(id, m));
            && WellFormed(mappings, q)
            && (Accounted(mappings, q, manual) <==> m in existing || mb in manual || mb !in p.state.members)
  {
    var s, l := p.state, Link(id, m);
    var q := AddOne(mappings, p, id, m, existing).value.state;
    if m !in existing {
      LinkedMembers(mappings, s, q, l);
      assert q.links[l] == (MemberOf(mappings, s, l) in s.members) && MemberOf(mappings, q, l) == MemberOf(mappings, s, l);
    }
  }

  /** Removing a row always keeps it. */
  lemma RemoveOneAccounted(mappings: seq<Mapping>, p: Progress, id: nat, m: nat, matched: seq<nat>, manual: set<Member>)
    requires WellFormed(mappings, p.state) && Accounted(mappings, p.state, manual)
    requires id < |p.state.identities| && m < |mappings|
    ensures var q := RemoveOne(mappings, p, id, m, matched).state;
            WellFormed(mappings, q) && Accounted(mappings, q, manual)
  {
    var s, l := p.state, Link(id, m);
    if !(m in matched || l !in s.links) {
      var q := RemoveOne(mappings, p, id, m, matched).state;
      LinkedMembers(mappings, q, s, l);
      OnlyLinksMatter(mappings, s.(links := s.links - {l}), q, MemberOf(mappings, s, l));
    }
  }

  lemma {:induction false} RemoveAllAccounted(mappings: seq<Mapping>, s: State, id: nat, order: seq<nat>, matched: seq<nat>, manual: set<Member>)
    requires WellFormed(mappings, s) && Accounted(mappings, s, manual)
    requires id < |s.identities| && forall k :: 0 <= k < |order| ==> order[k] < |mappings|
    ensures Accounted(mappings, RemoveAll(mappings, s, id, order, matched).state, manual)
  {
    if order != [] {
      var n := |order| - 1;
      RemoveAllAccounted(mappings, s, id, order[..n], matched, manual);
      RemoveOneAccounted(mappings, RemoveAll(mappings, s, id, order[..n], matched), id, order[n], matched, manual);
    }
  }

  /** The match at `k` has its row already, or its membership is placed by hand or new, and not new twice. */
  ghost predicate MatchClear(mappings: seq<Mapping>, s: State, id: nat, matched: seq<nat>, existing: set<nat>,
                             manual: set<Member>, k: nat)
    requires id < |s.identities| && k < |matched| && InRange(mappings, matched)
  {
    var mb := MemberOf(mappings, s, Link(id, matched[k]));
    || matched[k] in existing
    || mb in manual
    || (mb !in s.members &&
        forall j :: 0 <= j < k ==> matched[j] in existing || mappings[matched[j]].group != mappings[matched[k]].group)
  }

  ghost predicate MatchesClear(mappings: seq<Mapping>, s: State, id: nat, matched: seq<nat>, existing: set<nat>, manual: set<Member>)
    requires id < |s.identities| && InRange(mappings, matched)
  {
    forall k :: 0 <= k < |matched| ==> MatchClear(mappings, s, id, matched, existing, manual, k)
  }

  lemma ClearPrefix(mappings: seq<Mapping>, s: State, id: nat, matched: seq<nat>, existing: set<nat>, manual: set<Member>)
    requires id < |s.identities| && InRange(mappings, matched) && matched != []
    ensures var n := |matched| - 1;
            MatchesClear(mappings, s, id, matched, existing, manual) <==>
            MatchesClear(mappings, s, id, matched[..n], existing, manual) && MatchClear(mappings, s, id, matched, existing, manual, n)
  {
    var n := |matched| - 1;
    forall k | 0 <= k < n
      ensures MatchClear(mappings, s, id, matched[..n], existing, manual, k) <==> MatchClear(mappings, s, id, matched, existing, manual, k)
    {
      assert forall j :: 0 <= j <= k ==> matched[..n][j] == matched[j];
    }
  }

  /** The memberships after the first loop. */
  lemma {:induction false} AddAllMembers(mappings: seq<Mapping>, s: State, id: nat, matched: seq<nat>, existing: set<nat>, mb: Member)
    requires id < |s.identities| && InRange(mappings, matched) && AddAll(mappings, s, id, matched, existing).Some?
    ensures mb in AddAll(mappings, s, id, matched, existing).value.state.members <==>
            mb in s.members || exists j :: 0 <= j < |matched| && matched[j] !in existing && mb == MemberOf(mappings, s, Link(id, matched[j]))
  {
    if matched != [] {
      var n := |matched| - 1;
      AddAllMembers(mappings, s, id, matched[..n], existing, mb);
      assert forall j :: 0 <= j < n ==> matched[..n][j] == matched[j];
    }
  }

  /** A row that claims to preserve a membership which was not placed by hand. */
  ghost predicate Misleading(mappings: seq<Mapping>, s: State, manual: set<Member>, l: Link)
    requires WellFormed(mappings, s)
  {
    l in s.links && s.links[l] && MemberOf(mappings, s, l) !in manual
  }

  /** The first loop keeps the account if every match is clear, and otherwise leaves a misleading row. */
  lemma {:induction false} AddAllAccountedIff(mappings: seq<Mapping>, s: State, id: nat, matched: seq<nat>, existing: set<nat>, manual: set<Member>)
    requires WellFormed(mappings, s) && Accounted(mappings, s, manual) && id < |s.identities| && InRange(mappings, matched)
    requires AddAll(mappings, s, id, matched, existing).Some?
    ensures var q := AddAll(mappings, s, id, matched, existing).value.state;
            && WellFormed(mappings, q)
            && (MatchesClear(mappings, s, id, matched, existing, manual) ==> Accounted(mappings, q, manual))
            && (!MatchesClear(mappings, s, id, matched, existing, manual) ==>
                  exists m :: m in matched && Misleading(mappings, q, manual, Link(id, m)))
  {
    if matched != [] {
      var n := |matched| - 1;
      AddAllAccountedIff(mappings, s, id, matched[..n], existing, manual);
      ClearPrefix(mappings, s, id, matched, existing, manual);
      AddLastAccountedIff(mappings, s, id, matched, existing, manual);
    }
  }

  /** A match is clear exactly if the membership is placed by hand or still missing when its turn comes. */
  lemma ClearIffMissing(mappings: seq<Mapping>, s: State, id: nat, matched: seq<nat>, existing: set<nat>, manual: set<Member>, n: nat)
    requires id < |s.identities| && InRange(mappings, matched) && n < |matched|
    requires AddAll(mappings, s, id, matched[..n], existing).Some?
    ensures var p, mb := AddAll(mappings, s, id, matched[..n], existing).value.state, MemberOf(mappings, s, Link(id, matched[n]));
            MatchClear(mappings, s, id, matched, existing, manual, n) <==> matched[n] in existing || mb in manual || mb !in p.members
  {
    AddAllMembers(mappings, s, id, matched[..n], existing, MemberOf(mappings, s, Link(id, matched[n])));
    assert forall j :: 0 <= j < n ==> matched[..n][j] == matched[j];
  }

  lemma MisleadingStays(mappings: seq<Mapping>, p: Progress, id: nat, m: nat, existing: set<nat>, manual: set<Member>)
    requires WellFormed(mappings, p.state) && id < |p.state.identities| && m < |mappings| && AddOne(mappings, p, id, m, existing).Some?
    ensures var q, mb := AddOne(mappings, p, id, m, existing).value.state, MemberOf(mappings, p.state, Link(id, m));
            && WellFormed(mappings, q)
            && (forall l :: Misleading(mappings, p.state, manual, l) ==> Misleading(mappings, q, manual, l))
            && (m !in existing && mb !in manual && mb in p.state.members ==> Misleading(mappings, q, manual, Link(id, m)))
  {
  }

  lemma AddLastAccountedIff(mappings: seq<Mapping>, s: State, id: nat, matched: seq<nat>, existing: set<nat>, manual: set<Member>)
    requires WellFormed(mappings, s) && id < |s.identities| && InRange(mappings, matched) && matched != []
    requires AddAll(mappings, s, id, matched, existing).Some?
    ensures var n := |matched| - 1;
            && AddAll(mappings, s, id, matched[..n], existing).Some?
            && var p, q := AddAll(mappings, s, id, matched[..n], existing).value.state, AddAll(mappings, s, id, matched, existing).value.state;
               && WellFormed(mappings, p) && WellFormed(mappings, q)
               && (forall l :: Misleading(mappings, p, manual, l) ==> Misleading(mappings, q, manual, l))
               && (Accounted(mappings, p, manual) && MatchClear(mappings, s, id, matched, existing, manual, n) ==>
                     Accounted(mappings, q, manual))
               && (!MatchClear(mappings, s, id, matched, existing, manual, n) ==>
                     Misleading(mappings, q, manual, Link(id, matched[n])))
  {
    var n := |matched| - 1;
    var p := AddAll(mappings, s, id, matched[..n], existing).value;
    AddAllWellFormed(mappings, s, id, matched[..n], existing);
    ClearIffMissing(mappings, s, id, matched, existing, manual, n);
    MisleadingStays(mappings, p, id, matched[n], existing, manual);
    if Accounted(mappings, p.state, manual) {
      AddOneAccountedIff(mappings, p, id, matched[n], existing, manual);
    }
  }

  lemma {:induction false} RemoveAllKeepsMatched(mappings: seq<Mapping>, s: State, id: nat, order: seq<nat>, matched: seq<nat>, l: Link)
    requires WellFormed(mappings, s) && id < |s.identities| && forall k :: 0 <= k < |order| ==> order[k] < |mappings|
    requires l in s.links && l.mapping in matched
    ensures var q := RemoveAll(mappings, s, id, order, matched).state; l in q.links && q.links[l] == s.links[l]
  {
    if order != [] {
      RemoveAllKeepsMatched(mappings, s, id, order[..|order| - 1], matched, l);
    }
  }

  /** A reconciliation keeps the account exactly if every new match is for a membership placed by hand or new with it. */
  lemma ReconcileAccountedIff(mappings: seq<Mapping>, s: State, id: nat, matched: seq<nat>, order: seq<nat>, manual: set<Member>)
    requires WellFormed(mappings, s) && Accounted(mappings, s, manual) && id < |s.identities| && Lists(s, id, order)
    requires InRange(mappings, matched) && Reconcile(mappings, s, id, matched, order).Some?
    ensures var r := Reconcile(mappings, s, id, matched, order).value.state;
            && WellFormed(mappings, r)
            && (Accounted(mappings, r, manual) <==> MatchesClear(mappings, s, id, matched, Existing(s, id), manual))
  {
    var existing := Existing(s, id);
    var q := AddAll(mappings, s, id, matched, existing).value.state;
    AddAllAccountedIff(mappings, s, id, matched, existing, manual);
    OrderInRange(mappings, s, id, order);
    if MatchesClear(mappings, s, id, matched, existing, manual) {
      RemoveAllAccounted(mappings, q, id, order, matched, manual);
    } else {
      var m :| m in matched && Misleading(mappings, q, manual, Link(id, m));
      RemoveAllKeepsMatched(mappings, q, id, order, matched, Link(id, m));
      var r := RemoveAll(mappings, q, id, order, matched).state;
      assert Misleading(mappings, r, manual, Link(id, m));
    }
  }

  /** The fallback that is replaced would take an actual membership away. */
  ghost predicate FallbackTakes(mappings: seq<Mapping>, s: State, id: nat)
    requires WellFormed(mappings, s) && id < |s.identities|
  {
    id in s.defaults &&
    var mb, unlinked := Member(s.identities[id].user, s.defaults[id].group), s.(defaults := s.defaults - {id});
    mb in s.members && !s.defaults[id].preserve && !ManagedElsewhere(mappings, s, mb) && !DefaultElsewhere(unlinked, mb)
  }

  ghost predicate FallbackClear(mappings: seq<Mapping>, s: State, id: nat, group: Option<Id>)
    requires WellFormed(mappings, s) && id < |s.identities|
  {
    || (id in s.defaults && group == Some(s.defaults[id].group))
    || (!FallbackTakes(mappings, s, id) && (group.None? || Member(s.identities[id].user, group.value) in s.members))
  }

  /** If only memberships and fallback rows change, the account is kept exactly if no membership does. */
  lemma SameRowsAccountedIff(mappings: seq<Mapping>, s: State, r: State, manual: set<Member>)
    requires WellFormed(mappings, s) && WellFormed(mappings, r) && Accounted(mappings, s, manual)
    requires r.identities == s.identities && r.links == s.links
    ensures Accounted(mappings, r, manual) <==> forall mb :: mb in r.members <==> mb in s.members
  {
    forall mb ensures ManagedElsewhere(mappings, r, mb) == ManagedElsewhere(mappings, s, mb) {
      OnlyLinksMatter(mappings, s, r, mb);
    }
    assert forall l :: l in s.links ==> MemberOf(mappings, r, l) == MemberOf(mappings, s, l);
  }

  /** The fallback keeps the account exactly if it neither takes a membership away nor gives a new one. */
  lemma FallbackAccountedIff(mappings: seq<Mapping>, s: State, id: nat, group: Option<Id>, manual: set<Member>)
    requires WellFormed(mappings, s) && Accounted(mappings, s, manual) && id < |s.identities|
    ensures Accounted(mappings, ReconcileDefault(mappings, s, id, group), manual) <==> FallbackClear(mappings, s, id, group)
  {
    SameRowsAccountedIff(mappings, s, ReconcileDefault(mappings, s, id, group), manual);
    FallbackMembers(mappings, s, id, group);
  }

  lemma FallbackMembers(mappings: seq<Mapping>, s: State, id: nat, group: Option<Id>)
    requires WellFormed(mappings, s) && id < |s.identities|
    ensures (forall mb :: mb in ReconcileDefault(mappings, s, id, group).members <==> mb in s.members) <==>
            FallbackClear(mappings, s, id, group)
  {
    if id in s.defaults {
      var unlinked := s.(defaults := s.defaults - {id});
      OnlyLinksMatter(mappings, s, unlinked, Member(s.identities[id].user, s.defaults[id].group));
    }
  }

  /** The step keeps the account; a call that raises is undone and does. */
  ghost predicate StepClear(mappings: seq<Mapping>, s: State, step: Step, manual: set<Member>)
    requires WellFormed(mappings, s)
  {
    Enabled(mappings, s, step) ==>
      match step
      case External(id, matched, order) =>
        RepeatsNew(matched, Existing(s, id)) || MatchesClear(mappings, s, id, matched, Existing(s, id), manual)
      case Fallback(id, group) => FallbackClear(mappings, s, id, group)
  }

  lemma StepAccountedIff(mappings: seq<Mapping>, s: State, step: Step, manual: set<Member>)
    requires WellFormed(mappings, s) && Accounted(mappings, s, manual)
    ensures Accounted(mappings, Next(mappings, s, step), manual) <==> StepClear(mappings, s, step, manual)
  {
    if Enabled(mappings, s, step) {
      match step {
        case External(id, matched, order) =>
          ReconcileRaisesIff(mappings, s, id, matched, order);
          if Reconcile(mappings, s, id, matched, order).Some? {
            ReconcileAccountedIff(mappings, s, id, matched, order, manual);
          }
        case Fallback(id, group) => FallbackAccountedIff(mappings, s, id, group, manual);
      }
    }
  }

  ghost predicate AlwaysAccounted(mappings: seq<Mapping>, s: State, steps: seq<Step>, manual: set<Member>)
    requires WellFormed(mappings, s)
  {
    forall n :: 0 <= n <= |steps| ==> Accounted(mappings, Run(mappings, s, steps[..n]), manual)
  }

  ghost predicate AlwaysClear(mappings: seq<Mapping>, s: State, steps: seq<Step>, manual: set<Member>)
    requires WellFormed(mappings, s)
  {
    forall n :: 0 <= n < |steps| ==> StepClear(mappings, Run(mappings, s, steps[..n]), steps[n], manual)
  }

  lemma RunOneStep(mappings: seq<Mapping>, s: State, steps: seq<Step>, n: nat)
    requires WellFormed(mappings, s) && n < |steps|
    ensures Run(mappings, s, steps[..n + 1]) == Next(mappings, Run(mappings, s, steps[..n]), steps[n])
  {
    assert steps[..n + 1][..n] == steps[..n];
  }

  /** Over any run of both reconciliations, members are those placed by hand and those with a row exactly while every step is clear. */
  lemma {:induction false} AccountedIffClear(mappings: seq<Mapping>, s: State, steps: seq<Step>, manual: set<Member>)
    requires WellFormed(mappings, s) && Accounted(mappings, s, manual)
    ensures AlwaysAccounted(mappings, s, steps, manual) <==> AlwaysClear(mappings, s, steps, manual)
  {
    if AlwaysAccounted(mappings, s, steps, manual) {
      forall n | 0 <= n < |steps| ensures StepClear(mappings, Run(mappings, s, steps[..n]), steps[n], manual) {
        RunOneStep(mappings, s, steps, n);
        StepAccountedIff(mappings, Run(mappings, s, steps[..n]), steps[n], manual);
      }
    }
    if AlwaysClear(mappings, s, steps, manual) {
      forall n | 0 <= n <= |steps| ensures Accounted(mappings, Run(mappings, s, steps[..n]), manual) {
        ClearRunAccounted(mappings, s, steps, n, manual);
      }
    }
  }

  lemma {:induction false} ClearRunAccounted(mappings: seq<Mapping>, s: State, steps: seq<Step>, n: nat, manual: set<Member>)
    requires WellFormed(mappings, s) && Accounted(mappings, s, manual) && AlwaysClear(mappings, s, steps, manual) && n <= |steps|
    ensures Accounted(mappings, Run(mappings, s, steps[..n]), manual)
  {
    if n > 0 {
      ClearRunAccounted(mappings, s, steps, n - 1, manual);
      RunOneStep(mappings, s, steps, n - 1);
      StepAccountedIff(mappings, Run(mappings, s, steps[..n - 1]), steps[n - 1], manual);
    }
  }

  // ----- a case in which every step is clear: one mapping per group and no fallback -----

  /** Identities are one per source and user, groups one per mapping, and rows stay within their source. */
  ghost predicate OneMappingPerGroup(mappings: seq<Mapping>, s: State)
    requires WellFormed(mappings, s)
  {
    && (forall m, n :: 0 <= m < n < |mappings| ==> mappings[m].group != mappings[n].group)
    && (forall i, j :: 0 <= i < j < |s.identities| ==>
          s.identities[i].source != s.identities[j].source || s.identities[i].user != s.identities[j].user)
    && (forall l :: l in s.links ==> s.identities[l.identity].source == mappings[l.mapping].source)
  }

  ghost predicate SameSource(mappings: seq<Mapping>, s: State, id: nat, matched: seq<nat>)
    requires id < |s.identities|
  {
    forall k :: 0 <= k < |matched| ==> matched[k] < |mappings| && mappings[matched[k]].source == s.identities[id].source
  }

  /** No other row has the membership of a row that is not there yet. */
  lemma NewRowIsAlone(mappings: seq<Mapping>, s: State, l: Link)
    requires WellFormed(mappings, s) && OneMappingPerGroup(mappings, s) && l !in s.links
    requires l.identity < |s.identities| && l.mapping < |mappings| && s.identities[l.identity].source == mappings[l.mapping].source
    ensures !ManagedElsewhere(mappings, s, MemberOf(mappings, s, l))
  {
    forall k | k in s.links
      ensures MemberOf(mappings, s, k) != MemberOf(mappings, s, l)
    {
      assert k.mapping != l.mapping || k.identity != l.identity;
    }
  }

  /** A new row cannot be added twice. */
  lemma {:induction false} NewMatchesAreDistinct(mappings: seq<Mapping>, s: State, id: nat, matched: seq<nat>, existing: set<nat>, j: nat, k: nat)
    requires id < |s.identities| && InRange(mappings, matched) && AddAll(mappings, s, id, matched, existing).Some?
    requires j < k < |matched| && matched[j] !in existing
    ensures matched[j] != matched[k]
  {
    var n := |matched| - 1;
    if k < n {
      NewMatchesAreDistinct(mappings, s, id, matched[..n], existing, j, k);
    } else {
      NewMatchIsLinked(mappings, s, id, matched[..n], existing, j);
    }
  }

  lemma {:induction false} NewMatchIsLinked(mappings: seq<Mapping>, s: State, id: nat, matched: seq<nat>, existing: set<nat>, j: nat)
    requires id < |s.identities| && InRange(mappings, matched) && AddAll(mappings, s, id, matched, existing).Some?
    requires j < |matched| && matched[j] !in existing
    ensures Link(id, matched[j]) in AddAll(mappings, s, id, matched, existing).value.state.links
  {
    var n := |matched| - 1;
    if j < n {
      NewMatchIsLinked(mappings, s, id, matched[..n], existing, j);
    }
  }

  lemma SeparateGroupsAreClear(mappings: seq<Mapping>, s: State, id: nat, matched: seq<nat>, manual: set<Member>)
    requires WellFormed(mappings, s) && OneMappingPerGroup(mappings, s) && Accounted(mappings, s, manual)
    requires id < |s.identities| && SameSource(mappings, s, id, matched) && AddAll(mappings, s, id, matched, Existing(s, id)).Some?
    ensures MatchesClear(mappings, s, id, matched, Existing(s, id), manual)
  {
    var existing := Existing(s, id);
    forall k | 0 <= k < |matched| ensures MatchClear(mappings, s, id, matched, existing, manual, k) {
      if matched[k] !in existing {
        var l := Link(id, matched[k]);
        assert l in s.links ==> l.mapping in existing;
        NewRowIsAlone(mappings, s, l);
        forall j | 0 <= j < k && matched[j] !in existing ensures mappings[matched[j]].group != mappings[matched[k]].group {
          NewMatchesAreDistinct(mappings, s, id, matched, existing, j, k);
        }
      }
    }
  }

  ghost predicate ExternalOnly(mappings: seq<Mapping>, s: State, steps: seq<Step>) {
    forall k :: 0 <= k < |steps| ==>
      steps[k].External? && (steps[k].identity < |s.identities| ==> SameSource(mappings, s, steps[k].identity, steps[k].matched))
  }

  /** With one mapping per group, external reconciliations keep members those placed by hand and those with a row. */
  lemma {:induction false} MembersAreManualOrManaged(mappings: seq<Mapping>, s: State, steps: seq<Step>, manual: set<Member>)
    requires WellFormed(mappings, s) && OneMappingPerGroup(mappings, s) && Accounted(mappings, s, manual)
    requires ExternalOnly(mappings, s, steps)
    ensures var r := Run(mappings, s, steps);
            OneMappingPerGroup(mappings, r) && Accounted(mappings, r, manual)
  {
    if steps != [] {
      var n := |steps| - 1;
      MembersAreManualOrManaged(mappings, s, steps[..n], manual);
      SeparateGroupsStep(mappings, Run(mappings, s, steps[..n]), steps[n], manual);
    }
  }

  lemma SeparateGroupsStep(mappings: seq<Mapping>, s: State, step: Step, manual: set<Member>)
    requires WellFormed(mappings, s) && OneMappingPerGroup(mappings, s) && Accounted(mappings, s, manual)
    requires step.External? && (step.identity < |s.identities| ==> SameSource(mappings, s, step.identity, step.matched))
    ensures var r := Next(mappings, s, step);
            OneMappingPerGroup(mappings, r) && Accounted(mappings, r, manual)
  {
    if Enabled(mappings, s, step) && Reconcile(mappings, s, step.identity, step.matched, step.order).Some? {
      SeparateGroupsAreClear(mappings, s, step.identity, step.matched, manual);
      RowsEqualMatches(mappings, s, step.identity, step.matched, step.order);
      assert forall m :: Link(step.identity, m) in Next(mappings, s, step).links ==> m in Existing(Next(mappings, s, step), step.identity);
    }
    StepAccountedIff(mappings, s, step, manual);
  }

  // ----- how the account is lost -----

  /** With two new matches for one group, the second row takes the first one's work for a membership placed by hand. */
  lemma SharedGroupMarksSecondRow(mappings: seq<Mapping>, s: State, id: nat, m: nat, n: nat)
    requires WellFormed(mappings, s) && id < |s.identities| && Existing(s, id) == {}
    requires m != n && m < |mappings| && n < |mappings| && mappings[m].group == mappings[n].group
    requires Member(s.identities[id].user, mappings[m].group) !in s.members
    ensures Lists(s, id, [])
    ensures var r := Reconcile(mappings, s, id, [m, n], []);
            && r.Some? && r.value.added == 1 && r.value.removed == 0
            && r.value.state.links == s.links[Link(id, m) := false][Link(id, n) := true]
            && r.value.state.members == s.members + {Member(s.identities[id].user, mappings[m].group)}
  {
    assert Link(id, m) !in s.links && Link(id, n) !in s.links by {
      assert Link(id, m) in s.links ==> m in Existing(s, id);
      assert Link(id, n) in s.links ==> n in Existing(s, id);
    }
    assert [m, n][..1] == [m] && [m][..0] == [];
    var a1 := AddOne(mappings, Progress(s, 0), id, m, {}).value;
    assert AddAll(mappings, s, id, [m], {}) == Some(a1);
    var a2 := AddOne(mappings, a1, id, n, {}).value;
    assert AddAll(mappings, s, id, [m, n], {}) == Some(a2);
  }

  /** So once both matches are gone the user is still a member, and no row says why. */
  lemma SharedGroupLeavesMemberBehind(mappings: seq<Mapping>, s: State, id: nat, m: nat, n: nat)
    requires WellFormed(mappings, s) && id < |s.identities| && Existing(s, id) == {m, n}
    requires Link(id, m) in s.links && Link(id, n) in s.links && m != n && mappings[m].group == mappings[n].group
    requires s.links[Link(id, m)] == false && s.links[Link(id, n)] == true
    requires Member(s.identities[id].user, mappings[m].group) in s.members
    ensures Lists(s, id, [m, n])
    ensures var r := Reconcile(mappings, s, id, [], [m, n]);
            && r.Some? && r.value.removed == 0 && Existing(r.value.state, id) == {}
            && Member(s.identities[id].user, mappings[m].group) in r.value.state.members
  {
    assert [m, n][..1] == [m] && [m][..0] == [];
    var r0 := Progress(s, 0);
    assert RemoveAll(mappings, s, id, [], []) == r0;
    var r1 := RemoveOne(mappings, r0, id, m, []);
    var without := s.(links := s.links - {Link(id, m)});
    assert Link(id, n) in without.links && MemberOf(mappings, without, Link(id, n)) == MemberOf(mappings, s, Link(id, m));
    assert r1 == Progress(without, 0);
    assert RemoveAll(mappings, s, id, [m], []) == r1;
    assert RemoveAll(mappings, s, id, [m, n], []) == RemoveOne(mappings, r1, id, n, []);
    RowsEqualMatches(mappings, s, id, [], [m, n]);
  }
}
