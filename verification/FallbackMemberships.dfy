/**
  Memberships that a fallback row stands for. The external reconciliation looks for other external rows only, so it can
  take such a membership away; this module says exactly when.
 */
module FallbackMemberships {
  import opened Common
  import opened DirectorySync

  /** Every fallback row stands for an actual membership. */
  ghost predicate DefaultsBacked(s: State)
    requires forall i :: i in s.defaults ==> i < |s.identities|
  {
    forall i :: i in s.defaults ==> Member(s.identities[i].user, s.defaults[i].group) in s.members
  }

  // ----- one row at a time -----

  /** A new external row keeps fallback rows backed. */
  lemma AddOneKeepsDefaults(mappings: seq<Mapping>, p: Progress, id: nat, m: nat, existing: set<nat>)
    requires WellFormed(mappings, p.state) && DefaultsBacked(p.state) && id < |p.state.identities| && m < |mappings|
    requires AddOne(mappings, p, id, m, existing).Some?
    ensures var q := AddOne(mappings, p, id, m, existing).value.state; WellFormed(mappings, q) && DefaultsBacked(q)
  {
  }

  /** So does the fallback itself. */
  lemma FallbackKeepsDefaults(mappings: seq<Mapping>, s: State, id: nat, group: Option<Id>)
    requires WellFormed(mappings, s) && DefaultsBacked(s) && id < |s.identities|
    ensures DefaultsBacked(ReconcileDefault(mappings, s, id, group))
  {
  }

  /** Removing a row keeps them backed exactly if it takes no membership away or no fallback row stands for that one. */
  lemma RemoveOneDefaultsIff(mappings: seq<Mapping>, p: Progress, id: nat, m: nat, matched: seq<nat>)
    requires WellFormed(mappings, p.state) && DefaultsBacked(p.state) && id < |p.state.identities| && m < |mappings|
    ensures var s, l := p.state, Link(id, m);
            var mb, unlinked := MemberOf(mappings, s, l), s.(links := s.links - {l});
            DefaultsBacked(RemoveOne(mappings, p, id, m, matched).state) <==>
            || m in matched || l !in s.links || s.links[l]
            || ManagedElsewhere(mappings, unlinked, mb) || !DefaultElsewhere(s, mb)
  {
  }

  // ----- which memberships a reconciliation takes away -----

  /**
    The turn at `k` takes the membership away: its row is not matched and does not preserve, no match is for its group,
    and every row about it, of whatever identity, is one of this identity that has had its turn by then.
   */
  ghost predicate TakesAt(mappings: seq<Mapping>, s: State, id: nat, matched: seq<nat>, order: seq<nat>, k: int, mb: Member)
    requires WellFormed(mappings, s) && id < |s.identities| && InRange(mappings, matched) && InRange(mappings, order)
  {
    && 0 <= k < |order| && order[k] !in matched && mb == MemberOf(mappings, s, Link(id, order[k]))
    && Link(id, order[k]) in s.links && !s.links[Link(id, order[k])]
    && (forall j :: 0 <= j < |matched| ==> mappings[matched[j]].group != mb.group)
    && (forall l :: l in s.links && MemberOf(mappings, s, l) == mb ==> l.identity == id && l.mapping in order[..k + 1])
  }

  ghost predicate Takes(mappings: seq<Mapping>, s: State, id: nat, matched: seq<nat>, order: seq<nat>, mb: Member)
    requires WellFormed(mappings, s) && id < |s.identities| && InRange(mappings, matched) && InRange(mappings, order)
  {
    exists k :: TakesAt(mappings, s, id, matched, order, k, mb)
  }

  lemma {:induction false} RemoveAllKeepsMarks(mappings: seq<Mapping>, s: State, id: nat, order: seq<nat>, matched: seq<nat>)
    requires WellFormed(mappings, s) && id < |s.identities| && InRange(mappings, order)
    ensures var q := RemoveAll(mappings, s, id, order, matched).state;
            forall l :: l in q.links ==> l in s.links && q.links[l] == s.links[l]
  {
    if order != [] {
      RemoveAllKeepsMarks(mappings, s, id, order[..|order| - 1], matched);
    }
  }

  /** The rows of the matches are there. */
  ghost predicate MatchesLinked(s: State, id: nat, matched: seq<nat>) {
    forall j :: 0 <= j < |matched| ==> Link(id, matched[j]) in s.links
  }

  /** After the turns before `n`, the row at `n` is the only one left about its membership exactly as described. */
  lemma AloneAtTurn(mappings: seq<Mapping>, s: State, id: nat, order: seq<nat>, n: nat, matched: seq<nat>)
    requires WellFormed(mappings, s) && id < |s.identities| && InRange(mappings, order) && InRange(mappings, matched)
    requires n < |order| && order[n] !in matched && MatchesLinked(s, id, matched)
    ensures var p, l := RemoveAll(mappings, s, id, order[..n], matched).state, Link(id, order[n]);
            var mb, unlinked := MemberOf(mappings, s, l), p.(links := p.links - {l});
            !ManagedElsewhere(mappings, unlinked, mb) <==>
            && (forall j :: 0 <= j < |matched| ==> mappings[matched[j]].group != mb.group)
            && (forall l :: l in s.links && MemberOf(mappings, s, l) == mb ==> l.identity == id && l.mapping in order[..n + 1])
  {
    var p, l := RemoveAll(mappings, s, id, order[..n], matched).state, Link(id, order[n]);
    var mb, unlinked := MemberOf(mappings, s, l), p.(links := p.links - {l});
    RemoveAllLinks(mappings, s, id, order[..n], matched);
    assert order[..n + 1] == order[..n] + [order[n]];
    if !ManagedElsewhere(mappings, unlinked, mb) {
      forall j | 0 <= j < |matched| ensures mappings[matched[j]].group != mb.group {
        assert Link(id, matched[j]) in unlinked.links;
      }
      forall k | k in s.links && MemberOf(mappings, s, k) == mb ensures k.identity == id && k.mapping in order[..n + 1] {
        assert k !in unlinked.links;
        assert k == Link(k.identity, k.mapping);
      }
    }
    if k :| k in unlinked.links && MemberOf(mappings, unlinked, k) == mb {
      assert k in s.links && k == Link(k.identity, k.mapping);
    }
  }

  lemma TakesOneMore(mappings: seq<Mapping>, s: State, id: nat, order: seq<nat>, matched: seq<nat>, mb: Member)
    requires WellFormed(mappings, s) && id < |s.identities| && InRange(mappings, order) && InRange(mappings, matched)
    requires order != []
    ensures var n := |order| - 1;
            Takes(mappings, s, id, matched, order, mb) <==>
            Takes(mappings, s, id, matched, order[..n], mb) || TakesAt(mappings, s, id, matched, order, n, mb)
  {
    var n := |order| - 1;
    forall k | 0 <= k < n
      ensures TakesAt(mappings, s, id, matched, order[..n], k, mb) <==> TakesAt(mappings, s, id, matched, order, k, mb)
    {
      assert order[..n][..k + 1] == order[..k + 1];
    }
    if k :| TakesAt(mappings, s, id, matched, order[..n], k, mb) {
      assert TakesAt(mappings, s, id, matched, order, k, mb);
    }
    if k :| TakesAt(mappings, s, id, matched, order, k, mb) {
      assert k < n ==> TakesAt(mappings, s, id, matched, order[..n], k, mb);
    }
  }

  /** The last turn takes a membership exactly as described. */
  lemma LastTurnTakesIff(mappings: seq<Mapping>, s: State, id: nat, order: seq<nat>, matched: seq<nat>, mb: Member)
    requires WellFormed(mappings, s) && id < |s.identities| && InRange(mappings, order) && InRange(mappings, matched)
    requires order != [] && Distinct(order) && MatchesLinked(s, id, matched)
    ensures var n := |order| - 1;
            var p := RemoveAll(mappings, s, id, order[..n], matched);
            mb in RemoveOne(mappings, p, id, order[n], matched).state.members <==>
            mb in p.state.members && !TakesAt(mappings, s, id, matched, order, n, mb)
  {
    var n := |order| - 1;
    RemoveAllLinks(mappings, s, id, order[..n], matched);
    RemoveAllKeepsMarks(mappings, s, id, order[..n], matched);
    assert order[n] !in order[..n];
    if order[n] !in matched {
      AloneAtTurn(mappings, s, id, order, n, matched);
    }
  }

  lemma {:induction false} RemoveAllMembers(mappings: seq<Mapping>, s: State, id: nat, order: seq<nat>, matched: seq<nat>, mb: Member)
    requires WellFormed(mappings, s) && id < |s.identities| && InRange(mappings, order) && InRange(mappings, matched)
    requires Distinct(order) && MatchesLinked(s, id, matched)
    ensures mb in RemoveAll(mappings, s, id, order, matched).state.members <==>
            mb in s.members && !Takes(mappings, s, id, matched, order, mb)
  {
    if order != [] {
      RemoveAllMembers(mappings, s, id, order[..|order| - 1], matched, mb);
      TakesOneMore(mappings, s, id, order, matched, mb);
      LastTurnTakesIff(mappings, s, id, order, matched, mb);
    }
  }

  lemma {:induction false} AddAllKeepsMarks(mappings: seq<Mapping>, s: State, id: nat, matched: seq<nat>, existing: set<nat>)
    requires id < |s.identities| && InRange(mappings, matched) && AddAll(mappings, s, id, matched, existing).Some?
    ensures var q := AddAll(mappings, s, id, matched, existing).value.state;
            forall l :: l in s.links ==> l in q.links && q.links[l] == s.links[l]
  {
    if matched != [] {
      AddAllKeepsMarks(mappings, s, id, matched[..|matched| - 1], existing);
    }
  }

  /** What is taken can be told before the first loop as well as after it. */
  lemma TakesBeforeAdding(mappings: seq<Mapping>, s: State, id: nat, matched: seq<nat>, order: seq<nat>, k: int, mb: Member)
    requires WellFormed(mappings, s) && id < |s.identities| && Lists(s, id, order) && InRange(mappings, order)
    requires InRange(mappings, matched) && AddAll(mappings, s, id, matched, Existing(s, id)).Some?
    ensures var a := AddAll(mappings, s, id, matched, Existing(s, id)).value.state;
            && WellFormed(mappings, a) && MatchesLinked(a, id, matched)
            && (TakesAt(mappings, a, id, matched, order, k, mb) <==> TakesAt(mappings, s, id, matched, order, k, mb))
  {
    var existing := Existing(s, id);
    AddAllWellFormed(mappings, s, id, matched, existing);
    AddAllLinks(mappings, s, id, matched, existing);
    AddAllKeepsMarks(mappings, s, id, matched, existing);
    var a := AddAll(mappings, s, id, matched, existing).value.state;
    forall l | l in a.links && l !in s.links ensures l.identity == id && l.mapping in matched {
      assert l == Link(l.identity, l.mapping);
      assert l.identity == id && l.mapping in existing ==> l in s.links;
    }
    forall l | l in s.links ensures l in a.links && MemberOf(mappings, a, l) == MemberOf(mappings, s, l) {
    }
    assert 0 <= k < |order| ==> order[k] in order;
    assert 0 <= k < |order| ==> Link(id, order[k]) in s.links;
  }

  /** Exactly the memberships after a reconciliation: those before it and those of new matches, without what is taken. */
  lemma ReconcileMembers(mappings: seq<Mapping>, s: State, id: nat, matched: seq<nat>, order: seq<nat>, mb: Member)
    requires WellFormed(mappings, s) && id < |s.identities| && Lists(s, id, order) && InRange(mappings, order)
    requires InRange(mappings, matched) && Reconcile(mappings, s, id, matched, order).Some?
    ensures mb in Reconcile(mappings, s, id, matched, order).value.state.members <==>
            && (mb in s.members || exists j :: 0 <= j < |matched| && matched[j] !in Existing(s, id)
                                               && mb == MemberOf(mappings, s, Link(id, matched[j])))
            && !Takes(mappings, s, id, matched, order, mb)
  {
    var existing := Existing(s, id);
    var a := AddAll(mappings, s, id, matched, existing).value.state;
    AddAllMembers(mappings, s, id, matched, existing, mb);
    forall k ensures TakesAt(mappings, s, id, matched, order, k, mb) <==>
                     WellFormed(mappings, a) && TakesAt(mappings, a, id, matched, order, k, mb)
    {
      TakesBeforeAdding(mappings, s, id, matched, order, k, mb);
    }
    TakesBeforeAdding(mappings, s, id, matched, order, 0, mb);
    RemoveAllMembers(mappings, a, id, order, matched, mb);
  }

  // ----- when fallback rows stay backed -----

  /** No membership that a fallback row stands for is taken. */
  ghost predicate SparesDefaults(mappings: seq<Mapping>, s: State, id: nat, matched: seq<nat>, order: seq<nat>)
    requires WellFormed(mappings, s) && id < |s.identities| && InRange(mappings, matched) && InRange(mappings, order)
  {
    forall i :: i in s.defaults ==>
      !Takes(mappings, s, id, matched, order, Member(s.identities[i].user, s.defaults[i].group))
  }

  /** An external reconciliation keeps fallback rows backed exactly if it spares them. */
  lemma ReconcileDefaultsIff(mappings: seq<Mapping>, s: State, id: nat, matched: seq<nat>, order: seq<nat>)
    requires WellFormed(mappings, s) && DefaultsBacked(s) && id < |s.identities| && Lists(s, id, order) && InRange(mappings, order)
    requires InRange(mappings, matched) && Reconcile(mappings, s, id, matched, order).Some?
    ensures var r := Reconcile(mappings, s, id, matched, order).value.state;
            && WellFormed(mappings, r)
            && (DefaultsBacked(r) <==> SparesDefaults(mappings, s, id, matched, order))
  {
    RowsEqualMatches(mappings, s, id, matched, order);
    AddAllWellFormed(mappings, s, id, matched, Existing(s, id));
    forall i | i in s.defaults
      ensures var mb := Member(s.identities[i].user, s.defaults[i].group);
              mb in Reconcile(mappings, s, id, matched, order).value.state.members <==> !Takes(mappings, s, id, matched, order, mb)
    {
      ReconcileMembers(mappings, s, id, matched, order, Member(s.identities[i].user, s.defaults[i].group));
    }
  }

  /** The step keeps fallback rows backed; a call that raises is undone and does. */
  ghost predicate StepSpares(mappings: seq<Mapping>, s: State, step: Step)
    requires WellFormed(mappings, s)
  {
    Enabled(mappings, s, step) && step.External? ==>
      || RepeatsNew(step.matched, Existing(s, step.identity))
      || (InRange(mappings, step.order) && SparesDefaults(mappings, s, step.identity, step.matched, step.order))
  }

  lemma StepDefaultsIff(mappings: seq<Mapping>, s: State, step: Step)
    requires WellFormed(mappings, s) && DefaultsBacked(s)
    ensures DefaultsBacked(Next(mappings, s, step)) <==> StepSpares(mappings, s, step)
  {
    if Enabled(mappings, s, step) {
      match step {
        case External(id, matched, order) =>
          OrderInRange(mappings, s, id, order);
          ReconcileRaisesIff(mappings, s, id, matched, order);
          if Reconcile(mappings, s, id, matched, order).Some? {
            ReconcileDefaultsIff(mappings, s, id, matched, order);
          }
        case Fallback(id, group) => FallbackKeepsDefaults(mappings, s, id, group);
      }
    }
  }

  ghost predicate AlwaysBacked(mappings: seq<Mapping>, s: State, steps: seq<Step>)
    requires WellFormed(mappings, s)
  {
    forall n :: 0 <= n <= |steps| ==> DefaultsBacked(Run(mappings, s, steps[..n]))
  }

  ghost predicate AlwaysSpares(mappings: seq<Mapping>, s: State, steps: seq<Step>)
    requires WellFormed(mappings, s)
  {
    forall n :: 0 <= n < |steps| ==> StepSpares(mappings, Run(mappings, s, steps[..n]), steps[n])
  }

  lemma {:induction false} SparingRunBacked(mappings: seq<Mapping>, s: State, steps: seq<Step>, n: nat)
    requires WellFormed(mappings, s) && DefaultsBacked(s) && AlwaysSpares(mappings, s, steps) && n <= |steps|
    ensures DefaultsBacked(Run(mappings, s, steps[..n]))
  {
    if n > 0 {
      SparingRunBacked(mappings, s, steps, n - 1);
      RunOneStep(mappings, s, steps, n - 1);
      StepDefaultsIff(mappings, Run(mappings, s, steps[..n - 1]), steps[n - 1]);
    }
  }

  /** Over any run of both reconciliations, fallback rows stand for actual memberships throughout exactly if every step spares them. */
  lemma {:induction false} BackedIffSpared(mappings: seq<Mapping>, s: State, steps: seq<Step>)
    requires WellFormed(mappings, s) && DefaultsBacked(s)
    ensures AlwaysBacked(mappings, s, steps) <==> AlwaysSpares(mappings, s, steps)
  {
    if AlwaysBacked(mappings, s, steps) {
      forall n | 0 <= n < |steps| ensures StepSpares(mappings, Run(mappings, s, steps[..n]), steps[n]) {
        RunOneStep(mappings, s, steps, n);
        StepDefaultsIff(mappings, Run(mappings, s, steps[..n]), steps[n]);
      }
    }
    if AlwaysSpares(mappings, s, steps) {
      forall n | 0 <= n <= |steps| ensures DefaultsBacked(Run(mappings, s, steps[..n])) {
        SparingRunBacked(mappings, s, steps, n);
      }
    }
  }

  // ----- how a fallback row loses its membership -----

  /** The row of a match that is gone takes the membership of the fallback row with it. */
  lemma FallbackRowOutlivesMembership(mappings: seq<Mapping>, s: State, id: nat, m: nat)
    requires WellFormed(mappings, s) && id < |s.identities| && m < |mappings|
    requires s.links == map[Link(id, m) := false]
    requires s.defaults == map[id := Default(mappings[m].group, true)]
    requires Member(s.identities[id].user, mappings[m].group) in s.members
    ensures Lists(s, id, [m]) && Reconcile(mappings, s, id, [], [m]).Some?
    ensures var r := Reconcile(mappings, s, id, [], [m]).value.state;
            && r.defaults == s.defaults && r.links == map[] && r.identities == s.identities
            && Member(s.identities[id].user, mappings[m].group) !in r.members
  {
    assert Existing(s, id) == {m} by {
      assert Link(id, m) in s.links;
    }
    assert [m][..0] == [];
    assert RemoveAll(mappings, s, id, [], []) == Progress(s, 0);
    var unlinked := s.(links := s.links - {Link(id, m)});
    assert unlinked.links == map[];
    assert !ManagedElsewhere(mappings, unlinked, MemberOf(mappings, s, Link(id, m)));
  }

  /** Two logins: with the match and the fallback, and then with the fallback alone. */
  function TwoLogins(id: nat, m: nat, group: Id): seq<Step> {
    [External(id, [m], []), Fallback(id, Some(group)), External(id, [], [m]), Fallback(id, Some(group))]
  }

  lemma FirstLogin(mappings: seq<Mapping>, s: State, id: nat, m: nat)
    requires WellFormed(mappings, s) && id < |s.identities| && m < |mappings|
    requires s.links == map[] && s.defaults == map[] && Member(s.identities[id].user, mappings[m].group) !in s.members
    ensures var a := Next(mappings, s, External(id, [m], []));
            var b := Next(mappings, a, Fallback(id, Some(mappings[m].group)));
            && b.identities == s.identities && b.links == map[Link(id, m) := false]
            && b.defaults == map[id := Default(mappings[m].group, true)]
            && Member(s.identities[id].user, mappings[m].group) in b.members
  {
    assert Lists(s, id, []) && Enabled(mappings, s, External(id, [m], []));
    assert [m][..0] == [];
    assert AddAll(mappings, s, id, [m], {}) == AddOne(mappings, Progress(s, 0), id, m, {});
    assert Existing(s, id) == {};
  }

  lemma SecondLogin(mappings: seq<Mapping>, b: State, id: nat, m: nat)
    requires WellFormed(mappings, b) && id < |b.identities| && m < |mappings|
    requires b.links == map[Link(id, m) := false] && b.defaults == map[id := Default(mappings[m].group, true)]
    requires Member(b.identities[id].user, mappings[m].group) in b.members
    ensures var c := Next(mappings, b, External(id, [], [m]));
            var d := Next(mappings, c, Fallback(id, Some(mappings[m].group)));
            d.defaults == b.defaults && Member(b.identities[id].user, mappings[m].group) !in d.members
  {
    FallbackRowOutlivesMembership(mappings, b, id, m);
    assert Enabled(mappings, b, External(id, [], [m]));
  }

  lemma RunTwoSteps(mappings: seq<Mapping>, s: State, steps: seq<Step>, n: nat)
    requires WellFormed(mappings, s) && n + 2 <= |steps|
    ensures Run(mappings, s, steps[..n + 2]) == Next(mappings, Next(mappings, Run(mappings, s, steps[..n]), steps[n]), steps[n + 1])
  {
    RunOneStep(mappings, s, steps, n);
    RunOneStep(mappings, s, steps, n + 1);
  }

  /** From a user without rows who is no member, the second login takes the membership away and does not give it back. */
  lemma LoginLosesFallbackMembership(mappings: seq<Mapping>, s: State, id: nat, m: nat)
    requires WellFormed(mappings, s) && id < |s.identities| && m < |mappings|
    requires s.links == map[] && s.defaults == map[] && Member(s.identities[id].user, mappings[m].group) !in s.members
    ensures var steps := TwoLogins(id, m, mappings[m].group);
            var mb, first, second := Member(s.identities[id].user, mappings[m].group), Run(mappings, s, steps[..2]), Run(mappings, s, steps);
            && mb in first.members && first.defaults == second.defaults == map[id := Default(mappings[m].group, true)]
            && mb !in second.members
  {
    var steps := TwoLogins(id, m, mappings[m].group);
    RunTwoSteps(mappings, s, steps, 0);
    RunTwoSteps(mappings, s, steps, 2);
    assert steps[..0] == [] && steps[..4] == steps;
    FirstLogin(mappings, s, id, m);
    SecondLogin(mappings, Run(mappings, s, steps[..2]), id, m);
  }
}
