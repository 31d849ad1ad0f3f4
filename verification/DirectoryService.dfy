/** The synchronization service over its tables. */
module DirectoryService {
  import opened Common
  import opened DirectorySync

  datatype DirectoryUser = DirectoryUser(subject: string, username: string, email: string, groups: seq<string>)

  datatype Report = Report(created: nat, updated: nat, skipped: nat, added: nat, removed: nat)

  predicate Selects(normalized: string -> string, mapping: Mapping, source: Id, name: string) {
    mapping.source == source && mapping.enabled && normalized(mapping.externalGroup) == normalized(name)
  }

  /** The mapping that wins for a directory group: the last enabled one of the source with that normalized name. */
  function MappingFor(normalized: string -> string, mappings: seq<Mapping>, source: Id, name: string): (r: Option<nat>)
    ensures r.Some? ==> r.value < |mappings| && Selects(normalized, mappings[r.value], source, name)
    ensures r.Some? ==> forall k :: r.value < k < |mappings| ==> !Selects(normalized, mappings[k], source, name)
    ensures r.None? ==> forall k :: 0 <= k < |mappings| ==> !Selects(normalized, mappings[k], source, name)
  {
    if mappings == [] then None
    else
      var n := |mappings| - 1;
      if Selects(normalized, mappings[n], source, name) then Some(n)
      else MappingFor(normalized, mappings[..n], source, name)
  }

  function Matches(normalized: string -> string, mappings: seq<Mapping>, source: Id, groups: seq<string>): (r: seq<nat>)
    ensures forall k :: 0 <= k < |r| ==> r[k] < |mappings| && mappings[r[k]].source == source
  {
    if groups == [] then []
    else
      var n := |groups| - 1;
      var m := MappingFor(normalized, mappings, source, groups[n]);
      Matches(normalized, mappings, source, groups[..n]) + if m.Some? then [m.value] else []
  }

  function FindIdentity(identities: seq<Identity>, source: Id, subject: string): (r: Option<nat>)
    ensures r.Some? ==> r.value < |identities| && identities[r.value].source == source && identities[r.value].subject == subject
    ensures r.None? ==> forall i :: 0 <= i < |identities| ==> identities[i].source != source || identities[i].subject != subject
  {
    if identities == [] then None
    else
      var n := |identities| - 1;
      var earlier := FindIdentity(identities[..n], source, subject);
      if earlier.Some? then earlier
      else if identities[n].source == source && identities[n].subject == subject then Some(n) else None
  }

  lemma FindAfterAppend(identities: seq<Identity>, more: Identity, source: Id, subject: string)
    ensures var before := FindIdentity(identities, source, subject);
            FindIdentity(identities + [more], source, subject) ==
            if before.Some? then before
            else if more.source == source && more.subject == subject then Some(|identities|) else None
  {
    assert (identities + [more])[..|identities|] == identities;
  }

  /** A directory user with an identity has exactly the rows of its matches; one without has no match that creates users. */
  ghost predicate Synchronized(normalized: string -> string, mappings: seq<Mapping>, s: State, source: Id, du: DirectoryUser) {
    var i, matched := FindIdentity(s.identities, source, du.subject), Matches(normalized, mappings, source, du.groups);
    if i.Some? then forall m :: m in Existing(s, i.value) <==> m in matched
    else forall k :: 0 <= k < |matched| ==> !mappings[matched[k]].autoCreate
  }

  /** From `s` to `n` only rows of identity `i` changed, and at most one identity was added. */
  ghost predicate OnlyTouches(s: State, n: State, i: nat) {
    && (n.identities == s.identities || (|n.identities| == |s.identities| + 1 && n.identities == s.identities + [n.identities[|s.identities|]]))
    && i < |n.identities|
    && (|n.identities| > |s.identities| ==> i == |s.identities|)
    && forall l: Link :: l.identity != i ==> (l in n.links <==> l in s.links)
  }

  /** What one turn of the loop leaves behind; `touched` is the identity whose rows it set. */
  ghost predicate OneSynchronized(normalized: string -> string, mappings: seq<Mapping>, s: State, n: State, source: Id,
                                  du: DirectoryUser, touched: nat, r: Report)
    requires WellFormed(mappings, s)
  {
    && WellFormed(mappings, n) && Backed(mappings, n)
    && (forall mb :: Protected(mappings, s, mb) ==> Protected(mappings, n, mb))
    && Synchronized(normalized, mappings, n, source, du)
    && r.created + r.updated + r.skipped == 1
    && |n.members| == |s.members| + r.added - r.removed
    && if r.skipped == 1 then n == s else OnlyTouches(s, n, touched) && n.identities[touched].subject == du.subject
  }

  lemma ReconciledIsSynchronized(normalized: string -> string, mappings: seq<Mapping>, s: State, before: State, source: Id,
                                 du: DirectoryUser, id: nat, order: seq<nat>, r: Report)
    requires WellFormed(mappings, s) && WellFormed(mappings, before) && Backed(mappings, before)
    requires forall mb :: Protected(mappings, s, mb) ==> Protected(mappings, before, mb)
    requires id < |before.identities| && Lists(before, id, order)
    requires before == s || (before == s.(identities := s.identities + [before.identities[id]]) && id == |s.identities|)
    requires FindIdentity(before.identities, source, du.subject) == Some(id)
    requires Reconcile(mappings, before, id, Matches(normalized, mappings, source, du.groups), order).Some?
    requires r.skipped == 0 && r.created + r.updated == 1
    requires var o := Reconcile(mappings, before, id, Matches(normalized, mappings, source, du.groups), order).value;
             r.added == o.added && r.removed == o.removed
    ensures var n := Reconcile(mappings, before, id, Matches(normalized, mappings, source, du.groups), order).value.state;
            OneSynchronized(normalized, mappings, s, n, source, du, id, r)
  {
    var matched := Matches(normalized, mappings, source, du.groups);
    ReconcileKeeps(mappings, before, id, matched, order);
    RowsEqualMatches(mappings, before, id, matched, order);
  }

  lemma OthersStaySynchronized(normalized: string -> string, mappings: seq<Mapping>, s: State, n: State, source: Id, i: nat, du: DirectoryUser)
    requires OnlyTouches(s, n, i) && n.identities[i].subject != du.subject
    requires Synchronized(normalized, mappings, s, source, du)
    ensures Synchronized(normalized, mappings, n, source, du)
  {
    if n.identities != s.identities {
      FindAfterAppend(s.identities, n.identities[|s.identities|], source, du.subject);
    }
    var k := FindIdentity(n.identities, source, du.subject);
    if k.Some? {
      assert Existing(n, k.value) == Existing(s, k.value) by {
        assert forall l: Link :: l.identity == k.value ==> (l in n.links <==> l in s.links);
      }
    }
  }

  function Sum(a: Report, b: Report): Report {
    Report(a.created + b.created, a.updated + b.updated, a.skipped + b.skipped, a.added + b.added, a.removed + b.removed)
  }

  ghost predicate DistinctSubjects(users: seq<DirectoryUser>) {
    forall i, j :: 0 <= i < j < |users| ==> users[i].subject != users[j].subject
  }

  /** What the first `n` users leave behind, from the tables `s`. */
  ghost predicate SoFar(normalized: string -> string, mappings: seq<Mapping>, s: State, now: State, source: Id,
                        users: seq<DirectoryUser>, n: nat, r: Report)
    requires WellFormed(mappings, s) && WellFormed(mappings, now)
  {
    && Backed(mappings, now)
    && (forall mb :: Protected(mappings, s, mb) ==> Protected(mappings, now, mb))
    && n <= |users| && r.created + r.updated + r.skipped == n && |now.members| == |s.members| + r.added - r.removed
    && (DistinctSubjects(users) ==> forall k :: 0 <= k < n ==> Synchronized(normalized, mappings, now, source, users[k]))
  }

  lemma OneMoreUser(normalized: string -> string, mappings: seq<Mapping>, s: State, before: State, after: State, source: Id,
                    users: seq<DirectoryUser>, n: nat, r: Report, one: Report, touched: nat)
    requires WellFormed(mappings, s) && WellFormed(mappings, before) && n < |users|
    requires SoFar(normalized, mappings, s, before, source, users, n, r)
    requires OneSynchronized(normalized, mappings, before, after, source, users[n], touched, one)
    ensures SoFar(normalized, mappings, s, after, source, users, n + 1, Sum(r, one))
  {
    if DistinctSubjects(users) && one.skipped == 0 {
      forall k | 0 <= k < n
        ensures Synchronized(normalized, mappings, after, source, users[k])
      {
        OthersStaySynchronized(normalized, mappings, before, after, source, touched, users[k]);
      }
    }
  }

  // ----- when a turn raises -----

  /** What decides it: identities, taken names and addresses, and which rows exist. */
  datatype Roster = Roster(identities: seq<Identity>, usernames: set<string>, emails: set<string>, nextUser: nat, rows: set<Link>)

  function RowsIn(rows: set<Link>, id: nat): set<nat> {
    set l | l in rows && l.identity == id :: l.mapping
  }

  function WithRows(rows: set<Link>, id: nat, matched: seq<nat>): set<Link> {
    (set l | l in rows && l.identity != id) + (set m | m in matched :: Link(id, m))
  }

  predicate Creates(mappings: seq<Mapping>, matched: seq<nat>)
    requires InRange(mappings, matched)
  {
    exists k :: 0 <= k < |matched| && mappings[matched[k]].autoCreate
  }

  predicate Taken(r: Roster, du: DirectoryUser) {
    du.username in r.usernames || (du.email != "" && du.email in r.emails)
  }

  /** What a roster shows of a user: the identity with its rows, and whether the name or address is taken. */
  datatype View = View(identity: Option<nat>, rows: set<nat>, taken: bool)

  function ViewOf(r: Roster, source: Id, du: DirectoryUser): View {
    var i := FindIdentity(r.identities, source, du.subject);
    View(i, if i.Some? then RowsIn(r.rows, i.value) else {}, Taken(r, du))
  }

  /** A new user whose name or address is taken, or a match without a row that occurs twice. */
  ghost predicate Refused(v: View, mappings: seq<Mapping>, matched: seq<nat>)
    requires InRange(mappings, matched)
  {
    if v.identity.Some? then RepeatsNew(matched, v.rows)
    else Creates(mappings, matched) && (v.taken || RepeatsNew(matched, {}))
  }

  ghost predicate Raises(normalized: string -> string, mappings: seq<Mapping>, r: Roster, source: Id, du: DirectoryUser) {
    Refused(ViewOf(r, source, du), mappings, Matches(normalized, mappings, source, du.groups))
  }

  /** The roster after a turn that does not raise. */
  ghost function NextRoster(normalized: string -> string, mappings: seq<Mapping>, r: Roster, source: Id, du: DirectoryUser): Roster {
    var i, matched := FindIdentity(r.identities, source, du.subject), Matches(normalized, mappings, source, du.groups);
    if i.Some? then r.(rows := WithRows(r.rows, i.value, matched))
    else if !Creates(mappings, matched) then r
    else Roster(r.identities + [Identity(source, r.nextUser, du.subject)], r.usernames + {du.username}, r.emails + {du.email},
                r.nextUser + 1, WithRows(r.rows, |r.identities|, matched))
  }

  ghost function RosterAfter(normalized: string -> string, mappings: seq<Mapping>, r: Roster, source: Id,
                             users: seq<DirectoryUser>, n: nat): Roster
    requires n <= |users|
  {
    if n == 0 then r
    else NextRoster(normalized, mappings, RosterAfter(normalized, mappings, r, source, users, n - 1), source, users[n - 1])
  }

  ghost predicate RaisesAt(normalized: string -> string, mappings: seq<Mapping>, r: Roster, source: Id,
                           users: seq<DirectoryUser>, k: nat) {
    k < |users| && Raises(normalized, mappings, RosterAfter(normalized, mappings, r, source, users, k), source, users[k])
  }

  /** Some turn raises. */
  ghost predicate Aborts(normalized: string -> string, mappings: seq<Mapping>, r: Roster, source: Id, users: seq<DirectoryUser>) {
    exists k :: RaisesAt(normalized, mappings, r, source, users, k)
  }

  /** The roster after the first `n` turns, none of which raised. */
  ghost predicate RosterSoFar(normalized: string -> string, mappings: seq<Mapping>, r: Roster, now: Roster, source: Id,
                              users: seq<DirectoryUser>, n: nat) {
    && n <= |users| && now == RosterAfter(normalized, mappings, r, source, users, n)
    && forall k: nat :: k < n ==> !RaisesAt(normalized, mappings, r, source, users, k)
  }

  lemma RosterOneMore(normalized: string -> string, mappings: seq<Mapping>, r: Roster, now: Roster, source: Id,
                      users: seq<DirectoryUser>, n: nat)
    requires RosterSoFar(normalized, mappings, r, now, source, users, n) && n < |users|
    ensures Raises(normalized, mappings, now, source, users[n]) ==> Aborts(normalized, mappings, r, source, users)
    ensures !Raises(normalized, mappings, now, source, users[n]) ==>
              RosterSoFar(normalized, mappings, r, NextRoster(normalized, mappings, now, source, users[n]), source, users, n + 1)
  {
    assert RaisesAt(normalized, mappings, r, source, users, n) <==> Raises(normalized, mappings, now, source, users[n]);
  }

  lemma RowsOfOthersStay(rows: set<Link>, id: nat, matched: seq<nat>, other: nat)
    requires other != id
    ensures RowsIn(WithRows(rows, id, matched), other) == RowsIn(rows, other)
  {
    assert forall l: Link :: l.identity == other ==> (l in WithRows(rows, id, matched) <==> l in rows);
  }

  /** New rows of another identity do not show. */
  lemma OtherRowsDoNotShow(r: Roster, id: nat, matched: seq<nat>, source: Id, du: DirectoryUser)
    requires FindIdentity(r.identities, source, du.subject) != Some(id)
    ensures ViewOf(r.(rows := WithRows(r.rows, id, matched)), source, du) == ViewOf(r, source, du)
  {
    var i := FindIdentity(r.identities, source, du.subject);
    if i.Some? {
      RowsOfOthersStay(r.rows, id, matched, i.value);
    }
  }

  /** Nor does another new user. */
  lemma OtherUserDoesNotShow(r: Roster, source: Id, other: DirectoryUser, du: DirectoryUser)
    requires other.subject != du.subject && other.username != du.username && (du.email == "" || other.email != du.email)
    ensures var n := Roster(r.identities + [Identity(source, r.nextUser, other.subject)], r.usernames + {other.username},
                            r.emails + {other.email}, r.nextUser + 1, r.rows);
            ViewOf(n, source, du) == ViewOf(r, source, du)
  {
    FindAfterAppend(r.identities, Identity(source, r.nextUser, other.subject), source, du.subject);
  }

  /** The turn of one user says nothing about another with a different subject, name and address. */
  lemma OtherTurnsDoNotMatter(normalized: string -> string, mappings: seq<Mapping>, r: Roster, n: Roster, source: Id,
                              other: DirectoryUser, du: DirectoryUser)
    requires other.subject != du.subject && other.username != du.username && (du.email == "" || other.email != du.email)
    requires n == NextRoster(normalized, mappings, r, source, other)
    ensures ViewOf(n, source, du) == ViewOf(r, source, du)
  {
    var touched, matched := FindIdentity(r.identities, source, other.subject), Matches(normalized, mappings, source, other.groups);
    if touched.Some? {
      OtherRowsDoNotShow(r, touched.value, matched, source, du);
    } else if Creates(mappings, matched) {
      OtherUserDoesNotShow(r, source, other, du);
      var created := n.(rows := r.rows);
      assert ViewOf(created, source, du) == ViewOf(r, source, du);
      OtherRowsDoNotShow(created, |r.identities|, matched, source, du);
      assert n == created.(rows := WithRows(created.rows, |r.identities|, matched));
    }
  }

  ghost predicate AllDifferent(users: seq<DirectoryUser>) {
    forall i, j :: 0 <= i < j < |users| ==>
      && users[i].subject != users[j].subject && users[i].username != users[j].username
      && (users[j].email == "" || users[i].email != users[j].email)
  }

  lemma {:induction false} ViewAsAtStart(normalized: string -> string, mappings: seq<Mapping>, r: Roster, source: Id,
                                         users: seq<DirectoryUser>, n: nat, k: nat)
    requires AllDifferent(users) && n <= k < |users|
    ensures ViewOf(RosterAfter(normalized, mappings, r, source, users, n), source, users[k]) == ViewOf(r, source, users[k])
  {
    if n > 0 {
      ViewAsAtStart(normalized, mappings, r, source, users, n - 1, k);
      OtherTurnsDoNotMatter(normalized, mappings, RosterAfter(normalized, mappings, r, source, users, n - 1),
                            RosterAfter(normalized, mappings, r, source, users, n), source, users[n - 1], users[k]);
    }
  }

  /** If all differ, some turn raises exactly if some user's turn would on the tables as they are before the call. */
  lemma AbortsIffSomeUserRaises(normalized: string -> string, mappings: seq<Mapping>, r: Roster, source: Id, users: seq<DirectoryUser>)
    requires AllDifferent(users)
    ensures Aborts(normalized, mappings, r, source, users) <==>
            exists k :: 0 <= k < |users| && Raises(normalized, mappings, r, source, users[k])
  {
    forall k: nat | k < |users|
      ensures RaisesAt(normalized, mappings, r, source, users, k) <==> Raises(normalized, mappings, r, source, users[k])
    {
      ViewAsAtStart(normalized, mappings, r, source, users, k, k);
    }
    if k :| 0 <= k < |users| && Raises(normalized, mappings, r, source, users[k]) {
      assert RaisesAt(normalized, mappings, r, source, users, k);
    }
  }

  /** The rows after a reconciliation. */
  lemma RowsAfterReconcile(mappings: seq<Mapping>, s: State, id: nat, matched: seq<nat>, order: seq<nat>)
    requires WellFormed(mappings, s) && id < |s.identities| && Lists(s, id, order) && InRange(mappings, matched)
    requires Reconcile(mappings, s, id, matched, order).Some?
    ensures Reconcile(mappings, s, id, matched, order).value.state.links.Keys == WithRows(s.links.Keys, id, matched)
  {
    RowsEqualMatches(mappings, s, id, matched, order);
    var r := Reconcile(mappings, s, id, matched, order).value.state;
    forall l: Link ensures l in r.links <==> l in WithRows(s.links.Keys, id, matched) {
      assert l == Link(l.identity, l.mapping);
      assert l.identity == id ==> (l in r.links <==> l.mapping in Existing(r, id));
    }
  }

  class DirectoryTables {
    var identities: seq<Identity>
    var members: set<Member>
    var links: map<Link, bool>
    var defaults: map<nat, Default>
    var usernames: set<string>
    var emails: set<string>
    var nextUser: nat

    ghost function Contents(): State
      reads this
    {
      State(identities, members, links, defaults)
    }

    ghost function Now(): Roster
      reads this
    {
      Roster(identities, usernames, emails, nextUser, links.Keys)
    }

    constructor (taken: set<string>, addresses: set<string>, users: nat, manual: set<Member>)
      ensures Contents() == State([], manual, map[], map[]) && Now() == Roster([], taken, addresses, users, {})
    {
      identities, members, links, defaults := [], manual, map[], map[];
      usernames, emails, nextUser := taken, addresses, users;
    }

    /** The first loop; `false` where a row would be created twice. */
    method AddMatched(mappings: seq<Mapping>, id: nat, matched: seq<nat>, existing: set<nat>) returns (ok: bool, added: nat)
      requires WellFormed(mappings, Contents()) && id < |identities|
      requires forall k :: 0 <= k < |matched| ==> matched[k] < |mappings|
      modifies this`members, this`links
      ensures ok <==> AddAll(mappings, old(Contents()), id, matched, existing).Some?
      ensures ok ==> AddAll(mappings, old(Contents()), id, matched, existing) == Some(Progress(Contents(), added))
      ensures ok ==> WellFormed(mappings, Contents())
    {
      ok, added := true, 0;
      for n := 0 to |matched|
        invariant AddAll(mappings, old(Contents()), id, matched[..n], existing) == Some(Progress(Contents(), added))
        invariant ok && WellFormed(mappings, Contents())
      {
        var m := matched[n];
        assert matched[..n + 1][..n] == matched[..n];
        if m !in existing {
          if Link(id, m) in links {
            AddAllFails(mappings, old(Contents()), id, matched, existing, n + 1);
            return false, 0;
          }
          var mb := Member(identities[id].user, mappings[m].group);
          var was := mb in members;
          links := links[Link(id, m) := was];
          members := members + {mb};
          if !was {
            added := added + 1;
          }
        }
      }
      assert matched[..|matched|] == matched;
    }

    /** The second loop. */
    method RemoveUnmatched(mappings: seq<Mapping>, id: nat, matched: seq<nat>, order: seq<nat>) returns (removed: nat)
      requires WellFormed(mappings, Contents()) && id < |identities|
      requires forall k :: 0 <= k < |order| ==> order[k] < |mappings|
      modifies this`members, this`links
      ensures WellFormed(mappings, Contents())
      ensures RemoveAll(mappings, old(Contents()), id, order, matched) == Progress(Contents(), removed)
    {
      removed := 0;
      for n := 0 to |order|
        invariant WellFormed(mappings, Contents())
        invariant RemoveAll(mappings, old(Contents()), id, order[..n], matched) == Progress(Contents(), removed)
      {
        var m := order[n];
        assert order[..n + 1][..n] == order[..n];
        if m !in matched && Link(id, m) in links {
          var mb := Member(identities[id].user, mappings[m].group);
          var preserve := links[Link(id, m)];
          links := links - {Link(id, m)};
          if !preserve && !ManagedElsewhere(mappings, State(identities, members, links, defaults), mb) {
            members := members - {mb};
            removed := removed + 1;
          }
        }
      }
      assert order[..|order|] == order;
    }

    /** `None` where a row would be created twice; the caller's transaction undoes it. */
    method ReconcileExternalMemberships(mappings: seq<Mapping>, id: nat, matched: seq<nat>, order: seq<nat>)
      returns (result: Option<(nat, nat)>)
      requires WellFormed(mappings, Contents()) && id < |identities| && Lists(Contents(), id, order)
      requires forall k :: 0 <= k < |matched| ==> matched[k] < |mappings|
      modifies this`members, this`links
      ensures var r := Reconcile(mappings, old(Contents()), id, matched, order);
              && (result.Some? <==> r.Some?)
              && (result.Some? ==> Contents() == r.value.state && result.value == (r.value.added, r.value.removed))
              && (result.None? ==> Contents() == old(Contents()))
    {
      var savedMembers, savedLinks := members, links;
      OrderInRange(mappings, Contents(), id, order);
      var existing := set l | l in links && l.identity == id :: l.mapping;
      assert existing == Existing(Contents(), id);
      var ok, added := AddMatched(mappings, id, matched, existing);
      if !ok {
        members, links := savedMembers, savedLinks;
        return None;
      }
      var removed := RemoveUnmatched(mappings, id, matched, order);
      return Some((added, removed));
    }

    method ReconcileOidcDefault(mappings: seq<Mapping>, id: nat, group: Option<Id>)
      requires WellFormed(mappings, Contents()) && id < |identities|
      modifies this`members, this`defaults
      ensures Contents() == ReconcileDefault(mappings, old(Contents()), id, group)
    {
      if id in defaults && group == Some(defaults[id].group) {
        return;
      }
      var user := identities[id].user;
      if id in defaults {
        var previous := defaults[id];
        defaults := defaults - {id};
        var mb := Member(user, previous.group);
        var s := State(identities, members, links, defaults);
        if !previous.preserve && !ManagedElsewhere(mappings, s, mb) && !DefaultElsewhere(s, mb) {
          members := members - {mb};
        }
      }
      if group.Some? {
        var mb := Member(user, group.value);
        var was := mb in members;
        defaults := defaults[id := Default(group.value, was)];
        if !was {
          members := members + {mb};
        }
      }
      ghost var r := ReconcileDefault(mappings, old(Contents()), id, group);
      assert members == r.members && defaults == r.defaults;
    }

    /** The rows of an identity, in some order. */
    method RowsOf(id: nat) returns (order: seq<nat>)
      ensures Lists(Contents(), id, order)
    {
      var all := set l | l in links && l.identity == id :: l.mapping;
      var rest := all;
      order := [];
      while rest != {}
        invariant rest <= all && Distinct(order)
        invariant forall m :: m in order <==> m in all - rest
        decreases rest
      {
        var m :| m in rest;
        assert m !in order;
        order, rest := order + [m], rest - {m};
      }
    }

    /** `_create_external_user`: a taken name or address raises. */
    method CreateIdentity(source: Id, du: DirectoryUser) returns (ok: bool)
      modifies this
      ensures ok <==> !Taken(old(Now()), du)
      ensures Now() == if ok then Roster(old(identities) + [Identity(source, old(nextUser), du.subject)], old(usernames) + {du.username},
                                         old(emails) + {du.email}, old(nextUser) + 1, old(links).Keys)
                       else old(Now())
      ensures Contents() == if ok then old(Contents()).(identities := old(identities) + [Identity(source, old(nextUser), du.subject)])
                            else old(Contents())
    {
      if du.username in usernames || (du.email != "" && du.email in emails) {
        return false;
      }
      identities := identities + [Identity(source, nextUser, du.subject)];
      usernames, emails, nextUser := usernames + {du.username}, emails + {du.email}, nextUser + 1;
      return true;
    }

    /** One turn of the synchronization loop; `None` where it raises. */
    method SynchronizeOne(normalized: string -> string, mappings: seq<Mapping>, source: Id, du: DirectoryUser)
      returns (result: Option<Report>, ghost touched: nat)
      requires WellFormed(mappings, Contents()) && Backed(mappings, Contents())
      modifies this
      ensures result.None? <==> Raises(normalized, mappings, old(Now()), source, du)
      ensures result.Some? ==> Now() == NextRoster(normalized, mappings, old(Now()), source, du)
      ensures result.Some? ==> OneSynchronized(normalized, mappings, old(Contents()), Contents(), source, du, touched, result.value)
    {
      var matched := Matches(normalized, mappings, source, du.groups);
      var found := FindIdentity(identities, source, du.subject);
      var id := |identities|;
      touched := 0;
      if found.Some? {
        id := found.value;
      } else {
        if !Creates(mappings, matched) {
          return Some(Report(0, 0, 1, 0, 0)), 0;
        }
        NewIdentityKeeps(mappings, Contents(), Identity(source, nextUser, du.subject));
        FindAfterAppend(identities, Identity(source, nextUser, du.subject), source, du.subject);
        var ok := CreateIdentity(source, du);
        if !ok {
          return None, 0;
        }
      }
      var order := RowsOf(id);
      ghost var before := Contents();
      ghost var roster := Now();
      assert Existing(before, id) == RowsIn(roster.rows, id);
      ReconcileRaisesIff(mappings, before, id, matched, order);
      var moved := ReconcileExternalMemberships(mappings, id, matched, order);
      if moved.None? {
        return None, 0;
      }
      touched := id;
      RowsAfterReconcile(mappings, before, id, matched, order);
      result := Some(Report(if found.None? then 1 else 0, if found.None? then 0 else 1, 0, moved.value.0, moved.value.1));
      ReconciledIsSynchronized(normalized, mappings, old(Contents()), before, source, du, id, order, result.value);
    }

    /** The synchronization loop, up to the first turn that raises. */
    method SynchronizeAll(normalized: string -> string, mappings: seq<Mapping>, source: Id, users: seq<DirectoryUser>)
      returns (result: Option<Report>)
      requires WellFormed(mappings, Contents()) && Backed(mappings, Contents())
      modifies this
      ensures result.None? <==> Aborts(normalized, mappings, old(Now()), source, users)
      ensures result.Some? ==>
                && Now() == RosterAfter(normalized, mappings, old(Now()), source, users, |users|)
                && WellFormed(mappings, Contents())
                && SoFar(normalized, mappings, old(Contents()), Contents(), source, users, |users|, result.value)
    {
      var report := Report(0, 0, 0, 0, 0);
      for n := 0 to |users|
        invariant WellFormed(mappings, Contents()) && SoFar(normalized, mappings, old(Contents()), Contents(), source, users, n, report)
        invariant RosterSoFar(normalized, mappings, old(Now()), Now(), source, users, n)
      {
        ghost var before := Contents();
        RosterOneMore(normalized, mappings, old(Now()), Now(), source, users, n);
        var one, touched := SynchronizeOne(normalized, mappings, source, users[n]);
        if one.None? {
          return None;
        }
        OneMoreUser(normalized, mappings, old(Contents()), before, Contents(), source, users, n, report, one.value, touched);
        report := Sum(report, one.value);
      }
      return Some(report);
    }

    /** All of them in one transaction. */
    method ApplyDirectoryUsers(normalized: string -> string, mappings: seq<Mapping>, source: Id, users: seq<DirectoryUser>)
      returns (result: Option<Report>)
      requires WellFormed(mappings, Contents()) && Backed(mappings, Contents())
      modifies this
      ensures result.None? <==> Aborts(normalized, mappings, old(Now()), source, users)
      ensures result.None? ==> Contents() == old(Contents()) && Now() == old(Now())
      ensures result.Some? ==> Now() == RosterAfter(normalized, mappings, old(Now()), source, users, |users|)
      ensures WellFormed(mappings, Contents()) && Backed(mappings, Contents())
      ensures forall mb :: Protected(mappings, old(Contents()), mb) ==> Protected(mappings, Contents(), mb)
      ensures result.Some? ==>
                && result.value.created + result.value.updated + result.value.skipped == |users|
                && |members| == |old(members)| + result.value.added - result.value.removed
                && (DistinctSubjects(users) ==>
                    forall k :: 0 <= k < |users| ==> Synchronized(normalized, mappings, Contents(), source, users[k]))
    {
      var saved := (identities, members, links, defaults, usernames, emails, nextUser);
      result := SynchronizeAll(normalized, mappings, source, users);
      if result.None? {
        identities, members, links, defaults := saved.0, saved.1, saved.2, saved.3;
        usernames, emails, nextUser := saved.4, saved.5, saved.6;
      }
    }
  }

  /** Identities added at the end change nothing about the rows already there. */
  lemma NewIdentityKeeps(mappings: seq<Mapping>, s: State, identity: Identity)
    requires WellFormed(mappings, s) && Backed(mappings, s)
    ensures var n := s.(identities := s.identities + [identity]);
            && WellFormed(mappings, n) && Backed(mappings, n)
            && (forall mb :: Protected(mappings, s, mb) ==> Protected(mappings, n, mb))
            && Existing(n, |s.identities|) == {}
  {
    var n := s.(identities := s.identities + [identity]);
    forall l | l in s.links
      ensures MemberOf(mappings, n, l) == MemberOf(mappings, s, l)
    {
    }
    assert forall i :: i in s.defaults ==> n.identities[i] == s.identities[i];
  }

  /** A violated constraint is not repaired by later matches. */
  lemma {:induction false} AddAllFails(mappings: seq<Mapping>, s: State, id: nat, matched: seq<nat>, existing: set<nat>, n: nat)
    requires id < |s.identities| && forall k :: 0 <= k < |matched| ==> matched[k] < |mappings|
    requires n <= |matched| && AddAll(mappings, s, id, matched[..n], existing).None?
    ensures AddAll(mappings, s, id, matched, existing).None?
    decreases |matched|
  {
    if n < |matched| {
      var k := |matched| - 1;
      assert matched[..k][..n] == matched[..n];
      AddAllFails(mappings, s, id, matched[..k], existing, n);
    } else {
      assert matched[..n] == matched;
    }
  }
}
