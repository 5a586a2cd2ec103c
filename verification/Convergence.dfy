/** What a whole reconcile achieves: a Ready group is in sync on every backend, and a
    further reconcile finds nothing to do. */
module Convergence {
  import opened Common
  import opened Backends
  import opened Sync
  import opened Expansion
  import opened Reconcile
  import Owners
  import Status

  // ---------------------------------------------------------------- what reconciles leave alone in the CRs

  /** The same CR up to finalizer, owner references and status. */
  ghost predicate SameSpec(cr: GroupCR, cr': GroupCR) {
    cr' == cr.(finalizer := cr'.finalizer, owners := cr'.owners, status := cr'.status)
  }

  ghost predicate SameSpecs(g: Groups, g': Groups) {
    g'.Keys == g.Keys && forall n :: n in g ==> SameSpec(g[n], g'[n])
  }

  lemma {:induction false} WalkSame(g: Groups, g': Groups, name: string, path: set<string>)
    requires SameSpecs(g, g')
    ensures Walk(g, name, path) == Walk(g', name, path)
    decreases g.Keys - path, 0
  {
    if name !in path && name in g {
      WalkAllSame(g, g', g[name].groups, path + {name});
    }
  }

  lemma {:induction false} WalkAllSame(g: Groups, g': Groups, subs: seq<string>, path: set<string>)
    requires SameSpecs(g, g')
    ensures WalkAll(g, subs, path) == WalkAll(g', subs, path)
    decreases g.Keys - path, |subs|
  {
    if subs != [] {
      WalkSame(g, g', subs[0], path);
      WalkAllSame(g, g', subs[1..], path);
    }
  }

  lemma {:induction false} DesiredSame(g: Groups, g': Groups, names: seq<string>, refs: map<string, OwnerRef>)
    requires SameSpecs(g, g')
    ensures Owners.Desired(g, names, refs) == Owners.Desired(g', names, refs)
  {
    if names != [] && names[0] in g {
      assert Owners.RefTo(g, names[0]) == Owners.RefTo(g', names[0]);
      DesiredSame(g, g', names[1..], refs[g[names[0]].uid := Owners.RefTo(g, names[0])]);
    }
  }

  /** The owner references need no update. */
  ghost predicate OwnersCurrent(g: Groups, name: string)
    requires name in g
  {
    var d := Owners.Desired(g, g[name].groups, map[]);
    d.Ok? && !Owners.NeedsUpdate(d.value.Keys, Owners.GroupUids(g[name].owners))
  }

  lemma PutSame(w: World, name: string, cr: GroupCR, env: Env)
    requires name in w.groups && SameSpec(w.groups[name], cr)
    ensures SameSpecs(w.groups, Put(w, name, cr, env).w.groups)
    ensures Unchanged(w.p, Put(w, name, cr, env).w.p)
  {
  }

  lemma SetOwnersEffect(w: World, name: string, env: Env)
    requires name in w.groups && Owners.Arranges(env.arrange)
    ensures
      var o := SetOwners(w, name, env);
      && SameSpecs(w.groups, o.w.groups) && Unchanged(w.p, o.w.p)
      && o.w.groups[name].status == w.groups[name].status
      && o.w.groups[name].finalizer == w.groups[name].finalizer
      && (o.r.Ok? ==> OwnersCurrent(o.w.groups, name))
  {
    var o := SetOwners(w, name, env);
    Owners.OwnersFollowSpec(w.groups, w.groups[name], env.arrange);
    var r := Owners.NewOwners(w.groups, w.groups[name], env.arrange);
    if r.Ok? && r.value.Some? {
      PutSame(w, name, w.groups[name].(owners := r.value.value), env);
      DesiredSame(w.groups, o.w.groups, w.groups[name].groups, map[]);
    }
  }

  lemma SameSpecsTrans(a: Groups, b: Groups, c: Groups)
    requires SameSpecs(a, b) && SameSpecs(b, c)
    ensures SameSpecs(a, c)
  {
    forall n | n in a
      ensures SameSpec(a[n], c[n])
    {
      assert SameSpec(a[n], b[n]) && SameSpec(b[n], c[n]);
    }
  }

  lemma AddFinalizerEffect(w: World, name: string, env: Env)
    requires name in w.groups
    ensures
      var a := AddFinalizer(w, name, env);
      && SameSpecs(w.groups, a.w.groups) && Unchanged(w.p, a.w.p)
      && a.w.groups[name].status == w.groups[name].status
      && (a.r.Ok? ==> a.w.groups[name].finalizer)
  {
    PutSame(w, name, w.groups[name].(finalizer := true), env);
  }

  lemma SetWaitingEffect(w: World, name: string, env: Env)
    requires name in w.groups
    ensures
      var s := SetWaiting(w, name, env);
      && SameSpecs(w.groups, s.w.groups) && Unchanged(w.p, s.w.p)
      && s.w.groups[name].finalizer == w.groups[name].finalizer
      && (s.r.Err? ==> s.w.groups == w.groups)
      && (s.r.Ok? ==> s.w.groups == w.groups[name := Status.Waiting(w.groups[name])])
      && (OwnersCurrent(w.groups, name) ==> OwnersCurrent(s.w.groups, name))
  {
    var s := SetWaiting(w, name, env);
    PutSame(w, name, Status.Waiting(w.groups[name]), env);
    DesiredSame(w.groups, s.w.groups, w.groups[name].groups, map[]);
  }

  /** The steps before expansion write only the CR at hand, and its status last. */
  lemma PrepareEffect(w: World, name: string, env: Env)
    requires name in w.groups && Owners.Arranges(env.arrange)
    ensures
      var r := Prepare(w, name, env);
      && SameSpecs(w.groups, r.w.groups) && Unchanged(w.p, r.w.p)
      && (r.r.Err? ==> r.w.groups[name].status == w.groups[name].status)
      && (r.r.Ok? ==>
            && r.w.groups[name].finalizer
            && OwnersCurrent(r.w.groups, name)
            && r.w.groups[name].status == Status.Waiting(w.groups[name]).status)
  {
    var a := AddFinalizer(w, name, env);
    AddFinalizerEffect(w, name, env);
    if a.r.Ok? {
      var o := SetOwners(a.w, name, env);
      SetOwnersEffect(a.w, name, env);
      SameSpecsTrans(w.groups, a.w.groups, o.w.groups);
      if o.r.Ok? {
        var s := SetWaiting(o.w, name, env);
        SetWaitingEffect(o.w, name, env);
        SameSpecsTrans(w.groups, o.w.groups, s.w.groups);
      }
    }
  }

  // ---------------------------------------------------------------- LDAP snapshots

  /** Only the LDAP data of the members matters. */
  lemma SnapshotSuffices(
    cfg: Config, p: Platform, groupName: string, users: seq<string>, b: Backend, ldap: map<string, string>)
    ensures
      var snap := Snapshot(users, ldap);
      && (Prepared(cfg, p, groupName, users, b, snap) <==> Prepared(cfg, p, groupName, users, b, ldap))
      && (InSync(cfg, p, groupName, users, b, snap) <==> InSync(cfg, p, groupName, users, b, ldap))
      && (NoClash(p, users, b, snap) <==> NoClash(p, users, b, ldap))
  {
    var snap := Snapshot(users, ldap);
    assert forall u :: u in users ==> (u in snap <==> u in ldap) && (u in ldap ==> snap[u] == ldap[u]);
    assert SyncedIds(p.cache, users, b, snap) == SyncedIds(p.cache, users, b, ldap);
    assert Unlisted(users, snap) == Unlisted(users, ldap);
  }

  // ---------------------------------------------------------------- Ready means in sync

  /** Every backend has its team and users cached, and the team has exactly the wanted
      members, unless a member without LDAP data bears the name of a wanted ID. */
  ghost predicate BackendsInSync(cfg: Config, p: Platform, groupName: string, users: seq<string>,
                                 backends: seq<Backend>, ldap: map<string, string>) {
    forall b :: b in backends ==>
      && Prepared(cfg, p, groupName, users, b, ldap)
      && (NoClash(p, users, b, ldap) ==> InSync(cfg, p, groupName, users, b, ldap))
  }

  ghost predicate GroupInSync(cfg: Config, w: World, name: string, ldap: map<string, string>) {
    && name in w.groups
    && MembersOfGroup(w.groups, name).Ok?
    && BackendsInSync(cfg, w.p, w.groups[name].groupName, MembersOfGroup(w.groups, name).value,
                      w.groups[name].backends, ldap)
  }

  /** No member without LDAP data bears the name of a wanted ID, on any of the backends. */
  ghost predicate NoClashes(p: Platform, users: seq<string>, backends: seq<Backend>, ldap: map<string, string>) {
    forall b :: b in backends ==> NoClash(p, users, b, ldap)
  }

  lemma FinishEffect(w: World, name: string, users: seq<string>, errors: map<string, Failure>, env: Env)
    requires name in w.groups
    ensures
      var out := Finish(w, name, users, errors, env);
      && name in out.w.groups
      && out.w.groups == w.groups[name := w.groups[name].(status := out.w.groups[name].status)]
      && Unchanged(w.p, out.w.p)
      && (out.r.Ok? <==> errors == map[])
      && (out.w.groups[name].status != w.groups[name].status ==> (Status.IsReady(out.w.groups[name]) <==> out.r.Ok?))
      && (out.r.Ok? && NoFaults(env) ==> Status.IsReady(out.w.groups[name]))
  {
    Status.SetThenRead(w.groups[name].status.conditions,
                       if errors == map[] then Status.SUCCEEDED else Status.FAILED, Status.GROUP_READY);
  }

  /** The status written after the backend loop is the only change to the CRs. */
  lemma SyncGroupEffect(cfg: Config, w: World, name: string, env: Env)
    requires name in w.groups
    ensures
      var out := SyncGroup(cfg, w, name, env);
      var users := MembersOfGroup(w.groups, name);
      && name in out.w.groups
      && out.w.groups == w.groups[name := w.groups[name].(status := out.w.groups[name].status)]
      && (users.Ok? ==> Unchanged(GroupLoop(cfg, w, name, users.value, env).p, out.w.p))
      && (out.r.Ok? <==> users.Ok? && GroupLoop(cfg, w, name, users.value, env).end == Finished(map[]))
      && (out.w.groups[name].status != w.groups[name].status ==> (Status.IsReady(out.w.groups[name]) <==> out.r.Ok?))
      && (out.r.Ok? && NoFaults(env) ==> Status.IsReady(out.w.groups[name]))
  {
    var users := MembersOfGroup(w.groups, name);
    if users.Ok? {
      var loop := GroupLoop(cfg, w, name, users.value, env);
      if loop.end.Finished? {
        FinishEffect(w.(p := loop.p), name, users.value, loop.end.errors, env);
      }
    }
  }

  lemma StatusOnly(g: Groups, g': Groups, name: string)
    requires name in g && name in g' && g' == g[name := g[name].(status := g'[name].status)]
    ensures SameSpecs(g, g')
  {
  }

  lemma LoopEndsInSync(cfg: Config, w: World, name: string, env: Env)
    requires name in w.groups && NonEmptyIds(env) && MembersOfGroup(w.groups, name).Ok?
    requires GroupLoop(cfg, w, name, MembersOfGroup(w.groups, name).value, env).end == Finished(map[])
    ensures
      var loop := GroupLoop(cfg, w, name, MembersOfGroup(w.groups, name).value, env);
      GroupInSync(cfg, w.(p := loop.p), name, env.ldap)
  {
    var cr := w.groups[name];
    var users := MembersOfGroup(w.groups, name).value;
    var q := GroupLoop(cfg, w, name, users, env).p;
    AllBackendsSettle(cfg, w.p, cr.groupName, users, cr.backends, env.(ldap := Snapshot(users, env.ldap)));
    forall b | b in cr.backends
      ensures Prepared(cfg, q, cr.groupName, users, b, env.ldap)
      ensures NoClash(q, users, b, env.ldap) ==> InSync(cfg, q, cr.groupName, users, b, env.ldap)
    {
      SnapshotSuffices(cfg, q, cr.groupName, users, b, env.ldap);
    }
  }

  /** Being in sync does not depend on finalizers, owner references, statuses or the call counter. */
  lemma InSyncTransfers(cfg: Config, w: World, w': World, name: string, ldap: map<string, string>)
    requires SameSpecs(w.groups, w'.groups) && Unchanged(w.p, w'.p) && GroupInSync(cfg, w, name, ldap)
    ensures GroupInSync(cfg, w', name, ldap)
  {
    var cr := w.groups[name];
    assert SameSpec(cr, w'.groups[name]);
    WalkSame(w.groups, w'.groups, cr.groupName, {});
    var users := MembersOfGroup(w.groups, name).value;
    forall b | b in cr.backends
      ensures Prepared(cfg, w'.p, cr.groupName, users, b, ldap)
      ensures NoClash(w'.p, users, b, ldap) ==> InSync(cfg, w'.p, cr.groupName, users, b, ldap)
    {
      assert Prepared(cfg, w.p, cr.groupName, users, b, ldap);
    }
  }

  lemma SyncGroupSettles(cfg: Config, w: World, name: string, env: Env)
    requires name in w.groups && NonEmptyIds(env) && SyncGroup(cfg, w, name, env).r.Ok?
    ensures GroupInSync(cfg, SyncGroup(cfg, w, name, env).w, name, env.ldap)
  {
    SyncGroupEffect(cfg, w, name, env);
    StatusOnly(w.groups, SyncGroup(cfg, w, name, env).w.groups, name);
    LoopEndsInSync(cfg, w, name, env);
    var loop := GroupLoop(cfg, w, name, MembersOfGroup(w.groups, name).value, env);
    InSyncTransfers(cfg, w.(p := loop.p), SyncGroup(cfg, w, name, env).w, name, env.ldap);
  }

  /** The writes of a reconcile before it expands the members: the finalizer and the owner
      references if they have to change, and the waiting status. */
  function EarlyWrites(w: World, name: string): nat
    requires name in w.groups
  {
    var cr := w.groups[name];
    (if cr.finalizer then 0 else 1)
      + (if Owners.GroupUids(cr.owners) == Owners.UidsOf(w.groups, cr.groups) then 0 else 1)
      + 1
  }

  /** All listed groups are stored, and none of the early writes fails. */
  ghost predicate GoesThrough(w: World, name: string, env: Env)
    requires name in w.groups
  {
    && (forall g :: g in w.groups[name].groups ==> g in w.groups)
    && (forall n :: w.p.tick <= n < w.p.tick + EarlyWrites(w, name) ==> env.reply(n).Done?)
  }

  lemma UidsSame(g: Groups, g': Groups, names: seq<string>)
    requires SameSpecs(g, g')
    ensures Owners.UidsOf(g, names) == Owners.UidsOf(g', names)
  {
    assert forall n :: n in names && n in g ==> g'[n].uid == g[n].uid;
  }

  /** The steps before the expansion succeed exactly under that condition. */
  lemma PrepareExact(w: World, name: string, env: Env)
    requires name in w.groups && Owners.Arranges(env.arrange)
    ensures Prepare(w, name, env).r.Ok? <==> GoesThrough(w, name, env)
  {
    var cr := w.groups[name];
    var a := AddFinalizer(w, name, env);
    AddFinalizerEffect(w, name, env);
    var t := w.p.tick;
    assert !cr.finalizer ==> (a.r.Ok? <==> env.reply(t).Done?) && t < t + EarlyWrites(w, name);
    if a.r.Ok? {
      assert a.w.groups[name].groups == cr.groups && a.w.groups[name].owners == cr.owners;
      UidsSame(w.groups, a.w.groups, cr.groups);
      OwnersAndWaiting(a.w, name, env);
      var u := a.w.p.tick;
      assert u == if cr.finalizer then t else t + 1;
      assert EarlyWrites(w, name) == (u - t) + EarlyWrites(a.w, name);
      assert a.w.groups.Keys == w.groups.Keys;
    }
  }

  lemma OwnersAndWaiting(w: World, name: string, env: Env)
    requires name in w.groups && w.groups[name].finalizer && Owners.Arranges(env.arrange)
    ensures Prepare(w, name, env).r.Ok? <==> GoesThrough(w, name, env)
  {
    var t := w.p.tick;
    var o := SetOwners(w, name, env);
    Owners.OwnersFollowSpec(w.groups, w.groups[name], env.arrange);
    assert AddFinalizer(w, name, env) == Reconciled(w, Ok(()));
    if o.r.Ok? {
      assert o.w.p.tick == t + EarlyWrites(w, name) - 1;
      assert SetWaiting(o.w, name, env).r.Ok? <==> env.reply(o.w.p.tick).Done?;
    } else {
      assert env.reply(t).Fault? || exists g :: g in w.groups[name].groups && g !in w.groups;
    }
  }

  /** A reconcile that returns no error leaves the group in sync on all its backends. If all
      listed groups are stored and the early writes go through, a CR that reads Ready
      afterwards was reconciled without error and is in sync. Otherwise, and for a CR that is
      being deleted, the status, and with it an older Ready, is the one from before. */
  lemma ReadyMeansInSync(cfg: Config, w: World, name: string, env: Env)
    requires name in w.groups && NonEmptyIds(env) && Owners.Arranges(env.arrange)
    ensures
      var out := ReconcileGroup(cfg, w, name, env);
      var open := !w.groups[name].deleting && GoesThrough(w, name, env);
      && name in out.w.groups
      && SameSpecs(w.groups, out.w.groups)
      && (out.r.Ok? && !w.groups[name].deleting ==> open && GroupInSync(cfg, out.w, name, env.ldap))
      && (open && Status.IsReady(out.w.groups[name]) ==> out.r.Ok? && GroupInSync(cfg, out.w, name, env.ldap))
      && (!open ==> out.w.groups[name].status == w.groups[name].status)
  {
    if !w.groups[name].deleting {
      PrepareExact(w, name, env);
      PrepareEffect(w, name, env);
      var ready := Prepare(w, name, env);
      if ready.r.Ok? {
        var out := SyncGroup(cfg, ready.w, name, env);
        SyncGroupEffect(cfg, ready.w, name, env);
        StatusOnly(ready.w.groups, out.w.groups, name);
        SameSpecsTrans(w.groups, ready.w.groups, out.w.groups);
        if out.r.Ok? { SyncGroupSettles(cfg, ready.w, name, env); }
        Status.SetThenRead(w.groups[name].status.conditions, Status.WAITING, Status.GROUP_READY);
      }
    }
  }

  /** A stale Ready is possible: when a listed group is gone, a Ready CR stays Ready although
      it is not in sync. */
  lemma StaleReady(cfg: Config, w: World, name: string, env: Env)
    requires name in w.groups && !w.groups[name].deleting && w.groups[name].finalizer
    requires w.groups[name].groupName == name && Status.IsReady(w.groups[name])
    requires Owners.Arranges(env.arrange)
    requires exists n :: n in w.groups[name].groups && n !in w.groups
    ensures
      var out := ReconcileGroup(cfg, w, name, env);
      && out.r.Err? && out.w == w
      && Status.IsReady(out.w.groups[name])
      && !GroupInSync(cfg, out.w, name, env.ldap)
  {
    Owners.OwnersFollowSpec(w.groups, w.groups[name], env.arrange);
    var n :| n in w.groups[name].groups && n !in w.groups;
    ReachesItself(w.groups, name);
    ReachesMember(w.groups, name, name, n);
    ExpansionIsReachability(w.groups, name);
  }

  // ---------------------------------------------------------------- where the expansion starts

  /** The members a reconcile works with are exactly the users reachable from the CR that
      bears the group name; so a CR is reconciled to its own members if its name is its
      group name. */
  lemma OwnMembers(g: Groups, name: string)
    requires name in g
    ensures
      var r := MembersOfGroup(g, name);
      && (r.Err? <==> exists h :: Reaches(g, g[name].groupName, h) && h !in g)
      && (r.Ok? ==> forall u :: u in r.value <==>
            exists h :: Reaches(g, g[name].groupName, h) && h in g && u in g[h].users)
      && (g[name].groupName == name && r.Ok? ==> forall u :: u in g[name].users ==> u in r.value)
  {
    ExpansionIsReachability(g, g[name].groupName);
    var walked := Walk(g, g[name].groupName, {});
    if walked.Ok? {
      DedupElems(walked.value, {});
      assert forall u :: u in walked.value <==> u in Elems(walked.value);
      assert forall u :: u in DedupFrom(walked.value, {}) <==> u in Elems(DedupFrom(walked.value, {}));
      ReachesItself(g, g[name].groupName);
    }
  }

  /** A CR whose group name is the name of no stored CR is never reconciled: every try fails
      and leaves the platforms as they are. */
  lemma StrayGroupName(cfg: Config, w: World, name: string, env: Env)
    requires name in w.groups && !w.groups[name].deleting && w.groups[name].groupName !in w.groups
    requires Owners.Arranges(env.arrange)
    ensures
      var out := ReconcileGroup(cfg, w, name, env);
      out.r.Err? && Unchanged(w.p, out.w.p)
  {
    PrepareEffect(w, name, env);
  }

  // ---------------------------------------------------------------- idempotence

  /** Prepared backends: the loop creates nothing and caches nothing. */
  lemma {:induction false} LoopCreatesNothing(cfg: Config, p: Platform, groupName: string, users: seq<string>,
                                              backends: seq<Backend>, env: Env, errors: map<string, Failure>)
    requires forall b :: b in backends ==> Prepared(cfg, p, groupName, users, b, env.ldap)
    ensures
      var q := SyncAll(cfg, p, groupName, users, backends, env, errors).p;
      && q.cache == p.cache
      && p.log <= q.log
      && forall i :: |p.log| <= i < |q.log| ==> q.log[i].MembersAdded? || q.log[i].MembersRemoved?
    decreases |backends|
  {
    if backends != [] {
      var c := backends[0];
      var run := SyncBackend(cfg, p, groupName, users, c, env);
      SecondPass(cfg, p, groupName, users, c, env);
      SyncBackendFrame(cfg, p, groupName, users, c, env);
      forall b | b in backends
        ensures Prepared(cfg, run.p, groupName, users, b, env.ldap)
      {
        PreparedPersists(cfg, p, run.p, groupName, users, b, c, env.ldap);
      }
      var errors' := if run.end.Recorded? then errors[c.kind := run.end.failure] else errors;
      LoopCreatesNothing(cfg, run.p, groupName, users, backends[1..], env, errors');
    }
  }

  /** No clash on any backend of the group. */
  ghost predicate ClashFree(w: World, name: string, ldap: map<string, string>)
    requires name in w.groups && MembersOfGroup(w.groups, name).Ok?
  {
    NoClashes(w.p, MembersOfGroup(w.groups, name).value, w.groups[name].backends, ldap)
  }

  /** Nothing is created; without clashes only the status and the call counter change. */
  ghost predicate Quiet(w: World, w': World, name: string, clashFree: bool)
    requires name in w.groups
  {
    && name in w'.groups
    && w'.groups == w.groups[name := w.groups[name].(status := w'.groups[name].status)]
    && w'.p.cache == w.p.cache
    && w.p.log <= w'.p.log
    && (forall i :: |w.p.log| <= i < |w'.p.log| ==> w'.p.log[i].MembersAdded? || w'.p.log[i].MembersRemoved?)
    && (clashFree ==> Unchanged(w.p, w'.p))
  }

  /** The part after the status has been set to waiting. */
  lemma SyncGroupIsQuiet(cfg: Config, w: World, waiting: World, name: string, env: Env)
    requires GroupInSync(cfg, w, name, env.ldap)
    requires waiting.groups == w.groups[name := Status.Waiting(w.groups[name])] && Unchanged(w.p, waiting.p)
    ensures
      var out := SyncGroup(cfg, waiting, name, env);
      var clashFree := ClashFree(w, name, env.ldap);
      && Quiet(w, out.w, name, clashFree)
      && (NoFaults(env) ==> (out.w.p.log == w.p.log <==> clashFree))
      && (NoFaults(env) && clashFree ==> out.r.Ok? && Status.IsReady(out.w.groups[name]))
  {
    var cr := w.groups[name];
    var users := MembersOfGroup(w.groups, name).value;
    StatusOnly(w.groups, waiting.groups, name);
    WalkSame(w.groups, waiting.groups, cr.groupName, {});
    assert MembersOfGroup(waiting.groups, name) == Ok(users);
    SyncGroupEffect(cfg, waiting, name, env);
    var loop := GroupLoop(cfg, waiting, name, users, env);
    QuietLoop(cfg, w.p, waiting.p, cr.groupName, users, cr.backends, env);
    var out := SyncGroup(cfg, waiting, name, env);
    QuietAfterLoop(w, waiting, loop.p, out.w, name, ClashFree(w, name, env.ldap));
  }

  lemma QuietAfterLoop(w: World, waiting: World, q: Platform, w': World, name: string, clashFree: bool)
    requires name in w.groups && waiting.groups == w.groups[name := Status.Waiting(w.groups[name])]
    requires name in w'.groups
    requires w'.groups == waiting.groups[name := waiting.groups[name].(status := w'.groups[name].status)]
    requires Unchanged(q, w'.p) && q.cache == w.p.cache && w.p.log <= q.log
    requires forall i :: |w.p.log| <= i < |q.log| ==> q.log[i].MembersAdded? || q.log[i].MembersRemoved?
    requires clashFree ==> Unchanged(w.p, q)
    ensures Quiet(w, w', name, clashFree)
  {
  }

  /** A group that is in sync, whose finalizer and owner references are in place: a
      reconcile creates nothing; without clashes it changes nothing but the status,
      whatever fails on the way; and without failures it makes no backend call that
      changes anything exactly when there is no clash. */
  lemma SyncedGroupIsQuiet(cfg: Config, w: World, name: string, env: Env)
    requires GroupInSync(cfg, w, name, env.ldap)
    requires !w.groups[name].deleting && w.groups[name].finalizer && OwnersCurrent(w.groups, name)
    ensures
      var out := ReconcileGroup(cfg, w, name, env);
      var clashFree := ClashFree(w, name, env.ldap);
      && Quiet(w, out.w, name, clashFree)
      && (NoFaults(env) ==> (out.w.p.log == w.p.log <==> clashFree))
      && (NoFaults(env) && clashFree ==> out.r.Ok? && Status.IsReady(out.w.groups[name]))
  {
    var waiting := SetWaiting(w, name, env);
    assert Prepare(w, name, env) == waiting;
    if waiting.r.Ok? {
      SyncGroupIsQuiet(cfg, w, waiting.w, name, env);
    } else {
      assert w.groups[name := w.groups[name].(status := w.groups[name].status)] == w.groups;
    }
  }

  /** The loop's part of the above, with the LDAP snapshot of the reconcile. */
  lemma QuietLoop(
    cfg: Config, p: Platform, p1: Platform, groupName: string, users: seq<string>, backends: seq<Backend>, env: Env)
    requires Unchanged(p, p1) && BackendsInSync(cfg, p, groupName, users, backends, env.ldap)
    ensures
      var clashFree := NoClashes(p, users, backends, env.ldap);
      var loop := SyncAll(cfg, p1, groupName, users, backends, env.(ldap := Snapshot(users, env.ldap)), map[]);
      && loop.p.cache == p.cache
      && p.log <= loop.p.log
      && (forall i :: |p.log| <= i < |loop.p.log| ==> loop.p.log[i].MembersAdded? || loop.p.log[i].MembersRemoved?)
      && (clashFree ==> Unchanged(p, loop.p))
      && (NoFaults(env) && clashFree ==> loop.end == Finished(map[]))
      && (NoFaults(env) && loop.p.log == p.log ==> clashFree)
  {
    var env' := env.(ldap := Snapshot(users, env.ldap));
    forall b | b in backends
      ensures Prepared(cfg, p1, groupName, users, b, env'.ldap)
      ensures NoClash(p, users, b, env.ldap) <==> NoClash(p1, users, b, env'.ldap)
      ensures NoClash(p, users, b, env.ldap) ==> Settled(cfg, p1, groupName, users, b, env'.ldap)
    {
      SnapshotSuffices(cfg, p1, groupName, users, b, env.ldap);
      assert Prepared(cfg, p1, groupName, users, b, env.ldap);
    }
    LoopCreatesNothing(cfg, p1, groupName, users, backends, env', map[]);
    if NoClashes(p, users, backends, env.ldap) {
      LoopIsQuiet(cfg, p1, groupName, users, backends, env', map[]);
    }
    if NoFaults(env) && SyncAll(cfg, p1, groupName, users, backends, env', map[]).p.log == p.log {
      QuietMeansSettled(cfg, p1, groupName, users, backends, env', map[]);
    }
  }

  /** What a successful reconcile establishes for the next one. */
  lemma SuccessIsStable(cfg: Config, w: World, name: string, env: Env)
    requires name in w.groups && !w.groups[name].deleting
    requires NonEmptyIds(env) && Owners.Arranges(env.arrange)
    ensures
      var out := ReconcileGroup(cfg, w, name, env);
      out.r.Ok? ==>
        && GroupInSync(cfg, out.w, name, env.ldap)
        && !out.w.groups[name].deleting && out.w.groups[name].finalizer
        && OwnersCurrent(out.w.groups, name)
  {
    var out := ReconcileGroup(cfg, w, name, env);
    if out.r.Ok? {
      PrepareEffect(w, name, env);
      var ready := Prepare(w, name, env);
      SyncGroupEffect(cfg, ready.w, name, env);
      StatusOnly(ready.w.groups, out.w.groups, name);
      SyncGroupSettles(cfg, ready.w, name, env);
      DesiredSame(ready.w.groups, out.w.groups, ready.w.groups[name].groups, map[]);
    }
  }

  /** Reconcile is idempotent: after a success, with the same LDAP data, the next reconcile
      creates nothing and changes nothing but the status, whatever its calls return, unless
      a member without LDAP data bears the name of a synced ID; and with such a clash a
      reconcile without failures always changes some team again. */
  lemma ReconcileIsIdempotent(cfg: Config, w: World, name: string, env: Env, env': Env)
    requires name in w.groups && !w.groups[name].deleting
    requires NonEmptyIds(env) && Owners.Arranges(env.arrange)
    requires env'.ldap == env.ldap
    ensures
      var first := ReconcileGroup(cfg, w, name, env);
      var second := ReconcileGroup(cfg, first.w, name, env');
      first.r.Ok? ==>
        && GroupInSync(cfg, first.w, name, env.ldap)
        && var clashFree := ClashFree(first.w, name, env.ldap);
           && Quiet(first.w, second.w, name, clashFree)
           && (NoFaults(env') ==> (second.w.p.log == first.w.p.log <==> clashFree))
           && (NoFaults(env') && clashFree ==> second.r.Ok? && Status.IsReady(second.w.groups[name]))
  {
    var first := ReconcileGroup(cfg, w, name, env);
    if first.r.Ok? {
      SuccessIsStable(cfg, w, name, env);
      SyncedGroupIsQuiet(cfg, first.w, name, env');
    }
  }

  // ---------------------------------------------------------------- the per-backend report

  /** The types of the backends whose work in this loop was recorded as failed. */
  function FailedKinds(
    cfg: Config, p: Platform, groupName: string, users: seq<string>, backends: seq<Backend>, env: Env): set<string>
    decreases |backends|
  {
    if backends == [] then {}
    else
      var run := SyncBackend(cfg, p, groupName, users, backends[0], env);
      (if run.end.Recorded? then {backends[0].kind} else {})
        + FailedKinds(cfg, run.p, groupName, users, backends[1..], env)
  }

  /** The type, not the backend, is what failures are recorded under. */
  lemma {:induction false} ErrorsAreByKind(cfg: Config, p: Platform, groupName: string, users: seq<string>,
                                           backends: seq<Backend>, env: Env, errors: map<string, Failure>)
    requires SyncAll(cfg, p, groupName, users, backends, env, errors).end.Finished?
    ensures SyncAll(cfg, p, groupName, users, backends, env, errors).end.errors.Keys
         == errors.Keys + FailedKinds(cfg, p, groupName, users, backends, env)
    decreases |backends|
  {
    if backends != [] {
      var run := SyncBackend(cfg, p, groupName, users, backends[0], env);
      var errors' := if run.end.Recorded? then errors[backends[0].kind := run.end.failure] else errors;
      ErrorsAreByKind(cfg, run.p, groupName, users, backends[1..], env, errors');
    }
  }

  lemma {:induction false} FailedKindsAreListed(cfg: Config, p: Platform, groupName: string, users: seq<string>,
                                                backends: seq<Backend>, env: Env, kind: string)
    requires kind in FailedKinds(cfg, p, groupName, users, backends, env)
    ensures exists i :: 0 <= i < |backends| && backends[i].kind == kind
    decreases |backends|
  {
    var run := SyncBackend(cfg, p, groupName, users, backends[0], env);
    if !(run.end.Recorded? && backends[0].kind == kind) {
      FailedKindsAreListed(cfg, run.p, groupName, users, backends[1..], env, kind);
      var i :| 0 <= i < |backends[1..]| && backends[1..][i].kind == kind;
      assert backends[i + 1].kind == kind;
    }
  }

  /** The status of a finished loop: a backend is reported as failed exactly when some
      backend of its type failed; the group is Ready exactly when no backend is reported as
      failed, and only then does the applied generation move. */
  lemma ReportIsByKind(cfg: Config, p: Platform, cr: GroupCR, users: seq<string>, env: Env)
    requires SyncAll(cfg, p, cr.groupName, users, cr.backends, env, map[]).end.Finished?
    ensures
      var errors := SyncAll(cfg, p, cr.groupName, users, cr.backends, env, map[]).end.errors;
      var reported := Status.Report(cr, users, errors);
      var failed := FailedKinds(cfg, p, cr.groupName, users, cr.backends, env);
      && |reported.status.backends| == |cr.backends|
      && (forall i :: 0 <= i < |cr.backends| ==> (reported.status.backends[i].ok <==> cr.backends[i].kind !in failed))
      && (Status.IsReady(reported) <==> forall i :: 0 <= i < |cr.backends| ==> reported.status.backends[i].ok)
      && reported.status.lastAppliedGeneration
           == (if failed == {} then cr.generation else cr.status.lastAppliedGeneration)
  {
    var errors := SyncAll(cfg, p, cr.groupName, users, cr.backends, env, map[]).end.errors;
    var failed := FailedKinds(cfg, p, cr.groupName, users, cr.backends, env);
    ErrorsAreByKind(cfg, p, cr.groupName, users, cr.backends, env, map[]);
    assert errors.Keys == failed;
    var final := if errors == map[] then Status.SUCCEEDED else Status.FAILED;
    Status.SetThenRead(cr.status.conditions, final, Status.GROUP_READY);
    if errors != map[] {
      var kind :| kind in errors.Keys;
      FailedKindsAreListed(cfg, p, cr.groupName, users, cr.backends, env, kind);
    }
  }

  /** How the work for each backend ends. */
  function Ends(
    cfg: Config, p: Platform, groupName: string, users: seq<string>, backends: seq<Backend>, env: Env): (r: seq<End>)
    ensures |r| == |backends|
    decreases |backends|
  {
    if backends == [] then []
    else
      var run := SyncBackend(cfg, p, groupName, users, backends[0], env);
      [run.end] + Ends(cfg, run.p, groupName, users, backends[1..], env)
  }

  /** Some backend of this type did not end as synced. */
  ghost predicate SomeFailed(backends: seq<Backend>, ends: seq<End>, kind: string)
    requires |ends| == |backends|
  {
    exists i :: 0 <= i < |ends| && !ends[i].Synced? && backends[i].kind == kind
  }

  ghost predicate NoneAborted(ends: seq<End>) {
    forall i :: 0 <= i < |ends| ==> !ends[i].Aborted?
  }

  /** In a finished loop each backend was synced or recorded, and the failed types are those of
      the recorded ones. */
  lemma {:induction false} EndsExplainKinds(cfg: Config, p: Platform, groupName: string, users: seq<string>,
                                            backends: seq<Backend>, env: Env, errors: map<string, Failure>)
    requires SyncAll(cfg, p, groupName, users, backends, env, errors).end.Finished?
    ensures
      var ends := Ends(cfg, p, groupName, users, backends, env);
      && NoneAborted(ends)
      && (forall kind :: kind in FailedKinds(cfg, p, groupName, users, backends, env) <==>
            SomeFailed(backends, ends, kind))
    decreases |backends|
  {
    if backends != [] {
      var run := SyncBackend(cfg, p, groupName, users, backends[0], env);
      var errors' := if run.end.Recorded? then errors[backends[0].kind := run.end.failure] else errors;
      EndsExplainKinds(cfg, run.p, groupName, users, backends[1..], env, errors');
      var ends, rest := Ends(cfg, p, groupName, users, backends, env),
                        Ends(cfg, run.p, groupName, users, backends[1..], env);
      assert forall i :: 0 < i < |ends| ==> ends[i] == rest[i - 1];
      assert NoneAborted(rest) && !run.end.Aborted? && ends == [run.end] + rest;
      assert forall i :: 0 < i < |ends| ==> backends[i] == backends[1..][i - 1];
      forall kind
        ensures SomeFailed(backends, ends, kind) <==>
          (!ends[0].Synced? && backends[0].kind == kind) || SomeFailed(backends[1..], rest, kind)
      {
        if i :| 0 <= i < |rest| && !rest[i].Synced? && backends[1..][i].kind == kind {
          assert !ends[i + 1].Synced? && backends[i + 1].kind == kind;
        }
      }
    }
  }

  /** The report is right about every backend exactly when backends of one type end alike. */
  lemma ReportExactIfAlike(cfg: Config, p: Platform, cr: GroupCR, users: seq<string>, env: Env)
    requires SyncAll(cfg, p, cr.groupName, users, cr.backends, env, map[]).end.Finished?
    ensures
      var errors := SyncAll(cfg, p, cr.groupName, users, cr.backends, env, map[]).end.errors;
      var report := Status.Report(cr, users, errors).status.backends;
      var ends := Ends(cfg, p, cr.groupName, users, cr.backends, env);
      (forall i :: 0 <= i < |cr.backends| ==> (report[i].ok <==> ends[i].Synced?)) <==>
      (forall i, j :: 0 <= i < |cr.backends| && 0 <= j < |cr.backends| && cr.backends[i].kind == cr.backends[j].kind ==>
         (ends[i].Synced? <==> ends[j].Synced?))
  {
    ErrorsAreByKind(cfg, p, cr.groupName, users, cr.backends, env, map[]);
    EndsExplainKinds(cfg, p, cr.groupName, users, cr.backends, env, map[]);
    var errors := SyncAll(cfg, p, cr.groupName, users, cr.backends, env, map[]).end.errors;
    var report := Status.Report(cr, users, errors).status.backends;
    var ends := Ends(cfg, p, cr.groupName, users, cr.backends, env);
    assert forall i :: 0 <= i < |cr.backends| ==> (report[i].ok <==> cr.backends[i].kind !in errors);
    assert forall i :: 0 <= i < |cr.backends| && !report[i].ok ==> SomeFailed(cr.backends, ends, cr.backends[i].kind);
  }

  /** A healthy backend reported as failed: the first of two backends of one type is not
      configured; the second is in sync before and after, without any failure, and is reported
      as failed. */
  lemma HealthyReportedAsFailed(cfg: Config, p: Platform, cr: GroupCR, users: seq<string>, env: Env)
    requires |cr.backends| == 2 && cr.backends[0].kind == cr.backends[1].kind && !HasClient(cfg, cr.backends[0])
    requires Settled(cfg, p, cr.groupName, users, cr.backends[1], env.ldap) && NoFaults(env)
    ensures
      var loop := SyncAll(cfg, p, cr.groupName, users, cr.backends, env, map[]);
      && loop.end.Finished?
      && Settled(cfg, loop.p, cr.groupName, users, cr.backends[1], env.ldap)
      && !Status.Report(cr, users, loop.end.errors).status.backends[1].ok
  {
    SecondPass(cfg, p, cr.groupName, users, cr.backends[1], env);
    var errors: map<string, Failure> := map[][cr.backends[0].kind := InvalidBackend];
    var run := SyncBackend(cfg, p, cr.groupName, users, cr.backends[1], env);
    assert SyncAll(cfg, p, cr.groupName, users, cr.backends, env, map[])
      == SyncAll(cfg, p, cr.groupName, users, cr.backends[1..], env, errors)
      == SyncAll(cfg, run.p, cr.groupName, users, cr.backends[1..][1..], env, errors);
    assert Settled(cfg, Tick(p), cr.groupName, users, cr.backends[1], env.ldap);
  }
}
