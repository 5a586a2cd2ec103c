/** What can go wrong: inside every reconcile of every run, no cached value is met that is
    empty, undecodable or lacks an ID, so all failures come from outside. */
module Failures {
  import opened Common
  import opened Naming
  import opened Backends
  import opened Sync
  import opened Expansion
  import opened Reconcile
  import opened Invariants
  import Owners
  import Runs
  import Status

  /** The configuration or a backend is to blame, not the cache. */
  predicate External(f: Failure) {
    f.InvalidBackend? || f.InvalidPattern? || f.NoPattern? || f.BackendFault?
  }

  /** How a whole reconcile may fail. */
  predicate Explained(f: Failure) {
    External(f) || f.MissingGroup? || f.ApiFault? || f.BackendsFailed?
  }

  // ---------------------------------------------------------------- one backend

  lemma {:induction false} FirstMatchFails(patterns: seq<Pattern>, name: string)
    ensures FirstMatch(patterns, name).Err? ==> External(FirstMatch(patterns, name).failure)
  {
    if patterns != [] {
      FirstMatchFails(patterns[1..], name);
    }
  }

  lemma TransformFails(patterns: map<string, seq<Pattern>>, kind: string, name: string)
    ensures Transform(patterns, kind, name).Err? ==> External(Transform(patterns, kind, name).failure)
  {
    FirstMatchFails(if kind in patterns then patterns[kind]
                    else if "default" in patterns then patterns["default"] else [], name);
  }

  lemma FetchOrCreateIsClean(p: Platform, name: string, b: Backend, env: Env)
    requires WellFormed(p.cache) && NonEmptyIds(env)
    ensures
      var t := FetchOrCreate(p, name, b, env);
      WellFormed(t.p.cache) && (t.r.Err? ==> t.r.failure == BackendFault)
  {
    var ids := ReadIds(p.cache, name).value;
    if env.reply(p.tick).Done? {
      WriteKeepsWellFormed(p.cache, name, ids, CacheKey(b), env.reply(p.tick).id);
    }
  }

  lemma EnsureUserIsClean(p: Platform, email: string, b: Backend, env: Env)
    requires WellFormed(p.cache) && NonEmptyIds(env)
    ensures
      var u := EnsureUser(p, email, b, env);
      WellFormed(u.p.cache) && (u.r.Err? ==> u.r.failure == BackendFault)
  {
    var ids := ReadIds(p.cache, email).value;
    if env.reply(p.tick).Done? {
      WriteKeepsWellFormed(p.cache, email, ids, CacheKey(b), env.reply(p.tick).id);
    }
  }

  lemma {:induction false} CreateUsersIsClean(p: Platform, users: seq<string>, b: Backend, env: Env)
    requires WellFormed(p.cache) && NonEmptyIds(env)
    ensures
      var u := CreateUsers(p, users, b, env);
      WellFormed(u.p.cache) && (u.r.Err? ==> u.r.failure == BackendFault)
    decreases |users|
  {
    if users == [] {
    } else if users[0] !in env.ldap {
      CreateUsersIsClean(p, users[1..], b, env);
    } else {
      EnsureUserIsClean(p, env.ldap[users[0]], b, env);
      var step := EnsureUser(p, env.ldap[users[0]], b, env);
      if step.r.Ok? { CreateUsersIsClean(step.p, users[1..], b, env); }
    }
  }

  lemma SyncMembersIsClean(p: Platform, ref: TeamRef, users: seq<string>, env: Env)
    requires AllCached(p.cache, users, ref.b, env.ldap)
    ensures
      var end := SyncMembers(p, ref, users, env).end;
      end.Synced? || end.failure == BackendFault
  {
    DiffExact(p.cache, users, MembersOf(p, ref), ref.b, env.ldap);
  }

  /** The work for one backend from a well-formed cache: it ends with one, it fails only for
      external reasons, and once the users are created `processUsers` finds an ID for every user
      with LDAP data, so its silent return on an empty value is not taken. */
  lemma SyncBackendIsClean(cfg: Config, p: Platform, groupName: string, users: seq<string>, b: Backend, env: Env)
    requires WellFormed(p.cache) && NonEmptyIds(env)
    ensures
      var run := SyncBackend(cfg, p, groupName, users, b, env);
      && WellFormed(run.p.cache)
      && (run.end.Recorded? ==> External(run.end.failure))
      && (run.end.Aborted? ==> run.end.failure == BackendFault)
    ensures
      var t := FetchOrCreateTeam(cfg, p, groupName, b, env);
      var u := CreateUsers(t.p, users, b, env);
      t.r.Ok? && u.r.Ok? ==>
        IdsToSync(u.p.cache, users, b, env.ldap, []).Ok? && IdsToSync(u.p.cache, users, b, env.ldap, []).value.Some?
  {
    TransformFails(cfg.patterns, b.kind, groupName);
    var name := Transform(cfg.patterns, b.kind, groupName);
    if name.Ok? {
      FetchOrCreateIsClean(p, name.value, b, env);
      var t := FetchOrCreate(p, name.value, b, env);
      CreateUsersIsClean(t.p, users, b, env);
      var u := CreateUsers(t.p, users, b, env);
      if t.r.Ok? && u.r.Ok? {
        ProcessingCannotFail(t.p, users, {}, b, env);
        CreateUsersCachesAll(t.p, users, b, env);
        SyncMembersIsClean(u.p, TeamRef(b, t.r.value), users, env);
        SyncMembersFrame(u.p, TeamRef(b, t.r.value), users, env);
      }
    }
  }

  // ---------------------------------------------------------------- loops

  ghost predicate AllExternal(errors: map<string, Failure>) {
    forall kind :: kind in errors ==> External(errors[kind])
  }

  lemma {:induction false} SyncAllIsClean(cfg: Config, p: Platform, groupName: string, users: seq<string>,
                                          backends: seq<Backend>, env: Env, errors: map<string, Failure>)
    requires WellFormed(p.cache) && NonEmptyIds(env) && AllExternal(errors)
    ensures
      var loop := SyncAll(cfg, p, groupName, users, backends, env, errors);
      && WellFormed(loop.p.cache)
      && (loop.end.Finished? ==> AllExternal(loop.end.errors))
      && (loop.end.Stopped? ==> loop.end.failure == BackendFault)
    decreases |backends|
  {
    if backends != [] {
      SyncBackendIsClean(cfg, p, groupName, users, backends[0], env);
      var run := SyncBackend(cfg, p, groupName, users, backends[0], env);
      var errors' := if run.end.Recorded? then errors[backends[0].kind := run.end.failure] else errors;
      SyncAllIsClean(cfg, run.p, groupName, users, backends[1..], env, errors');
    }
  }

  lemma {:induction false} DeleteTeamsIsClean(
    cfg: Config, p: Platform, groupName: string, backends: seq<Backend>, env: Env)
    requires WellFormed(p.cache)
    ensures
      var d := DeleteTeams(cfg, p, groupName, backends, env);
      WellFormed(d.p.cache) && (d.r.Err? ==> External(d.r.failure))
    decreases |backends|
  {
    if backends != [] {
      var b := backends[0];
      TransformFails(cfg.patterns, b.kind, groupName);
      var name := Transform(cfg.patterns, b.kind, groupName);
      if name.Ok? && HasClient(cfg, b) {
        var step := DeleteCached(p, name.value, b, env);
        if name.value in p.cache { DropKeepsWellFormed(p.cache, name.value, p.cache[name.value].ids, CacheKey(b)); }
        assert step.r.Err? ==> step.r.failure == BackendFault;
        if step.r.Ok? { DeleteTeamsIsClean(cfg, step.p, groupName, backends[1..], env); }
      }
    }
  }

  // ---------------------------------------------------------------- a whole reconcile

  /** Every failure in a per-backend report is external. */
  ghost predicate CleanReport(report: seq<BackendStatus>) {
    forall i :: 0 <= i < |report| && report[i].failure.Some? ==> External(report[i].failure.value)
  }

  lemma {:induction false} ReportIsClean(backends: seq<Backend>, errors: map<string, Failure>)
    requires AllExternal(errors)
    ensures CleanReport(Status.BackendReport(backends, errors))
  {
    if backends != [] {
      ReportIsClean(backends[1..], errors);
      var kind := backends[0].kind;
      var first := BackendStatus(backends[0], kind !in errors, if kind in errors then Some(errors[kind]) else None);
      var rest := Status.BackendReport(backends[1..], errors);
      assert Status.BackendReport(backends, errors) == [first] + rest;
      assert CleanReport([first] + rest);
    }
  }

  lemma {:induction false} DesiredFails(g: Groups, names: seq<string>, refs: map<string, OwnerRef>)
    ensures Owners.Desired(g, names, refs).Err? ==> Owners.Desired(g, names, refs).failure.MissingGroup?
  {
    if names != [] && names[0] in g {
      DesiredFails(g, names[1..], refs[g[names[0]].uid := Owners.RefTo(g, names[0])]);
    }
  }

  lemma PrepareIsClean(w: World, n: string, env: Env)
    requires n in w.groups
    ensures
      var ready := Prepare(w, n, env);
      && ready.w.p.cache == w.p.cache
      && ready.w.groups[n].status.backends == w.groups[n].status.backends
      && (ready.r.Err? ==> Explained(ready.r.failure))
  {
    var a := AddFinalizer(w, n, env);
    DesiredFails(a.w.groups, a.w.groups[n].groups, map[]);
    var o := SetOwners(a.w, n, env);
    assert o.r.Err? ==> Explained(o.r.failure);
  }

  lemma MembersFail(g: Groups, n: string)
    requires n in g
    ensures MembersOfGroup(g, n).Err? ==> MembersOfGroup(g, n).failure.MissingGroup?
  {
    ReachesItself(g, g[n].groupName);
    WalkSound(g, g[n].groupName, g[n].groupName, {});
  }

  lemma SyncGroupIsClean(cfg: Config, w: World, n: string, env: Env)
    requires WellFormed(w.p.cache) && NonEmptyIds(env) && n in w.groups
    ensures
      var out := SyncGroup(cfg, w, n, env);
      && WellFormed(out.w.p.cache) && n in out.w.groups
      && (CleanReport(out.w.groups[n].status.backends) || out.w.groups[n].status == w.groups[n].status)
      && (out.r.Err? ==> Explained(out.r.failure))
  {
    MembersFail(w.groups, n);
    var users := MembersOfGroup(w.groups, n);
    if users.Ok? {
      var cr := w.groups[n];
      SyncAllIsClean(cfg, w.p, cr.groupName, users.value, cr.backends,
                     env.(ldap := Snapshot(users.value, env.ldap)), map[]);
      var loop := GroupLoop(cfg, w, n, users.value, env);
      if loop.end.Finished? { ReportIsClean(cr.backends, loop.end.errors); }
    }
  }

  /** Neither the failure of the reconcile nor any in a report it writes is a decode error, a
      cache miss or a missing ID. */
  ghost predicate Clean(w: World, out: Reconciled, n: string) {
    && WellFormed(out.w.p.cache)
    && (out.r.Err? ==> Explained(out.r.failure))
    && (n in w.groups ==>
          && n in out.w.groups
          && (CleanReport(out.w.groups[n].status.backends) ||
              out.w.groups[n].status.backends == w.groups[n].status.backends))
  }

  lemma ReconcileIsClean(cfg: Config, w: World, n: string, env: Env)
    requires WellFormed(w.p.cache) && NonEmptyIds(env)
    ensures Clean(w, ReconcileGroup(cfg, w, n, env), n)
  {
    if n in w.groups {
      if w.groups[n].deleting {
        DeleteTeamsIsClean(cfg, w.p, w.groups[n].groupName, w.groups[n].backends, env);
      } else {
        PrepareIsClean(w, n, env);
        var ready := Prepare(w, n, env);
        if ready.r.Ok? { SyncGroupIsClean(cfg, ready.w, n, env); }
      }
    }
  }

  // ---------------------------------------------------------------- every reconcile of every run

  /** In every valid run, every reconcile, whatever was edited before and whatever its calls
      return, meets only values it can use: inside each of its backends, and in the deletion of
      teams, no failure comes from the cache. */
  lemma EveryReconcileIsClean(cfg: Config, mail: string -> bool, w: World, steps: seq<Runs.Step>, k: nat)
    requires Runs.Initial(cfg, mail, w) && Runs.ValidRun(cfg, mail, steps) && k < |steps| && steps[k].Run?
    ensures
      var v := Runs.RunFrom(cfg, w, steps[..k]);
      Clean(v, ReconcileGroup(cfg, v, steps[k].name, steps[k].env), steps[k].name)
  {
    var v := Runs.RunFrom(cfg, w, steps[..k]);
    Runs.RunInvariant(cfg, mail, w, steps[..k]);
    assert Runs.ValidStep(cfg, mail, steps[k]);
    ReconcileIsClean(cfg, v, steps[k].name, steps[k].env);
  }
}
