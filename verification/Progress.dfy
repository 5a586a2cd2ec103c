/** Success: when no call fails, a reconcile of a complete spec goes through, from every
    world that a run can reach. */
module Progress {
  import opened Common
  import opened Naming
  import opened Backends
  import opened Sync
  import opened Expansion
  import opened Reconcile
  import opened Convergence
  import opened Deletion
  import Invariants
  import Runs
  import Owners
  import Status

  /** No cached value is undecodable. */
  ghost predicate Decodable(cache: Cache) {
    forall e :: e in cache ==> !cache[e].Garbled?
  }

  /** The backend is accepted, the name has a pattern, and a cached team is live. */
  ghost predicate Syncable(cfg: Config, p: Platform, groupName: string, b: Backend) {
    && HasClient(cfg, b)
    && Transform(cfg.patterns, b.kind, groupName).Ok?
    && (CachedTeam(cfg, p, groupName, b).id != "" ==> CachedTeam(cfg, p, groupName, b) in p.teams)
  }

  /** A team that has to be created now gets an ID that is new, or that of a team of its name. */
  ghost predicate CreationFits(cfg: Config, p: Platform, groupName: string, b: Backend, env: Env)
    requires Transform(cfg.patterns, b.kind, groupName).Ok?
  {
    var reply := env.reply(p.tick);
    CachedTeam(cfg, p, groupName, b).id == "" && reply.Done? && TeamRef(b, reply.id) in p.teams ==>
      p.teams[TeamRef(b, reply.id)].name == Transform(cfg.patterns, b.kind, groupName).value
  }

  /** Each creation of a team along the loop gets such an ID; replies to other calls do not count. */
  ghost predicate LoopFits(cfg: Config, p: Platform, groupName: string, users: seq<string>,
                           backends: seq<Backend>, env: Env)
    decreases |backends|
  {
    backends != [] && Transform(cfg.patterns, backends[0].kind, groupName).Ok? ==>
      && CreationFits(cfg, p, groupName, backends[0], env)
      && LoopFits(cfg, SyncBackend(cfg, p, groupName, users, backends[0], env).p, groupName, users, backends[1..], env)
  }

  lemma FetchOrCreateExact(cfg: Config, p: Platform, groupName: string, b: Backend, env: Env)
    requires NoFaults(env) && Decodable(p.cache) && Syncable(cfg, p, groupName, b)
    ensures
      var t := FetchOrCreateTeam(cfg, p, groupName, b, env);
      && (t.r.Ok? <==> CreationFits(cfg, p, groupName, b, env))
      && (t.r.Ok? ==> Decodable(t.p.cache) && TeamRef(b, t.r.value) in t.p.teams)
  {
    assert env.reply(p.tick).Done?;
  }

  lemma {:induction false} CreateUsersSucceeds(p: Platform, users: seq<string>, b: Backend, env: Env)
    requires NoFaults(env) && Decodable(p.cache)
    ensures CreateUsers(p, users, b, env).r.Ok? && Decodable(CreateUsers(p, users, b, env).p.cache)
    decreases |users|
  {
    if users != [] {
      if users[0] in env.ldap {
        assert env.reply(p.tick).Done?;
        CreateUsersSucceeds(EnsureUser(p, env.ldap[users[0]], b, env).p, users[1..], b, env);
      } else {
        CreateUsersSucceeds(p, users[1..], b, env);
      }
    }
  }

  lemma SyncMembersSucceeds(p: Platform, ref: TeamRef, users: seq<string>, env: Env)
    requires NoFaults(env) && ref in p.teams && AllCached(p.cache, users, ref.b, env.ldap)
    ensures SyncMembers(p, ref, users, env).end.Synced?
  {
    DiffExact(p.cache, users, p.teams[ref].members, ref.b, env.ldap);
  }

  lemma SyncBackendExact(cfg: Config, p: Platform, groupName: string, users: seq<string>, b: Backend, env: Env)
    requires NoFaults(env) && NonEmptyIds(env) && Decodable(p.cache) && Syncable(cfg, p, groupName, b)
    ensures
      var run := SyncBackend(cfg, p, groupName, users, b, env);
      && (run.end.Synced? <==> CreationFits(cfg, p, groupName, b, env))
      && (run.end.Synced? ==> Decodable(run.p.cache))
  {
    FetchOrCreateExact(cfg, p, groupName, b, env);
    var t := FetchOrCreateTeam(cfg, p, groupName, b, env);
    if t.r.Ok? {
      CreateUsersSucceeds(t.p, users, b, env);
      CreateUsersFrame(t.p, users, b, env);
      CreateUsersCachesAll(t.p, users, b, env);
      var u := CreateUsers(t.p, users, b, env);
      SyncMembersSucceeds(u.p, TeamRef(b, t.r.value), users, env);
      SyncMembersFrame(u.p, TeamRef(b, t.r.value), users, env);
    }
  }

  /** A backend that was synced is syncable again; the others are not touched. */
  lemma SyncableStays(
    cfg: Config, p: Platform, q: Platform, groupName: string, users: seq<string>, b: Backend, c: Backend, env: Env)
    requires OnlyFor(c, p, q) && Prepared(cfg, q, groupName, users, c, env.ldap) && Syncable(cfg, p, groupName, b)
    ensures Syncable(cfg, q, groupName, b)
  {
    if b != c {
      var name := Transform(cfg.patterns, b.kind, groupName).value;
      Invariants.SameKey(b, c);
      assert CachedId(q.cache, name, CacheKey(b)) == CachedId(p.cache, name, CacheKey(b));
    }
  }

  /** Without failures the loop over syncable backends succeeds exactly when all creations fit. */
  lemma {:induction false} LoopExact(cfg: Config, p: Platform, groupName: string, users: seq<string>,
                                     backends: seq<Backend>, env: Env)
    requires NoFaults(env) && NonEmptyIds(env) && Decodable(p.cache)
    requires forall b :: b in backends ==> Syncable(cfg, p, groupName, b)
    ensures SyncAll(cfg, p, groupName, users, backends, env, map[]).end == Finished(map[]) <==>
      LoopFits(cfg, p, groupName, users, backends, env)
    decreases |backends|
  {
    if backends != [] {
      var c := backends[0];
      assert c in backends;
      SyncBackendExact(cfg, p, groupName, users, c, env);
      if SyncAll(cfg, p, groupName, users, backends, env, map[]).end == Finished(map[]) {
        FirstSynced(cfg, p, groupName, users, backends, env);
      }
      var run := SyncBackend(cfg, p, groupName, users, c, env);
      if run.end.Synced? {
        SyncBackendFrame(cfg, p, groupName, users, c, env);
        SyncedEffect(cfg, p, groupName, users, c, env);
        forall b | b in backends[1..]
          ensures Syncable(cfg, run.p, groupName, b)
        {
          assert b in backends;
          SyncableStays(cfg, p, run.p, groupName, users, b, c, env);
        }
        LoopExact(cfg, run.p, groupName, users, backends[1..], env);
      }
    }
  }

  /** An ID that the backend may hand out is new, or that of a team of this name. */
  ghost predicate IdsFit(p: Platform, b: Backend, name: string, env: Env) {
    forall id :: TeamRef(b, id) in p.teams && (exists n :: env.reply(n) == Done(id)) ==>
      p.teams[TeamRef(b, id)].name == name
  }

  /** The team is cached, or whatever ID comes will fit. */
  ghost predicate WillFit(cfg: Config, p: Platform, groupName: string, b: Backend, env: Env) {
    Transform(cfg.patterns, b.kind, groupName).Ok? ==>
      || CachedTeam(cfg, p, groupName, b).id != ""
      || IdsFit(p, b, Transform(cfg.patterns, b.kind, groupName).value, env)
  }

  /** It is enough that no reply at all carries the ID of a team of another name. */
  lemma {:induction false} FittingIdsSuffice(cfg: Config, p: Platform, groupName: string, users: seq<string>,
                                             backends: seq<Backend>, env: Env)
    requires NoFaults(env) && NonEmptyIds(env) && Decodable(p.cache)
    requires forall b :: b in backends ==> Syncable(cfg, p, groupName, b) && WillFit(cfg, p, groupName, b, env)
    ensures LoopFits(cfg, p, groupName, users, backends, env)
    decreases |backends|
  {
    if backends != [] {
      var c := backends[0];
      assert c in backends && env.reply(p.tick) == Done(env.reply(p.tick).id);
      SyncBackendExact(cfg, p, groupName, users, c, env);
      var q := SyncBackend(cfg, p, groupName, users, c, env).p;
      SyncBackendFrame(cfg, p, groupName, users, c, env);
      SyncedEffect(cfg, p, groupName, users, c, env);
      forall b | b in backends[1..]
        ensures Syncable(cfg, q, groupName, b) && WillFit(cfg, q, groupName, b, env)
      {
        assert b in backends;
        SyncableStays(cfg, p, q, groupName, users, b, c, env);
        var name := Transform(cfg.patterns, b.kind, groupName).value;
        assert CachedId(p.cache, name, CacheKey(b)) != "" ==> CachedId(q.cache, name, CacheKey(b)) != "";
      }
      FittingIdsSuffice(cfg, q, groupName, users, backends[1..], env);
    }
  }

  /** The team IDs handed out in the reconcile of `name` fit. */
  ghost predicate GroupFits(cfg: Config, w: World, name: string, env: Env)
    requires name in w.groups && MembersOfGroup(w.groups, name).Ok?
  {
    var users := MembersOfGroup(w.groups, name).value;
    LoopFits(cfg, Prepare(w, name, env).w.p, w.groups[name].groupName, users, w.groups[name].backends,
             env.(ldap := Snapshot(users, env.ldap)))
  }

  /** A complete spec whose groups are all stored and whose backends are all syncable: a
      reconcile without failures returns no error exactly when the team IDs handed out fit, and
      then it marks the group Ready and leaves it in sync on every backend. */
  lemma ReconcileConverges(cfg: Config, w: World, name: string, env: Env)
    requires name in w.groups && !w.groups[name].deleting
    requires NoFaults(env) && NonEmptyIds(env) && Owners.Arranges(env.arrange)
    requires forall g :: g in w.groups[name].groups ==> g in w.groups
    requires forall g :: Reaches(w.groups, w.groups[name].groupName, g) ==> g in w.groups
    requires Decodable(w.p.cache)
    requires forall b :: b in w.groups[name].backends ==> Syncable(cfg, w.p, w.groups[name].groupName, b)
    ensures MembersOfGroup(w.groups, name).Ok?
    ensures
      var out := ReconcileGroup(cfg, w, name, env);
      && (out.r.Ok? <==> GroupFits(cfg, w, name, env))
      && (out.r.Ok? ==> GroupInSync(cfg, out.w, name, env.ldap) && Status.IsReady(out.w.groups[name]))
  {
    ExpansionIsReachability(w.groups, w.groups[name].groupName);
    PrepareSucceeds(w, name, env);
    PrepareEffect(w, name, env);
    var ready := Prepare(w, name, env);
    var cr := ready.w.groups[name];
    WalkSame(w.groups, ready.w.groups, cr.groupName, {});
    var users := MembersOfGroup(ready.w.groups, name).value;
    forall b | b in cr.backends
      ensures Syncable(cfg, ready.w.p, cr.groupName, b)
    {
      assert Syncable(cfg, w.p, cr.groupName, b);
    }
    LoopExact(cfg, ready.w.p, cr.groupName, users, cr.backends, env.(ldap := Snapshot(users, env.ldap)));
    SyncGroupEffect(cfg, ready.w, name, env);
    ReadyMeansInSync(cfg, w, name, env);
  }

  lemma PrepareSucceeds(w: World, name: string, env: Env)
    requires name in w.groups && NoFaults(env) && Owners.Arranges(env.arrange)
    requires forall g :: g in w.groups[name].groups ==> g in w.groups
    ensures Prepare(w, name, env).r.Ok?
  {
    var a := AddFinalizer(w, name, env);
    assert a.r.Ok?;
    AddFinalizerEffect(w, name, env);
    Owners.OwnersFollowSpec(a.w.groups, a.w.groups[name], env.arrange);
  }

  // ---------------------------------------------------------------- in every reachable world

  /** In a reachable world the cache decodes, and the cached teams of every CR are live. */
  lemma ReachableIsSyncable(
    cfg: Config, mail: string -> bool, w: World, steps: seq<Runs.Step>, name: string, b: Backend)
    requires Runs.Initial(cfg, mail, w) && Runs.ValidRun(cfg, mail, steps)
    requires
      var v := Runs.RunFrom(cfg, w, steps);
      && name in v.groups && b in v.groups[name].backends && HasClient(cfg, b)
      && Transform(cfg.patterns, b.kind, v.groups[name].groupName).Ok?
    ensures
      var v := Runs.RunFrom(cfg, w, steps);
      Decodable(v.p.cache) && Syncable(cfg, v.p, v.groups[name].groupName, b)
  {
    Runs.RunInvariant(cfg, mail, w, steps);
    var v := Runs.RunFrom(cfg, w, steps);
    var entry := Transform(cfg.patterns, b.kind, v.groups[name].groupName).value;
    assert Invariants.NamesApart(cfg, mail, v.groups[name]);
    assert !mail(entry);
    assert CachedId(v.p.cache, entry, CacheKey(b)) != "" ==>
      TeamRef(b, CachedId(v.p.cache, entry, CacheKey(b))) in v.p.teams;
  }

  /** From every reachable world, whatever was edited on the way: a reconcile of a complete
      spec on accepted backends without failures returns no error exactly when the team IDs
      handed out fit, and then ends Ready and in sync. */
  lemma EveryReachableWorldConverges(
    cfg: Config, mail: string -> bool, w: World, steps: seq<Runs.Step>, name: string, env: Env)
    requires Runs.Initial(cfg, mail, w) && Runs.ValidRun(cfg, mail, steps)
    requires NoFaults(env) && NonEmptyIds(env) && Owners.Arranges(env.arrange)
    requires
      var v := Runs.RunFrom(cfg, w, steps);
      && name in v.groups && !v.groups[name].deleting
      && (forall g :: g in v.groups[name].groups ==> g in v.groups)
      && (forall g :: Reaches(v.groups, v.groups[name].groupName, g) ==> g in v.groups)
      && (forall b :: b in v.groups[name].backends ==>
            HasClient(cfg, b) && Transform(cfg.patterns, b.kind, v.groups[name].groupName).Ok?)
    ensures MembersOfGroup(Runs.RunFrom(cfg, w, steps).groups, name).Ok?
    ensures
      var v := Runs.RunFrom(cfg, w, steps);
      var out := ReconcileGroup(cfg, v, name, env);
      && (out.r.Ok? <==> GroupFits(cfg, v, name, env))
      && (out.r.Ok? ==> GroupInSync(cfg, out.w, name, env.ldap) && Status.IsReady(out.w.groups[name]))
  {
    var v := Runs.RunFrom(cfg, w, steps);
    Runs.RunInvariant(cfg, mail, w, steps);
    forall b | b in v.groups[name].backends
      ensures Syncable(cfg, v.p, v.groups[name].groupName, b)
    {
      ReachableIsSyncable(cfg, mail, w, steps, name, b);
    }
    ReconcileConverges(cfg, v, name, env);
  }

  // ---------------------------------------------------------------- deletion

  /** A CR that is being deleted and has the finalizer loses it in a reconcile exactly when every
      listed backend has a client, a name for the group and a decodable value under it, and no call
      fails; only then is no error returned, and then no team ID of the CR is cached. So without
      failures, and in a decodable cache, one reconcile is enough exactly if all backends are
      accepted and the name transforms for each. */
  lemma FinalizationConverges(cfg: Config, w: World, name: string, env: Env)
    requires name in w.groups && w.groups[name].deleting && w.groups[name].finalizer
    ensures
      var cr := w.groups[name];
      var out := ReconcileGroup(cfg, w, name, env);
      && name in out.w.groups && w.p.tick <= out.w.p.tick
      && (out.r.Ok? <==>
            AllDeletable(cfg, w.p.cache, cr.groupName, cr.backends) && AllDone(env, w.p.tick, out.w.p.tick))
      && (!out.w.groups[name].finalizer <==> out.r.Ok?)
      && (out.r.Ok? ==> Cleared(cfg, out.w.p.cache, cr.groupName, cr.backends))
      && (NoFaults(env) && Decodable(w.p.cache) ==>
            (out.r.Ok? <==> forall b :: b in cr.backends ==>
               HasClient(cfg, b) && Transform(cfg.patterns, b.kind, cr.groupName).Ok?))
  {
    var cr := w.groups[name];
    var d := DeleteTeams(cfg, w.p, cr.groupName, cr.backends, env);
    DeletionSucceedsExactly(cfg, w.p, cr.groupName, cr.backends, env);
    if d.r.Ok? {
      var out := ReconcileGroup(cfg, w, name, env);
      assert out.w.p.tick == d.p.tick + 1;
      assert AllDone(env, w.p.tick, out.w.p.tick) <==> env.reply(d.p.tick).Done?;
    }
    if NoFaults(env) && Decodable(w.p.cache) {
      forall b | b in cr.backends
        ensures Deletable(cfg, w.p.cache, cr.groupName, b) <==>
          HasClient(cfg, b) && Transform(cfg.patterns, b.kind, cr.groupName).Ok?
      {
      }
      assert AllDone(env, w.p.tick, ReconcileGroup(cfg, w, name, env).w.p.tick);
    }
  }
}
