/** `Reconcile` and `deleteBackendsTeam` over the stored Group CRs and the platforms. */
module Reconcile {
  import opened Common
  import opened Naming
  import opened Backends
  import opened Sync
  import opened Expansion
  import Owners
  import Status

  // ---------------------------------------------------------------- the backend loop

  datatype LoopEnd = Finished(errors: map<string, Failure>) | Stopped(failure: Failure)

  datatype LoopRun = LoopRun(p: Platform, end: LoopEnd)

  /** The loop over the backends of the spec; failures are recorded under the type. */
  function SyncAll(cfg: Config, p: Platform, groupName: string, users: seq<string>, backends: seq<Backend>,
                   env: Env, errors: map<string, Failure>): LoopRun
    decreases |backends|
  {
    if backends == [] then LoopRun(p, Finished(errors))
    else
      var run := SyncBackend(cfg, p, groupName, users, backends[0], env);
      match run.end
      case Aborted(f) => LoopRun(run.p, Stopped(f))
      case Recorded(f) => SyncAll(cfg, run.p, groupName, users, backends[1..], env, errors[backends[0].kind := f])
      case Synced => SyncAll(cfg, run.p, groupName, users, backends[1..], env, errors)
  }

  // ---------------------------------------------------------------- deletion

  /** One backend of `deleteBackendsTeam`: delete the team whose ID is cached, then
      drop the ID, and with the last ID the whole entry. */
  function DeleteCached(p: Platform, name: string, b: Backend, env: Env): After<()> {
    match ReadIds(p.cache, name)
    case Err(f) => After(p, Err(f))
    case Ok(ids) =>
      var id := IdAt(ids, CacheKey(b));
      if id == "" then After(p, Ok(()))
      else
        match DeleteTeam(p, b, name, id, env)
        case After(p1, Err(f)) => After(p1, Err(f))
        case After(p1, Ok(_)) => After(p1.(cache := DropId(p.cache, name, ids, CacheKey(b))), Ok(()))
  }

  function DropId(cache: Cache, entry: string, ids: map<string, string>, key: string): Cache {
    if ids - {key} == map[] then cache - {entry} else cache[entry := Ids(ids - {key})]
  }

  /** `deleteBackendsTeam`: the first failure stops it. */
  function DeleteTeams(cfg: Config, p: Platform, groupName: string, backends: seq<Backend>, env: Env): After<()>
    decreases |backends|
  {
    if backends == [] then After(p, Ok(()))
    else
      var b := backends[0];
      match Transform(cfg.patterns, b.kind, groupName)
      case Err(f) => After(p, Err(f))
      case Ok(name) =>
        if !HasClient(cfg, b) then After(p, Err(InvalidBackend))
        else
          match DeleteCached(p, name, b, env)
          case After(p1, Err(f)) => After(p1, Err(f))
          case After(p1, Ok(_)) => DeleteTeams(cfg, p1, groupName, backends[1..], env)
  }

  // ---------------------------------------------------------------- Reconcile

  datatype World = World(groups: Groups, p: Platform)

  datatype Reconciled = Reconciled(w: World, r: Result<()>)

  /** An update of one CR through the API server. */
  function Put(w: World, name: string, cr: GroupCR, env: Env): Reconciled {
    if env.reply(w.p.tick).Fault? then Reconciled(w.(p := Tick(w.p)), Err(ApiFault))
    else Reconciled(World(w.groups[name := cr], Tick(w.p)), Ok(()))
  }

  /** A CR with a deletion timestamp. */
  function Finalize(cfg: Config, w: World, name: string, env: Env): Reconciled
    requires name in w.groups
  {
    var cr := w.groups[name];
    if !cr.finalizer then Reconciled(w, Ok(()))
    else
      match DeleteTeams(cfg, w.p, cr.groupName, cr.backends, env)
      case After(p1, Err(f)) => Reconciled(w.(p := p1), Err(f))
      case After(p1, Ok(_)) => Put(w.(p := p1), name, cr.(finalizer := false), env)
  }

  function AddFinalizer(w: World, name: string, env: Env): Reconciled
    requires name in w.groups
  {
    if w.groups[name].finalizer then Reconciled(w, Ok(()))
    else Put(w, name, w.groups[name].(finalizer := true), env)
  }

  function SetOwners(w: World, name: string, env: Env): Reconciled
    requires name in w.groups
  {
    match Owners.NewOwners(w.groups, w.groups[name], env.arrange)
    case Err(f) => Reconciled(w, Err(f))
    case Ok(None) => Reconciled(w, Ok(()))
    case Ok(Some(refs)) => Put(w, name, w.groups[name].(owners := refs), env)
  }

  function SetWaiting(w: World, name: string, env: Env): Reconciled
    requires name in w.groups
  {
    Put(w, name, Status.Waiting(w.groups[name]), env)
  }

  /** The steps before the members are expanded; each failure ends the reconcile. */
  function Prepare(w: World, name: string, env: Env): (r: Reconciled)
    requires name in w.groups
    ensures name in r.w.groups
  {
    var a := AddFinalizer(w, name, env);
    if a.r.Err? then a
    else
      var o := SetOwners(a.w, name, env);
      if o.r.Err? then o else SetWaiting(o.w, name, env)
  }

  /** The LDAP data gathered for the members of the group. */
  function Snapshot(users: seq<string>, ldap: map<string, string>): map<string, string> {
    map u | u in users && u in ldap :: ldap[u]
  }

  /** The members a reconcile of `name` works with. The walk starts at the CR that bears
      the group name of the spec. */
  function MembersOfGroup(g: Groups, name: string): Result<seq<string>>
    requires name in g
  {
    match Walk(g, g[name].groupName, {})
    case Err(f) => Err(f)
    case Ok(members) => Ok(DedupFrom(members, {}))
  }

  /** The backend loop of a reconcile of `name`. */
  function GroupLoop(cfg: Config, w: World, name: string, users: seq<string>, env: Env): LoopRun
    requires name in w.groups
  {
    SyncAll(cfg, w.p, w.groups[name].groupName, users, w.groups[name].backends,
            env.(ldap := Snapshot(users, env.ldap)), map[])
  }

  /** The final status; a failed write is only logged. */
  function Finish(w: World, name: string, users: seq<string>, errors: map<string, Failure>, env: Env): Reconciled
    requires name in w.groups
  {
    Reconciled(Put(w, name, Status.Report(w.groups[name], users, errors), env).w,
               if errors == map[] then Ok(()) else Err(BackendsFailed))
  }

  /** Expansion, synchronisation of all backends, and the final status. */
  function SyncGroup(cfg: Config, w: World, name: string, env: Env): Reconciled
    requires name in w.groups
  {
    match MembersOfGroup(w.groups, name)
    case Err(f) => Reconciled(w, Err(f))
    case Ok(users) =>
      var loop := GroupLoop(cfg, w, name, users, env);
      match loop.end
      case Stopped(f) => Reconciled(w.(p := loop.p), Err(f))
      case Finished(errors) => Finish(w.(p := loop.p), name, users, errors, env)
  }

  /** `Reconcile` for the CR `name`. */
  function ReconcileGroup(cfg: Config, w: World, name: string, env: Env): Reconciled {
    if name !in w.groups then Reconciled(w, Ok(()))
    else if w.groups[name].deleting then Finalize(cfg, w, name, env)
    else
      var ready := Prepare(w, name, env);
      if ready.r.Err? then ready else SyncGroup(cfg, ready.w, name, env)
  }

  // ---------------------------------------------------------------- every backend ends in sync

  /** Nothing that is prepared comes undone while another backend, or the same one, is
      worked on. */
  lemma PreparedPersists(cfg: Config, p: Platform, q: Platform, groupName: string, users: seq<string>,
                         b: Backend, c: Backend, ldap: map<string, string>)
    requires OnlyFor(c, p, q) && Prepared(cfg, p, groupName, users, b, ldap)
    ensures Prepared(cfg, q, groupName, users, b, ldap)
    ensures SyncedIds(q.cache, users, b, ldap) == SyncedIds(p.cache, users, b, ldap)
    ensures CachedTeam(cfg, q, groupName, b) == CachedTeam(cfg, p, groupName, b)
  {
    var key := CacheKey(b);
    var name := Transform(cfg.patterns, b.kind, groupName).value;
    assert CachedId(q.cache, name, key) == CachedId(p.cache, name, key);
    assert forall u :: u in users && u in ldap ==>
      CachedId(p.cache, ldap[u], key) != "" && CachedId(q.cache, ldap[u], key) == CachedId(p.cache, ldap[u], key);
  }

  /** In sync and free of clashes: both are kept by the work for any backend, however it ends. */
  ghost predicate Settled(
    cfg: Config, p: Platform, groupName: string, users: seq<string>, b: Backend, ldap: map<string, string>)
  {
    InSync(cfg, p, groupName, users, b, ldap) && NoClash(p, users, b, ldap)
  }

  lemma SettledPersists(
    cfg: Config, p: Platform, groupName: string, users: seq<string>, b: Backend, c: Backend, env: Env)
    requires Settled(cfg, p, groupName, users, b, env.ldap)
    ensures Settled(cfg, SyncBackend(cfg, p, groupName, users, c, env).p, groupName, users, b, env.ldap)
  {
    var q := SyncBackend(cfg, p, groupName, users, c, env).p;
    SyncBackendFrame(cfg, p, groupName, users, c, env);
    PreparedPersists(cfg, p, q, groupName, users, b, c, env.ldap);
    if c == b {
      SecondPass(cfg, p, groupName, users, b, env);
    } else {
      var ref := CachedTeam(cfg, q, groupName, b);
      assert ref in q.teams && q.teams[ref] == p.teams[ref];
    }
  }

  lemma SyncedIsPrepared(cfg: Config, p: Platform, groupName: string, users: seq<string>, b: Backend, env: Env)
    requires NonEmptyIds(env) && SyncBackend(cfg, p, groupName, users, b, env).end.Synced?
    ensures
      var q := SyncBackend(cfg, p, groupName, users, b, env).p;
      && Prepared(cfg, q, groupName, users, b, env.ldap)
      && (NoClash(q, users, b, env.ldap) ==> Settled(cfg, q, groupName, users, b, env.ldap))
  {
    SyncedEffect(cfg, p, groupName, users, b, env);
    var q := SyncBackend(cfg, p, groupName, users, b, env).p;
    var ref := CachedTeam(cfg, q, groupName, b);
    var ids := SyncedIds(q.cache, users, b, env.ldap);
    if NoClash(q, users, b, env.ldap) {
      DisjointDifference(ids, Unlisted(users, env.ldap) * MembersOf(p, ref));
      assert (Unlisted(users, env.ldap) * MembersOf(p, ref)) * ids == {};
    }
  }

  /** The whole loop, however it ends, seen from one backend `b` that is already settled or
      prepared. */
  lemma {:induction false} LoopKeeps(cfg: Config, p: Platform, groupName: string, users: seq<string>,
                                     backends: seq<Backend>, env: Env, errors: map<string, Failure>, b: Backend)
    requires Prepared(cfg, p, groupName, users, b, env.ldap)
    ensures
      var q := SyncAll(cfg, p, groupName, users, backends, env, errors).p;
      && Prepared(cfg, q, groupName, users, b, env.ldap)
      && SyncedIds(q.cache, users, b, env.ldap) == SyncedIds(p.cache, users, b, env.ldap)
      && (Settled(cfg, p, groupName, users, b, env.ldap) ==> Settled(cfg, q, groupName, users, b, env.ldap))
    decreases |backends|
  {
    if backends != [] {
      var c := backends[0];
      var run := SyncBackend(cfg, p, groupName, users, c, env);
      SyncBackendFrame(cfg, p, groupName, users, c, env);
      PreparedPersists(cfg, p, run.p, groupName, users, b, c, env.ldap);
      if Settled(cfg, p, groupName, users, b, env.ldap) {
        SettledPersists(cfg, p, groupName, users, b, c, env);
      }
      var errors' := if run.end.Recorded? then errors[c.kind := run.end.failure] else errors;
      LoopKeeps(cfg, run.p, groupName, users, backends[1..], env, errors', b);
    }
  }

  /** A recorded failure is never forgotten. */
  lemma {:induction false} ErrorsStay(cfg: Config, p: Platform, groupName: string, users: seq<string>,
                                      backends: seq<Backend>, env: Env, errors: map<string, Failure>)
    ensures
      var end := SyncAll(cfg, p, groupName, users, backends, env, errors).end;
      end.Finished? ==> errors.Keys <= end.errors.Keys
    decreases |backends|
  {
    if backends != [] {
      var run := SyncBackend(cfg, p, groupName, users, backends[0], env);
      match run.end
      case Aborted(_) =>
      case Recorded(f) => ErrorsStay(cfg, run.p, groupName, users, backends[1..], env, errors[backends[0].kind := f]);
      case Synced => ErrorsStay(cfg, run.p, groupName, users, backends[1..], env, errors);
    }
  }

  /** An error-free loop began with an error-free backend. */
  lemma FirstSynced(cfg: Config, p: Platform, groupName: string, users: seq<string>, backends: seq<Backend>, env: Env)
    requires backends != [] && SyncAll(cfg, p, groupName, users, backends, env, map[]).end == Finished(map[])
    ensures
      var run := SyncBackend(cfg, p, groupName, users, backends[0], env);
      && run.end.Synced?
      && SyncAll(cfg, p, groupName, users, backends, env, map[])
           == SyncAll(cfg, run.p, groupName, users, backends[1..], env, map[])
  {
    var run := SyncBackend(cfg, p, groupName, users, backends[0], env);
    if run.end.Recorded? {
      var errors: map<string, Failure> := map[][backends[0].kind := run.end.failure];
      ErrorsStay(cfg, run.p, groupName, users, backends[1..], env, errors);
      assert backends[0].kind in errors.Keys;
    }
  }

  /** A loop without errors leaves every backend prepared, and in sync unless a name
      clashes with an ID there. */
  lemma {:induction false} AllBackendsSettle(cfg: Config, p: Platform, groupName: string, users: seq<string>,
                                       backends: seq<Backend>, env: Env)
    requires NonEmptyIds(env) && SyncAll(cfg, p, groupName, users, backends, env, map[]).end == Finished(map[])
    ensures
      var q := SyncAll(cfg, p, groupName, users, backends, env, map[]).p;
      forall b :: b in backends ==>
        && Prepared(cfg, q, groupName, users, b, env.ldap)
        && (NoClash(q, users, b, env.ldap) ==> InSync(cfg, q, groupName, users, b, env.ldap))
    decreases |backends|
  {
    if backends != [] {
      var q := SyncAll(cfg, p, groupName, users, backends, env, map[]).p;
      FirstSynced(cfg, p, groupName, users, backends, env);
      var c := backends[0];
      var run := SyncBackend(cfg, p, groupName, users, c, env);
      SyncedIsPrepared(cfg, p, groupName, users, c, env);
      LoopKeeps(cfg, run.p, groupName, users, backends[1..], env, map[], c);
      AllBackendsSettle(cfg, run.p, groupName, users, backends[1..], env);
      assert forall b :: b in backends ==> b == c || b in backends[1..];
    }
  }

  // ---------------------------------------------------------------- a quiet loop

  /** Only the call counter differs. */
  ghost predicate Unchanged(p: Platform, q: Platform) {
    q == p.(tick := q.tick)
  }

  /** Every backend is settled: the loop changes nothing, whatever fails. */
  lemma {:induction false} LoopIsQuiet(cfg: Config, p: Platform, groupName: string, users: seq<string>,
                                       backends: seq<Backend>, env: Env, errors: map<string, Failure>)
    requires forall b :: b in backends ==> Settled(cfg, p, groupName, users, b, env.ldap)
    ensures
      var run := SyncAll(cfg, p, groupName, users, backends, env, errors);
      && Unchanged(p, run.p)
      && run.end.Finished?
      && (NoFaults(env) ==> run.end == Finished(errors))
    decreases |backends|
  {
    if backends != [] {
      assert Settled(cfg, p, groupName, users, backends[0], env.ldap);
      SecondPass(cfg, p, groupName, users, backends[0], env);
      var run := SyncBackend(cfg, p, groupName, users, backends[0], env);
      assert run.p == Tick(p);
      forall b | b in backends[1..]
        ensures Settled(cfg, run.p, groupName, users, b, env.ldap)
      {
        assert Settled(cfg, p, groupName, users, b, env.ldap);
      }
      var errors' := if run.end.Synced? then errors else errors[backends[0].kind := BackendFault];
      LoopIsQuiet(cfg, run.p, groupName, users, backends[1..], env, errors');
    }
  }

  ghost predicate NoFaults(env: Env) {
    forall n :: env.reply(n).Done?
  }

  lemma {:induction false} LogGrows(cfg: Config, p: Platform, groupName: string, users: seq<string>,
                                    backends: seq<Backend>, env: Env, errors: map<string, Failure>)
    ensures p.log <= SyncAll(cfg, p, groupName, users, backends, env, errors).p.log
    decreases |backends|
  {
    if backends != [] {
      SyncBackendFrame(cfg, p, groupName, users, backends[0], env);
      var run := SyncBackend(cfg, p, groupName, users, backends[0], env);
      match run.end
      case Aborted(_) =>
      case Recorded(f) => LogGrows(cfg, run.p, groupName, users, backends[1..], env, errors[backends[0].kind := f]);
      case Synced => LogGrows(cfg, run.p, groupName, users, backends[1..], env, errors);
    }
  }

  /** Conversely, a failure-free loop over prepared backends that made no change found
      every one of them settled. */
  lemma {:induction false} QuietMeansSettled(cfg: Config, p: Platform, groupName: string, users: seq<string>,
                                             backends: seq<Backend>, env: Env, errors: map<string, Failure>)
    requires NoFaults(env)
    requires forall b :: b in backends ==> Prepared(cfg, p, groupName, users, b, env.ldap)
    requires SyncAll(cfg, p, groupName, users, backends, env, errors).p.log == p.log
    ensures forall b :: b in backends ==> Settled(cfg, p, groupName, users, b, env.ldap)
    decreases |backends|
  {
    if backends != [] {
      var c := backends[0];
      var run := SyncBackend(cfg, p, groupName, users, c, env);
      SyncBackendFrame(cfg, p, groupName, users, c, env);
      if run.end.Synced? { LogGrows(cfg, run.p, groupName, users, backends[1..], env, errors); }
      if run.end.Recorded? {
        LogGrows(cfg, run.p, groupName, users, backends[1..], env, errors[c.kind := run.end.failure]);
      }
      assert run.p.log == p.log;
      SecondPass(cfg, p, groupName, users, c, env);
      assert Settled(cfg, p, groupName, users, c, env.ldap);
      forall b | b in backends[1..]
        ensures Prepared(cfg, run.p, groupName, users, b, env.ldap)
      {
        assert Prepared(cfg, p, groupName, users, b, env.ldap);
      }
      QuietMeansSettled(cfg, run.p, groupName, users, backends[1..], env, errors);
      forall b | b in backends[1..]
        ensures Settled(cfg, p, groupName, users, b, env.ldap)
      {
        assert Settled(cfg, run.p, groupName, users, b, env.ldap);
      }
      assert forall b :: b in backends ==> b == c || b in backends[1..];
    }
  }
}
