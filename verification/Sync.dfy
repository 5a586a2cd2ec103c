/** What a reconcile does for one backend: `fetchOrCreateTeam`,
    `createUsersInBackendAndCache`, `processUsers` and the membership update. */
module Sync {
  import opened Common
  import opened Naming
  import opened Backends

  // ---------------------------------------------------------------- operations

  /** Reading a cached value for update: absent and empty values read as no IDs. */
  function ReadIds(cache: Cache, entry: string): Result<map<string, string>> {
    if entry !in cache || cache[entry].Blank? then Ok(map[])
    else if cache[entry].Garbled? then Err(DecodeFault)
    else Ok(cache[entry].ids)
  }

  function WriteId(cache: Cache, entry: string, ids: map<string, string>, key: string, id: string): Cache {
    cache[entry := Ids(ids[key := id])]
  }

  /** `fetchOrCreateTeam` under the transformed name. */
  function FetchOrCreate(p: Platform, name: string, b: Backend, env: Env): After<string> {
    match ReadIds(p.cache, name)
    case Err(f) => After(p, Err(f))
    case Ok(ids) =>
      if IdAt(ids, CacheKey(b)) != "" then After(p, Ok(IdAt(ids, CacheKey(b))))
      else
        match CreateTeam(p, b, name, env)
        case After(p1, Err(f)) => After(p1, Err(f))
        case After(p1, Ok(id)) => After(p1.(cache := WriteId(p.cache, name, ids, CacheKey(b), id)), Ok(id))
  }

  function FetchOrCreateTeam(cfg: Config, p: Platform, groupName: string, b: Backend, env: Env): After<string> {
    match Transform(cfg.patterns, b.kind, groupName)
    case Err(f) => After(p, Err(f))
    case Ok(name) => FetchOrCreate(p, name, b, env)
  }

  /** One user of `createUsersInBackendAndCache`. */
  function EnsureUser(p: Platform, email: string, b: Backend, env: Env): After<()> {
    match ReadIds(p.cache, email)
    case Err(f) => After(p, Err(f))
    case Ok(ids) =>
      if IdAt(ids, CacheKey(b)) != "" then After(p, Ok(()))
      else
        match CreateUser(p, b, email, env)
        case After(p1, Err(f)) => After(p1, Err(f))
        case After(p1, Ok(id)) => After(p1.(cache := WriteId(p.cache, email, ids, CacheKey(b), id)), Ok(()))
  }

  /** `createUsersInBackendAndCache`: users without LDAP data are skipped, the first
      failure stops the loop. */
  function CreateUsers(p: Platform, users: seq<string>, b: Backend, env: Env): After<()>
    decreases |users|
  {
    if users == [] then After(p, Ok(()))
    else if users[0] !in env.ldap then CreateUsers(p, users[1..], b, env)
    else
      match EnsureUser(p, env.ldap[users[0]], b, env)
      case After(p1, Err(f)) => After(p1, Err(f))
      case After(p1, Ok(_)) => CreateUsers(p1, users[1..], b, env)
  }

  /** The ID of one user in `processUsers`; None stands for the early return of no users
      and no error on an empty cached value. */
  function LookUpId(cache: Cache, email: string, b: Backend): Result<Option<string>> {
    if email !in cache then Err(CacheMiss)
    else if cache[email].Blank? then Ok(None)
    else if cache[email].Garbled? then Err(DecodeFault)
    else if IdAt(cache[email].ids, CacheKey(b)) == "" then Err(NoUserId)
    else Ok(Some(IdAt(cache[email].ids, CacheKey(b))))
  }

  /** The loop of `processUsers` over the group's users: the IDs to sync are appended
      to `ids`. */
  function IdsToSync(cache: Cache, users: seq<string>, b: Backend, ldap: map<string, string>, ids: seq<string>)
    : Result<Option<seq<string>>>
    decreases |users|
  {
    if users == [] then Ok(Some(ids))
    else if users[0] !in ldap then IdsToSync(cache, users[1..], b, ldap, ids)
    else
      match LookUpId(cache, ldap[users[0]], b)
      case Err(f) => Err(f)
      case Ok(None) => Ok(None)
      case Ok(Some(id)) => IdsToSync(cache, users[1..], b, ldap, ids + [id])
  }

  /** Users without LDAP data whose name is the ID of a team member are appended to `names`. */
  function NamesToRemove(
    users: seq<string>, existing: set<string>, ldap: map<string, string>, names: seq<string>): seq<string>
    decreases |users|
  {
    if users == [] then names
    else if users[0] !in ldap && users[0] in existing then NamesToRemove(users[1..], existing, ldap, names + [users[0]])
    else NamesToRemove(users[1..], existing, ldap, names)
  }

  function Missing(ids: seq<string>, existing: set<string>): seq<string> {
    if ids == [] then []
    else if ids[0] in existing then Missing(ids[1..], existing)
    else [ids[0]] + Missing(ids[1..], existing)
  }

  /** The membership change: IDs to add in order; to remove, first the names in order,
      then the stale IDs in the iteration order of a Go map. */
  datatype Diff = Diff(adds: seq<string>, names: seq<string>, stale: set<string>)

  function Removals(d: Diff): set<string> {
    Elems(d.names) + d.stale
  }

  /** `processUsers`. */
  function ProcessUsers(
    cache: Cache, users: seq<string>, existing: set<string>, b: Backend, ldap: map<string, string>): Result<Diff>
  {
    match IdsToSync(cache, users, b, ldap, [])
    case Err(f) => Err(f)
    case Ok(None) => Ok(Diff([], [], {}))
    case Ok(Some(ids)) =>
      Ok(Diff(Missing(ids, existing), NamesToRemove(users, existing, ldap, []), existing - Elems(ids)))
  }

  /** How the work for one backend ends: done, failed and recorded, or failed in a
      membership call, which ends the whole reconcile. */
  datatype End = Synced | Recorded(failure: Failure) | Aborted(failure: Failure)

  datatype BackendRun = BackendRun(p: Platform, end: End)

  function AddStage(p: Platform, ref: TeamRef, d: Diff, env: Env): After<()> {
    if d.adds == [] then After(p, Ok(())) else AddMembers(p, ref, Elems(d.adds), env)
  }

  function RemoveStage(p: Platform, ref: TeamRef, d: Diff, env: Env): After<()> {
    if d.names == [] && d.stale == {} then After(p, Ok(())) else RemoveMembers(p, ref, Removals(d), env)
  }

  /** `AddUserToTeam`, then `RemoveUserFromTeam`, each only if there is something to do. */
  function UpdateMembers(p: Platform, ref: TeamRef, d: Diff, env: Env): BackendRun {
    var a := AddStage(p, ref, d, env);
    if a.r.Err? then BackendRun(a.p, Aborted(a.r.failure))
    else
      var r := RemoveStage(a.p, ref, d, env);
      BackendRun(r.p, if r.r.Err? then Aborted(r.r.failure) else Synced)
  }

  /** The part of the backend loop after the team and the users exist. */
  function SyncMembers(p: Platform, ref: TeamRef, users: seq<string>, env: Env): BackendRun {
    var fetched := FetchMembers(p, ref, env);
    if fetched.r.Err? then BackendRun(fetched.p, Recorded(fetched.r.failure))
    else
      match ProcessUsers(p.cache, users, fetched.r.value, ref.b, env.ldap)
      case Err(f) => BackendRun(fetched.p, Recorded(f))
      case Ok(d) => UpdateMembers(fetched.p, ref, d, env)
  }

  /** The body of the backend loop of `Reconcile`. */
  function SyncBackend(
    cfg: Config, p: Platform, groupName: string, users: seq<string>, b: Backend, env: Env): BackendRun
  {
    if !HasClient(cfg, b) then BackendRun(p, Recorded(InvalidBackend))
    else
      match FetchOrCreateTeam(cfg, p, groupName, b, env)
      case After(p1, Err(f)) => BackendRun(p1, Recorded(f))
      case After(p1, Ok(id)) =>
        match CreateUsers(p1, users, b, env)
        case After(p2, Err(f)) => BackendRun(p2, Recorded(f))
        case After(p2, Ok(_)) => SyncMembers(p2, TeamRef(b, id), users, env)
  }

  // ---------------------------------------------------------------- what one backend's work leaves alone

  /** From `p` to `p'` only entries, teams and events of backend `b` were added or
      changed, and no cached ID was lost or replaced. */
  ghost predicate OnlyFor(b: Backend, p: Platform, p': Platform) {
    && (forall e, k {:trigger CachedId(p'.cache, e, k)} ::
          (k != CacheKey(b) || CachedId(p.cache, e, k) != "") ==> CachedId(p'.cache, e, k) == CachedId(p.cache, e, k))
    && (forall ref: TeamRef {:trigger ref in p'.teams} :: ref.b != b ==>
          (ref in p'.teams <==> ref in p.teams) && (ref in p.teams ==> p'.teams[ref] == p.teams[ref]))
    && p.teams.Keys <= p'.teams.Keys
    && p.log <= p'.log
    && (forall i :: |p.log| <= i < |p'.log| ==> p'.log[i].b == b)
  }

  lemma OnlyForTrans(b: Backend, p: Platform, q: Platform, r: Platform)
    requires OnlyFor(b, p, q) && OnlyFor(b, q, r)
    ensures OnlyFor(b, p, r)
  {
    forall e, k | k != CacheKey(b) || CachedId(p.cache, e, k) != ""
      ensures CachedId(r.cache, e, k) == CachedId(p.cache, e, k)
    {
      assert CachedId(q.cache, e, k) == CachedId(p.cache, e, k);
    }
    forall ref: TeamRef | ref.b != b
      ensures (ref in r.teams <==> ref in p.teams) && (ref in p.teams ==> r.teams[ref] == p.teams[ref])
    {
      assert ref in q.teams <==> ref in p.teams;
    }
    forall i | |p.log| <= i < |r.log|
      ensures r.log[i].b == b
    {
      if i < |q.log| { assert r.log[i] == q.log[i]; }
    }
  }

  lemma WriteIdLookup(cache: Cache, entry: string, ids: map<string, string>, key: string, id: string)
    requires ReadIds(cache, entry) == Ok(ids)
    ensures forall e, k {:trigger CachedId(WriteId(cache, entry, ids, key, id), e, k)} ::
      CachedId(WriteId(cache, entry, ids, key, id), e, k) ==
        if e == entry && k == key then id else CachedId(cache, e, k)
  {
  }

  lemma FetchOrCreateFrame(p: Platform, name: string, b: Backend, env: Env)
    ensures OnlyFor(b, p, FetchOrCreate(p, name, b, env).p)
  {
    var ids := ReadIds(p.cache, name);
    if ids.Ok? && env.reply(p.tick).Done? {
      WriteIdLookup(p.cache, name, ids.value, CacheKey(b), env.reply(p.tick).id);
    }
  }

  /** How a team is found: a cached ID is returned without any call, an undecodable value is an
      error without any call, and otherwise a team is created in one call, and its ID cached and
      returned, unless the call fails or its ID is in use under another name. */
  lemma FetchOrCreateCases(p: Platform, name: string, b: Backend, env: Env)
    ensures
      var id := CachedId(p.cache, name, CacheKey(b));
      var reply := env.reply(p.tick);
      var t := FetchOrCreate(p, name, b, env);
      if id != "" then t == After(p, Ok(id))
      else if name in p.cache && p.cache[name].Garbled? then t == After(p, Err(DecodeFault))
      else if reply.Fault? || (TeamRef(b, reply.id) in p.teams && p.teams[TeamRef(b, reply.id)].name != name)
      then t == After(Tick(p), Err(BackendFault))
      else
        && t.r == Ok(reply.id) && t.p.log == p.log + [TeamCreated(b, name, reply.id)] && t.p.tick == p.tick + 1
        && TeamRef(b, reply.id) in t.p.teams && t.p.teams[TeamRef(b, reply.id)].name == name
        && (forall e, k {:trigger CachedId(t.p.cache, e, k)} ::
              CachedId(t.p.cache, e, k) == if e == name && k == CacheKey(b) then reply.id else CachedId(p.cache, e, k))
  {
    var ids := ReadIds(p.cache, name);
    if ids.Ok? && env.reply(p.tick).Done? {
      WriteIdLookup(p.cache, name, ids.value, CacheKey(b), env.reply(p.tick).id);
    }
  }

  lemma EnsureUserFrame(p: Platform, email: string, b: Backend, env: Env)
    ensures OnlyFor(b, p, EnsureUser(p, email, b, env).p)
    ensures EnsureUser(p, email, b, env).p.teams == p.teams
  {
    var ids := ReadIds(p.cache, email);
    if ids.Ok? && env.reply(p.tick).Done? {
      WriteIdLookup(p.cache, email, ids.value, CacheKey(b), env.reply(p.tick).id);
    }
  }

  lemma {:induction false} CreateUsersFrame(p: Platform, users: seq<string>, b: Backend, env: Env)
    ensures OnlyFor(b, p, CreateUsers(p, users, b, env).p)
    ensures CreateUsers(p, users, b, env).p.teams == p.teams
    decreases |users|
  {
    if users == [] {
    } else if users[0] !in env.ldap {
      CreateUsersFrame(p, users[1..], b, env);
    } else {
      var step := EnsureUser(p, env.ldap[users[0]], b, env);
      EnsureUserFrame(p, env.ldap[users[0]], b, env);
      if step.r.Ok? {
        CreateUsersFrame(step.p, users[1..], b, env);
        OnlyForTrans(b, p, step.p, CreateUsers(step.p, users[1..], b, env).p);
      }
    }
  }

  lemma AddStageFrame(p: Platform, ref: TeamRef, d: Diff, env: Env)
    ensures OnlyFor(ref.b, p, AddStage(p, ref, d, env).p)
  {
  }

  lemma RemoveStageFrame(p: Platform, ref: TeamRef, d: Diff, env: Env)
    ensures OnlyFor(ref.b, p, RemoveStage(p, ref, d, env).p)
  {
  }

  lemma UpdateMembersFrame(p: Platform, ref: TeamRef, d: Diff, env: Env)
    ensures OnlyFor(ref.b, p, UpdateMembers(p, ref, d, env).p)
    ensures UpdateMembers(p, ref, d, env).p.cache == p.cache
  {
    var a := AddStage(p, ref, d, env);
    AddStageFrame(p, ref, d, env);
    if a.r.Ok? {
      var r := RemoveStage(a.p, ref, d, env);
      assert OnlyFor(ref.b, p, r.p) by {
        RemoveStageFrame(a.p, ref, d, env);
        OnlyForTrans(ref.b, p, a.p, r.p);
      }
    }
  }

  lemma SyncMembersFrame(p: Platform, ref: TeamRef, users: seq<string>, env: Env)
    ensures OnlyFor(ref.b, p, SyncMembers(p, ref, users, env).p)
    ensures SyncMembers(p, ref, users, env).p.cache == p.cache
  {
    var d := ProcessUsers(p.cache, users, MembersOf(p, ref), ref.b, env.ldap);
    if d.Ok? {
      UpdateMembersFrame(Tick(p), ref, d.value, env);
      OnlyForTrans(ref.b, p, Tick(p), UpdateMembers(Tick(p), ref, d.value, env).p);
    }
  }

  /** The work for one backend changes nothing that belongs to another backend. */
  lemma SyncBackendFrame(cfg: Config, p: Platform, groupName: string, users: seq<string>, b: Backend, env: Env)
    ensures OnlyFor(b, p, SyncBackend(cfg, p, groupName, users, b, env).p)
  {
    var name := Transform(cfg.patterns, b.kind, groupName);
    if HasClient(cfg, b) && name.Ok? {
      FetchOrCreateFrame(p, name.value, b, env);
      var t := FetchOrCreate(p, name.value, b, env);
      if t.r.Ok? {
        CreateUsersFrame(t.p, users, b, env);
        var u := CreateUsers(t.p, users, b, env);
        OnlyForTrans(b, p, t.p, u.p);
        if u.r.Ok? {
          SyncMembersFrame(u.p, TeamRef(b, t.r.value), users, env);
          OnlyForTrans(b, p, u.p, SyncMembers(u.p, TeamRef(b, t.r.value), users, env).p);
        }
      }
    }
  }

  // ---------------------------------------------------------------- the users exist

  /** Every user with LDAP data has a cached ID for the backend. */
  ghost predicate AllCached(cache: Cache, users: seq<string>, b: Backend, ldap: map<string, string>) {
    forall u :: u in users && u in ldap ==> CachedId(cache, ldap[u], CacheKey(b)) != ""
  }

  /** The IDs the team has to consist of. */
  function SyncedIds(cache: Cache, users: seq<string>, b: Backend, ldap: map<string, string>): set<string> {
    set u | u in users && u in ldap :: CachedId(cache, ldap[u], CacheKey(b))
  }

  lemma {:induction false} CreateUsersCachesAll(p: Platform, users: seq<string>, b: Backend, env: Env)
    requires NonEmptyIds(env) && CreateUsers(p, users, b, env).r.Ok?
    ensures AllCached(CreateUsers(p, users, b, env).p.cache, users, b, env.ldap)
    decreases |users|
  {
    if users != [] {
      var u := users[0];
      if u !in env.ldap {
        CreateUsersCachesAll(p, users[1..], b, env);
      } else {
        var step := EnsureUser(p, env.ldap[u], b, env);
        var last := CreateUsers(step.p, users[1..], b, env);
        assert CachedId(step.p.cache, env.ldap[u], CacheKey(b)) != "";
        CreateUsersCachesAll(step.p, users[1..], b, env);
        CreateUsersFrame(step.p, users[1..], b, env);
        assert CachedId(last.p.cache, env.ldap[u], CacheKey(b)) != "";
      }
    }
  }

  // ---------------------------------------------------------------- who is created, and under which ID

  /** The emails of the users that have no ID on the backend yet, by first occurrence; those in
      `done` are left out. */
  function Needed(
    cache: Cache, users: seq<string>, b: Backend, ldap: map<string, string>, done: set<string>): seq<string>
    decreases |users|
  {
    if users == [] then []
    else if users[0] !in ldap then Needed(cache, users[1..], b, ldap, done)
    else
      var email := ldap[users[0]];
      if email in done || CachedId(cache, email, CacheKey(b)) != "" then Needed(cache, users[1..], b, ldap, done)
      else [email] + Needed(cache, users[1..], b, ldap, done + {email})
  }

  /** These are all the emails without an ID, each once. */
  lemma {:induction false} NeededExact(
    cache: Cache, users: seq<string>, b: Backend, ldap: map<string, string>, done: set<string>)
    ensures
      var need := Needed(cache, users, b, ldap, done);
      && (forall e :: e in need <==>
            e !in done && CachedId(cache, e, CacheKey(b)) == "" && exists u :: u in users && u in ldap && ldap[u] == e)
      && Distinct(need)
    decreases |users|
  {
    if users != [] {
      var u, rest := users[0], users[1..];
      assert forall v :: v in users <==> v == u || v in rest;
      if u !in ldap || ldap[u] in done || CachedId(cache, ldap[u], CacheKey(b)) != "" {
        NeededExact(cache, rest, b, ldap, done);
        assert Needed(cache, users, b, ldap, done) == Needed(cache, rest, b, ldap, done);
      } else {
        NeededExact(cache, rest, b, ldap, done + {ldap[u]});
        var more := Needed(cache, rest, b, ldap, done + {ldap[u]});
        assert forall j :: 0 <= j < |more| ==> more[j] in more && more[j] != ldap[u];
      }
    }
  }

  /** An ID that is cached counts like an email that is done. */
  lemma {:induction false} NeededSame(
    c: Cache, c': Cache, users: seq<string>, b: Backend, ldap: map<string, string>,
    done: set<string>, done': set<string>)
    requires forall e ::
      (e in done || CachedId(c, e, CacheKey(b)) != "") <==> (e in done' || CachedId(c', e, CacheKey(b)) != "")
    ensures Needed(c, users, b, ldap, done) == Needed(c', users, b, ldap, done')
    decreases |users|
  {
    if users != [] {
      if users[0] in ldap {
        var e := ldap[users[0]];
        assert (e in done || CachedId(c, e, CacheKey(b)) != "") <==> (e in done' || CachedId(c', e, CacheKey(b)) != "");
        NeededSame(c, c', users[1..], b, ldap, done + {e}, done' + {e});
      }
      NeededSame(c, c', users[1..], b, ldap, done, done');
    }
  }

  /** The user of the `i`-th email was created in the `i`-th call, under the ID that the backend gave
      in reply, and this ID is cached. */
  ghost predicate UserCreatedAt(p: Platform, q: Platform, b: Backend, email: string, i: nat, reply: nat -> Reply) {
    && reply(p.tick + i).Done?
    && |p.log| + i < |q.log|
    && q.log[|p.log| + i] == UserCreated(b, email, reply(p.tick + i).id)
    && CachedId(q.cache, email, CacheKey(b)) == reply(p.tick + i).id
  }

  /** From `p` to `q` the users of the first `k` emails were created in order, and nothing else
      was cached than their IDs. */
  ghost predicate UsersCreated(p: Platform, q: Platform, b: Backend, need: seq<string>, k: nat, reply: nat -> Reply)
    requires k <= |need|
  {
    && |q.log| == |p.log| + k && p.log <= q.log
    && (forall i :: 0 <= i < k ==> UserCreatedAt(p, q, b, need[i], i, reply))
    && (forall e, key {:trigger CachedId(q.cache, e, key)} ::
          key != CacheKey(b) || e !in need[..k] ==> CachedId(q.cache, e, key) == CachedId(p.cache, e, key))
    && q.teams == p.teams
  }

  /** How the loop ends once `k` users were created: all are, or the next email has an
      undecodable value, or its creation fails; no call follows that one. */
  ghost predicate EndsAfter(p: Platform, q: After<()>, need: seq<string>, k: nat, reply: nat -> Reply)
    requires k <= |need|
  {
    if k == |need| then q.r == Ok(()) && q.p.tick == p.tick + k
    else if need[k] in p.cache && p.cache[need[k]].Garbled? then q.r == Err(DecodeFault) && q.p.tick == p.tick + k
    else q.r == Err(BackendFault) && reply(p.tick + k).Fault? && q.p.tick == p.tick + k + 1
  }

  /** What `createUsersInBackendAndCache` does, exactly: in the order of the users, a user is
      created for each email that has no ID yet, once, until a failure stops it; and the ID cached
      for an email is the one that the backend gave to the user it created. */
  lemma {:induction false} CreateUsersExact(p: Platform, users: seq<string>, b: Backend, env: Env) returns (k: nat)
    requires NonEmptyIds(env)
    ensures
      var need := Needed(p.cache, users, b, env.ldap, {});
      var q := CreateUsers(p, users, b, env);
      k <= |need| && UsersCreated(p, q.p, b, need, k, env.reply) && EndsAfter(p, q, need, k, env.reply)
    decreases |users|
  {
    k := 0;
    if users == [] {
    } else if users[0] !in env.ldap {
      k := CreateUsersExact(p, users[1..], b, env);
    } else {
      var email, rest := env.ldap[users[0]], users[1..];
      var step := EnsureUser(p, email, b, env);
      if CachedId(p.cache, email, CacheKey(b)) != "" {
        assert step == After(p, Ok(()));
        k := CreateUsersExact(p, rest, b, env);
      } else if step.r.Ok? {
        var more := Needed(step.p.cache, rest, b, env.ldap, {});
        EnsureUserCreates(p, email, rest, b, env);
        assert Needed(p.cache, users, b, env.ldap, {}) == [email] + more;
        var k' := CreateUsersExact(step.p, rest, b, env);
        UserFirst(p, step.p, CreateUsers(step.p, rest, b, env), b, email, more, k', env.reply);
        k := k' + 1;
      }
    }
  }

  /** One created user: its ID is cached, nothing else changes, and its email is done. */
  lemma EnsureUserCreates(p: Platform, email: string, rest: seq<string>, b: Backend, env: Env)
    requires NonEmptyIds(env) && CachedId(p.cache, email, CacheKey(b)) == "" && EnsureUser(p, email, b, env).r.Ok?
    ensures
      var s := EnsureUser(p, email, b, env).p;
      && UserStep(p, s, b, email, env.reply)
      && Needed(p.cache, rest, b, env.ldap, {} + {email}) == Needed(s.cache, rest, b, env.ldap, {})
      && email !in Needed(s.cache, rest, b, env.ldap, {})
  {
    var s := EnsureUser(p, email, b, env).p;
    var id := env.reply(p.tick).id;
    WriteIdLookup(p.cache, email, ReadIds(p.cache, email).value, CacheKey(b), id);
    NeededSame(p.cache, s.cache, rest, b, env.ldap, {} + {email}, {});
    NeededExact(s.cache, rest, b, env.ldap, {});
  }

  ghost predicate UserStep(p: Platform, s: Platform, b: Backend, email: string, reply: nat -> Reply) {
    && reply(p.tick).Done?
    && s.log == p.log + [UserCreated(b, email, reply(p.tick).id)] && s.teams == p.teams && s.tick == p.tick + 1
    && (forall e, key {:trigger CachedId(s.cache, e, key)} ::
          CachedId(s.cache, e, key)
            == if e == email && key == CacheKey(b) then reply(p.tick).id else CachedId(p.cache, e, key))
    && (forall e :: e != email ==> ((e in s.cache && s.cache[e].Garbled?) <==> (e in p.cache && p.cache[e].Garbled?)))
  }

  lemma UserFirst(p: Platform, s: Platform, q: After<()>, b: Backend, email: string, more: seq<string>, k: nat,
                  reply: nat -> Reply)
    requires k <= |more| && email !in more && UserStep(p, s, b, email, reply)
    requires UsersCreated(s, q.p, b, more, k, reply) && EndsAfter(s, q, more, k, reply)
    ensures UsersCreated(p, q.p, b, [email] + more, k + 1, reply) && EndsAfter(p, q, [email] + more, k + 1, reply)
  {
    var need := [email] + more;
    assert forall i :: 0 < i < |need| ==> need[i] == more[i - 1];
    assert need[..k + 1] == [email] + more[..k];
    assert p.log <= q.p.log;
    forall i | 0 <= i < k + 1
      ensures UserCreatedAt(p, q.p, b, need[i], i, reply)
    {
      if i == 0 {
        assert q.p.log[|p.log|] == s.log[|p.log|];
        assert email !in more[..k];
        assert CachedId(q.p.cache, email, CacheKey(b)) == CachedId(s.cache, email, CacheKey(b));
      } else {
        assert UserCreatedAt(s, q.p, b, more[i - 1], i - 1, reply);
      }
    }
    forall e, key | key != CacheKey(b) || e !in need[..k + 1]
      ensures CachedId(q.p.cache, e, key) == CachedId(p.cache, e, key)
    {
      assert CachedId(q.p.cache, e, key) == CachedId(s.cache, e, key);
    }
    if k < |more| { assert need[k + 1] == more[k] && more[k] in more; }
  }

  /** The loop of `processUsers` succeeds exactly when every user with LDAP data has a
      cached ID, and then lists those IDs. */
  lemma {:induction false} IdsToSyncExact(
    cache: Cache, users: seq<string>, b: Backend, ldap: map<string, string>, ids: seq<string>)
    ensures var r := IdsToSync(cache, users, b, ldap, ids);
      && (r.Ok? && r.value.Some? <==> AllCached(cache, users, b, ldap))
      && (r.Ok? && r.value.Some? ==> Elems(r.value.value) == Elems(ids) + SyncedIds(cache, users, b, ldap))
    decreases |users|
  {
    if users != [] {
      var u := users[0];
      if u !in ldap {
        IdsToSyncExact(cache, users[1..], b, ldap, ids);
        assert SyncedIds(cache, users, b, ldap) == SyncedIds(cache, users[1..], b, ldap);
      } else {
        var id := CachedId(cache, ldap[u], CacheKey(b));
        IdsToSyncExact(cache, users[1..], b, ldap, ids + [id]);
        ElemsConcat(ids, [id]);
        assert SyncedIds(cache, users, b, ldap) == {id} + SyncedIds(cache, users[1..], b, ldap);
      }
    }
  }

  /** The user with LDAP data that is met first among those without an ID on the backend. */
  ghost predicate FirstWithoutId(cache: Cache, users: seq<string>, b: Backend, ldap: map<string, string>, i: int) {
    && 0 <= i < |users| && users[i] in ldap && CachedId(cache, ldap[users[i]], CacheKey(b)) == ""
    && AllCached(cache, users[..i], b, ldap)
  }

  /** If some user has no ID, the first such user decides how `processUsers` ends: by what is, or
      is not, cached for the email. */
  lemma {:induction false} FirstWithoutIdDecides(
    cache: Cache, users: seq<string>, b: Backend, ldap: map<string, string>, ids: seq<string>, i: nat)
    requires FirstWithoutId(cache, users, b, ldap, i)
    ensures
      var email := ldap[users[i]];
      IdsToSync(cache, users, b, ldap, ids) ==
        if email !in cache then Err(CacheMiss)
        else match cache[email]
             case Blank => Ok(None)
             case Garbled => Err(DecodeFault)
             case Ids(_) => Err(NoUserId)
    decreases |users|
  {
    if i > 0 {
      var u, rest := users[0], users[1..];
      assert users[..i][0] == u && users[..i][1..] == rest[..i - 1];
      assert AllCached(cache, rest[..i - 1], b, ldap);
      assert u in users[..i] && rest[i - 1] == users[i];
      FirstWithoutIdDecides(
        cache, rest, b, ldap, if u in ldap then ids + [CachedId(cache, ldap[u], CacheKey(b))] else ids, i - 1);
    }
  }

  lemma {:induction false} MissingElems(ids: seq<string>, existing: set<string>)
    ensures Elems(Missing(ids, existing)) == Elems(ids) - existing
  {
    if ids != [] {
      MissingElems(ids[1..], existing);
      assert Elems(ids) == {ids[0]} + Elems(ids[1..]);
      if ids[0] !in existing { ElemsConcat([ids[0]], Missing(ids[1..], existing)); }
    }
  }

  /** Members without LDAP data. */
  function Unlisted(users: seq<string>, ldap: map<string, string>): set<string> {
    set u | u in users && u !in ldap
  }

  lemma {:induction false} NamesElems(
    users: seq<string>, existing: set<string>, ldap: map<string, string>, names: seq<string>)
    ensures Elems(NamesToRemove(users, existing, ldap, names)) == Elems(names) + (Unlisted(users, ldap) * existing)
    decreases |users|
  {
    if users != [] {
      var u := users[0];
      assert Unlisted(users, ldap) == (if u in ldap then {} else {u}) + Unlisted(users[1..], ldap);
      if u !in ldap && u in existing {
        NamesElems(users[1..], existing, ldap, names + [u]);
        ElemsConcat(names, [u]);
      } else {
        NamesElems(users[1..], existing, ldap, names);
      }
    }
  }

  /** The diff, exactly: what is added, what is removed, and that the two never meet. */
  lemma DiffExact(cache: Cache, users: seq<string>, existing: set<string>, b: Backend, ldap: map<string, string>)
    requires AllCached(cache, users, b, ldap)
    ensures
      var synced := SyncedIds(cache, users, b, ldap);
      var r := ProcessUsers(cache, users, existing, b, ldap);
      && r.Ok?
      && Elems(r.value.adds) == synced - existing
      && Removals(r.value) == (existing - synced) + (Unlisted(users, ldap) * existing)
      && Elems(r.value.adds) !! Removals(r.value)
  {
    IdsToSyncExact(cache, users, b, ldap, []);
    var ids := IdsToSync(cache, users, b, ldap, []).value.value;
    MissingElems(ids, existing);
    NamesElems(users, existing, ldap, []);
  }

  /** Among users listed once, a name is to be removed once. */
  lemma {:induction false} NamesOnce(
    users: seq<string>, existing: set<string>, ldap: map<string, string>, names: seq<string>, x: string)
    requires forall i, k :: 0 <= i < k < |users| ==> users[i] != users[k]
    ensures multiset(NamesToRemove(users, existing, ldap, names))[x]
      == multiset(names)[x] + if x in users && x !in ldap && x in existing then 1 else 0
    decreases |users|
  {
    if users != [] {
      var u, rest := users[0], users[1..];
      assert u !in rest && (x in users <==> x == u || x in rest);
      NamesOnce(rest, existing, ldap, if u !in ldap && u in existing then names + [u] else names, x);
    }
  }

  /** How often the removal list holds an ID: twice exactly for a present member without LDAP
      data that is no synced ID, which both loops collect; once for every other member to be
      removed. */
  lemma RemovalsRepeat(
    cache: Cache, users: seq<string>, existing: set<string>, b: Backend, ldap: map<string, string>, x: string)
    requires AllCached(cache, users, b, ldap)
    requires forall i, k :: 0 <= i < k < |users| ==> users[i] != users[k]
    ensures
      var r := ProcessUsers(cache, users, existing, b, ldap);
      && r.Ok?
      && (multiset(r.value.names) + multiset(r.value.stale))[x]
           == if x !in Removals(r.value) then 0
              else if x in Unlisted(users, ldap) && x !in SyncedIds(cache, users, b, ldap) then 2
              else 1
  {
    DiffExact(cache, users, existing, b, ldap);
    IdsToSyncExact(cache, users, b, ldap, []);
    NamesOnce(users, existing, ldap, [], x);
  }

  /** The users with LDAP data whose ID on the backend is `x`. */
  function Bearers(cache: Cache, users: seq<string>, b: Backend, ldap: map<string, string>, x: string): set<string> {
    set u | u in users && u in ldap && CachedId(cache, ldap[u], CacheKey(b)) == x
  }

  /** Among users listed once, an ID is to be synced once for each of its bearers. */
  lemma {:induction false} IdsCounted(
    cache: Cache, users: seq<string>, b: Backend, ldap: map<string, string>, ids: seq<string>, x: string)
    requires AllCached(cache, users, b, ldap)
    requires forall i, k :: 0 <= i < k < |users| ==> users[i] != users[k]
    ensures
      var r := IdsToSync(cache, users, b, ldap, ids);
      && r.Ok? && r.value.Some?
      && multiset(r.value.value)[x] == multiset(ids)[x] + |Bearers(cache, users, b, ldap, x)|
    decreases |users|
  {
    if users != [] {
      var u, rest := users[0], users[1..];
      assert u !in rest;
      var id := if u in ldap then CachedId(cache, ldap[u], CacheKey(b)) else "";
      IdsCounted(cache, rest, b, ldap, if u in ldap then ids + [id] else ids, x);
      var before := Bearers(cache, rest, b, ldap, x);
      assert Bearers(cache, users, b, ldap, x) == if u in ldap && id == x then before + {u} else before;
    }
  }

  lemma {:induction false} MissingCounted(ids: seq<string>, existing: set<string>, x: string)
    ensures multiset(Missing(ids, existing))[x] == if x in existing then 0 else multiset(ids)[x]
  {
    if ids != [] {
      MissingCounted(ids[1..], existing, x);
      assert ids == [ids[0]] + ids[1..];
    }
  }

  /** How often the list of additions holds an ID: once for each user that bears it, so twice
      if two users share it. */
  lemma AddsRepeat(
    cache: Cache, users: seq<string>, existing: set<string>, b: Backend, ldap: map<string, string>, x: string)
    requires AllCached(cache, users, b, ldap)
    requires forall i, k :: 0 <= i < k < |users| ==> users[i] != users[k]
    ensures
      var r := ProcessUsers(cache, users, existing, b, ldap);
      && r.Ok?
      && multiset(r.value.adds)[x] == if x in existing then 0 else |Bearers(cache, users, b, ldap, x)|
  {
    IdsCounted(cache, users, b, ldap, [], x);
    MissingCounted(IdsToSync(cache, users, b, ldap, []).value.value, existing, x);
  }

  lemma DisjointDifference(a: set<string>, b: set<string>)
    ensures a - b == a <==> b * a == {}
  {
    assert forall x :: x in a && x in b ==> x in b * a && x !in a - b;
  }

  /** Adding and removing commute, and give the wanted team exactly when no present
      member without LDAP data bears the name of a wanted ID. */
  lemma DiffGivesTeam(cache: Cache, users: seq<string>, existing: set<string>, b: Backend, ldap: map<string, string>)
    requires AllCached(cache, users, b, ldap)
    ensures ProcessUsers(cache, users, existing, b, ldap).Ok?
    ensures
      var synced := SyncedIds(cache, users, b, ldap);
      var d := ProcessUsers(cache, users, existing, b, ldap).value;
      && (existing + Elems(d.adds)) - Removals(d) == (existing - Removals(d)) + Elems(d.adds)
      && (existing + Elems(d.adds)) - Removals(d) == synced - (Unlisted(users, ldap) * existing)
      && ((existing + Elems(d.adds)) - Removals(d) == synced <==> Unlisted(users, ldap) * existing * synced == {})
  {
    DiffExact(cache, users, existing, b, ldap);
    var synced := SyncedIds(cache, users, b, ldap);
    DisjointDifference(synced, Unlisted(users, ldap) * existing);
  }

  /** Once the users have been created, `processUsers` cannot fail. */
  lemma ProcessingCannotFail(p: Platform, users: seq<string>, existing: set<string>, b: Backend, env: Env)
    requires NonEmptyIds(env) && CreateUsers(p, users, b, env).r.Ok?
    ensures
      var cache := CreateUsers(p, users, b, env).p.cache;
      && ProcessUsers(cache, users, existing, b, env.ldap).Ok?
      && IdsToSync(cache, users, b, env.ldap, []).value.Some?
  {
    var cache := CreateUsers(p, users, b, env).p.cache;
    CreateUsersCachesAll(p, users, b, env);
    DiffExact(cache, users, existing, b, env.ldap);
    IdsToSyncExact(cache, users, b, env.ldap, []);
  }

  // ---------------------------------------------------------------- the team is in sync

  /** The group's cached team on `b` exists and has exactly the wanted members. */
  ghost predicate InSync(
    cfg: Config, p: Platform, groupName: string, users: seq<string>, b: Backend, ldap: map<string, string>)
  {
    && Prepared(cfg, p, groupName, users, b, ldap)
    && p.teams[CachedTeam(cfg, p, groupName, b)].members == SyncedIds(p.cache, users, b, ldap)
  }

  /** The team exists and is cached, and so are the users. */
  ghost predicate Prepared(
    cfg: Config, p: Platform, groupName: string, users: seq<string>, b: Backend, ldap: map<string, string>)
  {
    && HasClient(cfg, b)
    && Transform(cfg.patterns, b.kind, groupName).Ok?
    && CachedTeam(cfg, p, groupName, b).id != ""
    && CachedTeam(cfg, p, groupName, b) in p.teams
    && AllCached(p.cache, users, b, ldap)
  }

  function CachedTeam(cfg: Config, p: Platform, groupName: string, b: Backend): TeamRef
    requires Transform(cfg.patterns, b.kind, groupName).Ok?
  {
    TeamRef(b, CachedId(p.cache, Transform(cfg.patterns, b.kind, groupName).value, CacheKey(b)))
  }

  lemma UpdateMembersEffect(p: Platform, ref: TeamRef, d: Diff, env: Env)
    requires ref in p.teams && UpdateMembers(p, ref, d, env).end.Synced?
    ensures
      var q := UpdateMembers(p, ref, d, env).p;
      && q.cache == p.cache && ref in q.teams
      && q.teams[ref].members == (p.teams[ref].members + Elems(d.adds)) - Removals(d)
  {
  }

  /** A finished backend: team and users are cached, and the membership is the wanted one
      less the members without LDAP data that were in the team. */
  lemma SyncedEffect(cfg: Config, p: Platform, groupName: string, users: seq<string>, b: Backend, env: Env)
    requires NonEmptyIds(env) && SyncBackend(cfg, p, groupName, users, b, env).end.Synced?
    ensures
      var q := SyncBackend(cfg, p, groupName, users, b, env).p;
      && Prepared(cfg, q, groupName, users, b, env.ldap)
      && var ref := CachedTeam(cfg, q, groupName, b);
         q.teams[ref].members
           == SyncedIds(q.cache, users, b, env.ldap) - (Unlisted(users, env.ldap) * MembersOf(p, ref))
  {
    var name := Transform(cfg.patterns, b.kind, groupName).value;
    var t := FetchOrCreate(p, name, b, env);
    var ref := TeamRef(b, t.r.value);
    var u := CreateUsers(t.p, users, b, env);
    CreateUsersFrame(t.p, users, b, env);
    CreateUsersCachesAll(t.p, users, b, env);
    assert CachedId(t.p.cache, name, CacheKey(b)) == t.r.value != "";
    assert CachedId(u.p.cache, name, CacheKey(b)) == t.r.value;
    assert MembersOf(u.p, ref) == MembersOf(p, ref);
    var existing := u.p.teams[ref].members;
    DiffGivesTeam(u.p.cache, users, existing, b, env.ldap);
    var d := ProcessUsers(u.p.cache, users, existing, b, env.ldap).value;
    UpdateMembersEffect(Tick(u.p), ref, d, env);
  }

  /** No member without LDAP data bears the name of a wanted ID. */
  ghost predicate NoClash(p: Platform, users: seq<string>, b: Backend, ldap: map<string, string>) {
    Unlisted(users, ldap) * SyncedIds(p.cache, users, b, ldap) == {}
  }

  // ---------------------------------------------------------------- a second pass

  /** Without failures, a pass over a prepared backend leaves everything as it is
      exactly when the team is in sync and no name clashes with an ID; in every case
      it creates nothing. */
  lemma SecondPass(cfg: Config, p: Platform, groupName: string, users: seq<string>, b: Backend, env: Env)
    requires Prepared(cfg, p, groupName, users, b, env.ldap)
    ensures
      var run := SyncBackend(cfg, p, groupName, users, b, env);
      && run.p.cache == p.cache
      && (InSync(cfg, p, groupName, users, b, env.ldap) && NoClash(p, users, b, env.ldap) ==>
            run.p == Tick(p) && run.end == (if env.reply(p.tick).Fault? then Recorded(BackendFault) else Synced))
      && (run.p.log == p.log && !env.reply(p.tick).Fault? ==>
            InSync(cfg, p, groupName, users, b, env.ldap) && NoClash(p, users, b, env.ldap))
      && (forall i :: |p.log| <= i < |run.p.log| ==> run.p.log[i].MembersAdded? || run.p.log[i].MembersRemoved?)
  {
    var ref := CachedTeam(cfg, p, groupName, b);
    var existing := p.teams[ref].members;
    NothingToCreate(p, users, b, env);
    DiffExact(p.cache, users, existing, b, env.ldap);
    var synced := SyncedIds(p.cache, users, b, env.ldap);
    var d := ProcessUsers(p.cache, users, existing, b, env.ldap).value;
    assert SyncBackend(cfg, p, groupName, users, b, env) == SyncMembers(p, ref, users, env);
    if d.adds == [] && d.names == [] && d.stale == {} {
      assert Elems(d.adds) == {} && Removals(d) == {};
      assert existing == synced && Unlisted(users, env.ldap) * existing == {};
    } else {
      NonEmptyDiff(d);
      assert !(InSync(cfg, p, groupName, users, b, env.ldap) && NoClash(p, users, b, env.ldap));
    }
  }

  lemma NonEmptyDiff(d: Diff)
    requires d.adds != [] || d.names != [] || d.stale != {}
    ensures Elems(d.adds) != {} || Removals(d) != {}
  {
    if d.adds != [] { assert d.adds[0] in Elems(d.adds); }
    if d.names != [] { assert d.names[0] in Elems(d.names); }
  }

  lemma {:induction false} NothingToCreate(p: Platform, users: seq<string>, b: Backend, env: Env)
    requires AllCached(p.cache, users, b, env.ldap)
    ensures CreateUsers(p, users, b, env) == After(p, Ok(()))
    decreases |users|
  {
    if users != [] {
      if users[0] in env.ldap { assert CachedId(p.cache, env.ldap[users[0]], CacheKey(b)) != ""; }
      NothingToCreate(p, users[1..], b, env);
    }
  }
}
