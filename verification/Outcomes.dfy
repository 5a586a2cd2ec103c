/** How a reconcile ends: which calls it makes for a backend, when it stops, and what the status
    of the CR then says. */
module Outcomes {
  import opened Common
  import opened Naming
  import opened Backends
  import opened Sync
  import opened Expansion
  import opened Reconcile
  import opened Convergence
  import Failures
  import Owners
  import Status

  // ---------------------------------------------------------------- the gate

  /** Not configured, disabled, of another type, or without the data to connect. */
  predicate Refused(cfg: Config, b: Backend) {
    || b !in cfg.backends
    || !cfg.backends[b].enabled
    || !cfg.backends[b].connects
    || Lower(b.kind) !in ["fivetran", "rover", "snowflake"]
  }

  lemma {:induction false} CreateUsersFails(p: Platform, users: seq<string>, b: Backend, env: Env)
    ensures
      var q := CreateUsers(p, users, b, env);
      q.r.Err? ==> q.r.failure == DecodeFault || q.r.failure == BackendFault
    decreases |users|
  {
    if users != [] {
      if users[0] in env.ldap {
        CreateUsersFails(EnsureUser(p, env.ldap[users[0]], b, env).p, users[1..], b, env);
      } else {
        CreateUsersFails(p, users[1..], b, env);
      }
    }
  }

  lemma {:induction false} NoNameForName(patterns: seq<Pattern>, name: string)
    ensures FirstMatch(patterns, name).Err? ==> FirstMatch(patterns, name).failure in {NoPattern, InvalidPattern}
  {
    if patterns != [] { NoNameForName(patterns[1..], name); }
  }

  lemma {:induction false} IdsFail(
    cache: Cache, users: seq<string>, b: Backend, ldap: map<string, string>, ids: seq<string>)
    ensures
      var r := IdsToSync(cache, users, b, ldap, ids);
      r.Err? ==> r.failure in {CacheMiss, DecodeFault, NoUserId}
    decreases |users|
  {
    if users != [] {
      IdsFail(cache, users[1..], b, ldap, ids);
      if users[0] in ldap {
        IdsFail(cache, users[1..], b, ldap, ids + [CachedId(cache, ldap[users[0]], CacheKey(b))]);
      }
    }
  }

  /** A backend is recorded as invalid exactly when it is refused, and then nothing is done for it,
      and no list with it can be deleted. */
  lemma RefusedExactly(cfg: Config, p: Platform, groupName: string, users: seq<string>, b: Backend, env: Env)
    ensures
      var run := SyncBackend(cfg, p, groupName, users, b, env);
      && (run.end == Recorded(InvalidBackend) <==> Refused(cfg, b))
      && (Refused(cfg, b) ==> run.p == p)
    ensures forall backends :: b in backends && Refused(cfg, b) ==>
      DeleteTeams(cfg, p, groupName, backends, env).r.Err?
  {
    var name := Transform(cfg.patterns, b.kind, groupName);
    NoNameForName(if b.kind in cfg.patterns then cfg.patterns[b.kind]
                  else if "default" in cfg.patterns then cfg.patterns["default"] else [], groupName);
    if HasClient(cfg, b) && name.Ok? {
      var t := FetchOrCreate(p, name.value, b, env);
      CreateUsersFails(t.p, users, b, env);
      var u := CreateUsers(t.p, users, b, env);
      if t.r.Ok? && u.r.Ok? {
        IdsFail(u.p.cache, users, b, env.ldap, []);
      }
    }
    forall backends | b in backends && Refused(cfg, b)
      ensures DeleteTeams(cfg, p, groupName, backends, env).r.Err?
    {
      RefusedStopsDeletion(cfg, p, groupName, backends, b, env);
    }
  }

  lemma {:induction false} RefusedStopsDeletion(
    cfg: Config, p: Platform, groupName: string, backends: seq<Backend>, b: Backend, env: Env)
    requires b in backends && Refused(cfg, b)
    ensures DeleteTeams(cfg, p, groupName, backends, env).r.Err?
    decreases |backends|
  {
    var c := backends[0];
    var name := Transform(cfg.patterns, c.kind, groupName);
    if name.Ok? && HasClient(cfg, c) {
      var step := DeleteCached(p, name.value, c, env);
      if step.r.Ok? { RefusedStopsDeletion(cfg, step.p, groupName, backends[1..], b, env); }
    }
  }

  // ---------------------------------------------------------------- the calls for one backend

  /** Where an event stands in the work for a backend. */
  function Phase(ev: Event): nat {
    match ev
    case TeamCreated(_, _, _) => 0
    case UserCreated(_, _, _) => 1
    case MembersAdded(_, _, _, _) => 2
    case MembersRemoved(_, _, _, _) => 3
    case TeamDeleted(_, _, _) => 4
  }

  /** From position `m` on: at most one team is created, then users, then members are added at
      most once, then removed at most once. */
  ghost predicate InPhases(log: seq<Event>, m: nat) {
    && (forall i, j :: m <= i < j < |log| ==>
          Phase(log[i]) < Phase(log[j]) || (log[i].UserCreated? && log[j].UserCreated?))
    && (forall i :: m <= i < |log| ==> !log[i].TeamDeleted?)
  }

  lemma {:induction false} OnlyUsersCreated(p: Platform, users: seq<string>, b: Backend, env: Env)
    ensures
      var q := CreateUsers(p, users, b, env).p;
      p.log <= q.log && forall i :: |p.log| <= i < |q.log| ==> q.log[i].UserCreated?
    decreases |users|
  {
    if users != [] {
      if users[0] in env.ldap {
        var step := EnsureUser(p, env.ldap[users[0]], b, env);
        OnlyUsersCreated(step.p, users[1..], b, env);
      } else {
        OnlyUsersCreated(p, users[1..], b, env);
      }
    }
  }

  /** What a membership call sent, given the members of the team before: the diff if the call
      succeeded, and a part of it if not. */
  ghost predicate SentAs(ev: Event, ids: set<string>, reply: nat -> Reply)
    requires ev.MembersAdded? || ev.MembersRemoved?
  {
    ev.ids <= ids && (reply(ev.call).Done? ==> ev.ids == ids)
  }

  /** Each event is about this backend, under the group's name there, its users or its team, and
      what was created is cached. */
  ghost predicate Fits(cfg: Config, p: Platform, q: Platform, groupName: string, users: seq<string>, b: Backend,
                       env: Env, ev: Event)
    requires Transform(cfg.patterns, b.kind, groupName).Ok?
  {
    var name := Transform(cfg.patterns, b.kind, groupName).value;
    var ref := CachedTeam(cfg, q, groupName, b);
    var synced := SyncedIds(q.cache, users, b, env.ldap);
    var existing := MembersOf(p, ref);
    match ev
    case TeamCreated(c, n, id) => c == b && n == name && CachedId(q.cache, name, CacheKey(b)) == id
    case UserCreated(c, email, id) =>
      && c == b && CachedId(q.cache, email, CacheKey(b)) == id
      && exists u :: u in users && u in env.ldap && env.ldap[u] == email
    case MembersAdded(c, team, _, _) => TeamRef(c, team) == ref && SentAs(ev, synced - existing, env.reply)
    case MembersRemoved(c, team, _, _) =>
      TeamRef(c, team) == ref && SentAs(ev, (existing - synced) + (Unlisted(users, env.ldap) * existing), env.reply)
    case TeamDeleted(_, _, _) => false
  }

  lemma NeededIsListed(cache: Cache, users: seq<string>, b: Backend, ldap: map<string, string>, i: nat)
    requires i < |Needed(cache, users, b, ldap, {})|
    ensures exists u :: u in users && u in ldap && ldap[u] == Needed(cache, users, b, ldap, {})[i]
  {
    NeededExact(cache, users, b, ldap, {});
    assert Needed(cache, users, b, ldap, {})[i] in Needed(cache, users, b, ldap, {});
  }

  /** A created user is that of an email of the group, under the ID that is then cached. */
  lemma CreatedUser(p: Platform, users: seq<string>, b: Backend, env: Env, i: nat)
    requires NonEmptyIds(env) && |p.log| <= i < |CreateUsers(p, users, b, env).p.log|
    ensures
      var q := CreateUsers(p, users, b, env).p;
      && q.log[i].UserCreated? && q.log[i].b == b
      && CachedId(q.cache, q.log[i].email, CacheKey(b)) == q.log[i].id
      && exists u :: u in users && u in env.ldap && env.ldap[u] == q.log[i].email
  {
    var q := CreateUsers(p, users, b, env).p;
    var need := Needed(p.cache, users, b, env.ldap, {});
    var k := CreateUsersExact(p, users, b, env);
    var n := i - |p.log|;
    assert UserCreatedAt(p, q, b, need[n], n, env.reply);
    NeededIsListed(p.cache, users, b, env.ldap, n);
  }

  /** The membership calls: an addition, then a removal, at most one of each; the work is aborted
      exactly if one of them fails, and that one is its last. */
  lemma UpdateMembersCalls(p: Platform, ref: TeamRef, d: Diff, env: Env)
    requires ref in p.teams
    ensures
      var run := UpdateMembers(p, ref, d, env);
      && p.log <= run.p.log && InPhases(run.p.log, |p.log|)
      && (forall i :: |p.log| <= i < |run.p.log| ==>
            match run.p.log[i]
            case MembersAdded(b, id, _, _) => TeamRef(b, id) == ref && SentAs(run.p.log[i], Elems(d.adds), env.reply)
            case MembersRemoved(b, id, _, _) => TeamRef(b, id) == ref && SentAs(run.p.log[i], Removals(d), env.reply)
            case _ => false)
      && (run.end.Synced? || run.end == Aborted(BackendFault))
      && (run.end.Aborted? <==> SomeCallFails(run.p.log, |p.log|, env.reply))
      && (run.end.Aborted? ==> LeftByFailure(run.p, env))
  {
    var a := AddStage(p, ref, d, env);
    var run := UpdateMembers(p, ref, d, env);
    if d.adds != [] {
      assert a == MembershipCall(true, p, ref, Elems(d.adds), env);
      assert run.p.log[|p.log|] == a.p.log[|p.log|];
    }
    if a.r.Ok? && !(d.names == [] && d.stale == {}) {
      assert run.p == MembershipCall(false, a.p, ref, Removals(d), env).p;
      assert run.p.log[|a.p.log|].MembersRemoved? && run.p.log[|a.p.log|].call == a.p.tick;
    }
  }

  // ---------------------------------------------------------------- failed membership calls

  predicate CallFails(ev: Event, reply: nat -> Reply) {
    (ev.MembersAdded? || ev.MembersRemoved?) && reply(ev.call).Fault?
  }

  /** Some membership call from position `m` on was answered with a failure. */
  ghost predicate SomeCallFails(log: seq<Event>, m: nat, reply: nat -> Reply) {
    exists i :: m <= i < |log| && CallFails(log[i], reply)
  }

  function MembershipCall(add: bool, p: Platform, ref: TeamRef, ids: set<string>, env: Env): After<()> {
    if add then AddMembers(p, ref, ids, env) else RemoveMembers(p, ref, ids, env)
  }

  /** The platforms are as a failed membership call left them. */
  ghost predicate LeftByFailure(q: Platform, env: Env) {
    exists add, s: Platform, ref, ids ::
      ref in s.teams && env.reply(s.tick).Fault? && MembershipCall(add, s, ref, ids, env).p == q
  }

  /** The calls come in order; the work is aborted exactly if a membership call fails, and then
      everything is left as this call left it. */
  ghost predicate CallsInOrder(p: Platform, run: BackendRun, env: Env) {
    && p.log <= run.p.log && InPhases(run.p.log, |p.log|)
    && (run.end.Aborted? <==> SomeCallFails(run.p.log, |p.log|, env.reply))
    && (run.end.Aborted? ==> run.end.failure == BackendFault && LeftByFailure(run.p, env))
  }

  lemma SyncMembersCalls(p: Platform, ref: TeamRef, users: seq<string>, env: Env)
    ensures
      var run := SyncMembers(p, ref, users, env);
      && CallsInOrder(p, run, env)
      && (forall i :: |p.log| <= i < |run.p.log| ==> run.p.log[i].MembersAdded? || run.p.log[i].MembersRemoved?)
  {
    var fetched := FetchMembers(p, ref, env);
    if fetched.r.Ok? {
      var d := ProcessUsers(p.cache, users, fetched.r.value, ref.b, env.ldap);
      if d.Ok? { UpdateMembersCalls(fetched.p, ref, d.value, env); }
    }
  }

  /** Creations only, the team before the users. */
  ghost predicate Creations(p: Platform, q: Platform) {
    && p.log <= q.log && InPhases(q.log, |p.log|)
    && forall i :: |p.log| <= i < |q.log| ==> q.log[i].TeamCreated? || q.log[i].UserCreated?
  }

  lemma CreationCalls(p: Platform, name: string, users: seq<string>, b: Backend, env: Env)
    ensures
      var t := FetchOrCreate(p, name, b, env);
      Creations(p, t.p) && Creations(p, CreateUsers(t.p, users, b, env).p)
  {
    var t := FetchOrCreate(p, name, b, env);
    assert forall i :: |p.log| <= i < |t.p.log| ==> i == |p.log| && t.p.log[i].TeamCreated?;
    var u := CreateUsers(t.p, users, b, env);
    OnlyUsersCreated(t.p, users, b, env);
    assert forall i :: |p.log| <= i < |t.p.log| ==> u.p.log[i] == t.p.log[i];
  }

  lemma CreateThenUpdate(p: Platform, u: Platform, run: BackendRun, env: Env)
    requires Creations(p, u) && CallsInOrder(u, run, env)
    requires forall i :: |u.log| <= i < |run.p.log| ==> run.p.log[i].MembersAdded? || run.p.log[i].MembersRemoved?
    ensures CallsInOrder(p, run, env)
  {
    assert forall i :: |p.log| <= i < |u.log| ==> run.p.log[i] == u.log[i];
  }

  /** The work for one backend makes its calls in order: the team, the users, one addition, one
      removal, each only if needed. It is aborted exactly if a membership call fails; that call is
      its last, and everything is left as this call left it. */
  lemma SyncBackendCalls(cfg: Config, p: Platform, groupName: string, users: seq<string>, b: Backend, env: Env)
    ensures CallsInOrder(p, SyncBackend(cfg, p, groupName, users, b, env), env)
  {
    var name := Transform(cfg.patterns, b.kind, groupName);
    if HasClient(cfg, b) && name.Ok? {
      var t := FetchOrCreate(p, name.value, b, env);
      CreationCalls(p, name.value, users, b, env);
      if t.r.Ok? {
        var u := CreateUsers(t.p, users, b, env);
        if u.r.Ok? {
          SyncMembersCalls(u.p, TeamRef(b, t.r.value), users, env);
          CreateThenUpdate(p, u.p, SyncMembers(u.p, TeamRef(b, t.r.value), users, env), env);
        }
      }
    }
  }

  /** The events from position `m` on fit. */
  ghost predicate AllFit(cfg: Config, p: Platform, q: Platform, groupName: string, users: seq<string>, b: Backend,
                         env: Env, log: seq<Event>, m: nat)
    requires Transform(cfg.patterns, b.kind, groupName).Ok?
  {
    forall i :: m <= i < |log| ==> Fits(cfg, p, q, groupName, users, b, env, log[i])
  }

  lemma CreationsFit(cfg: Config, p: Platform, q: Platform, groupName: string, users: seq<string>, b: Backend, env: Env)
    requires NonEmptyIds(env) && Transform(cfg.patterns, b.kind, groupName).Ok?
    requires
      var t := FetchOrCreateTeam(cfg, p, groupName, b, env);
      q.cache == if t.r.Ok? then CreateUsers(t.p, users, b, env).p.cache else t.p.cache
    ensures
      var t := FetchOrCreateTeam(cfg, p, groupName, b, env);
      && (t.r.Err? ==> t.p.log == p.log)
      && (t.r.Ok? ==>
            AllFit(cfg, p, q, groupName, users, b, env, CreateUsers(t.p, users, b, env).p.log, |p.log|))
  {
    var name := Transform(cfg.patterns, b.kind, groupName).value;
    var t := FetchOrCreate(p, name, b, env);
    if t.r.Ok? {
      var u := CreateUsers(t.p, users, b, env).p;
      CreateUsersFrame(t.p, users, b, env);
      assert CachedId(t.p.cache, name, CacheKey(b)) == t.r.value != "";
      assert CachedId(u.cache, name, CacheKey(b)) == t.r.value;
      forall i | |p.log| <= i < |u.log|
        ensures Fits(cfg, p, q, groupName, users, b, env, u.log[i])
      {
        if i < |t.p.log| {
          assert u.log[i] == t.p.log[i] == TeamCreated(b, name, t.r.value);
        } else {
          CreatedUser(t.p, users, b, env, i);
        }
      }
    }
  }

  /** What the calls for a backend carry: names of the group's team and emails of its users to
      create, with the resulting IDs cached; and in the membership calls the exact difference
      between the cached IDs of the users and the members the team had. */
  lemma SyncBackendSends(cfg: Config, p: Platform, groupName: string, users: seq<string>, b: Backend, env: Env)
    requires NonEmptyIds(env)
    ensures
      var run := SyncBackend(cfg, p, groupName, users, b, env);
      && p.log <= run.p.log
      && (Transform(cfg.patterns, b.kind, groupName).Err? ==> run.p.log == p.log)
      && (Transform(cfg.patterns, b.kind, groupName).Ok? ==>
            AllFit(cfg, p, run.p, groupName, users, b, env, run.p.log, |p.log|))
  {
    var run := SyncBackend(cfg, p, groupName, users, b, env);
    SyncBackendFrame(cfg, p, groupName, users, b, env);
    var t := FetchOrCreateTeam(cfg, p, groupName, b, env);
    if HasClient(cfg, b) && Transform(cfg.patterns, b.kind, groupName).Ok? {
      var u := CreateUsers(t.p, users, b, env);
      if t.r.Ok? && u.r.Ok? {
        SyncMembersFrame(u.p, TeamRef(b, t.r.value), users, env);
        CreationsFit(cfg, p, run.p, groupName, users, b, env);
        MembershipFits(cfg, p, groupName, users, b, env);
        assert forall i :: |p.log| <= i < |u.p.log| ==> run.p.log[i] == u.p.log[i];
      } else {
        CreationsFit(cfg, p, run.p, groupName, users, b, env);
      }
    }
  }

  lemma MembershipFits(cfg: Config, p: Platform, groupName: string, users: seq<string>, b: Backend, env: Env)
    requires NonEmptyIds(env) && Transform(cfg.patterns, b.kind, groupName).Ok?
    requires FetchOrCreateTeam(cfg, p, groupName, b, env).r.Ok?
    requires CreateUsers(FetchOrCreateTeam(cfg, p, groupName, b, env).p, users, b, env).r.Ok?
    ensures
      var t := FetchOrCreateTeam(cfg, p, groupName, b, env);
      var u := CreateUsers(t.p, users, b, env);
      var run := SyncMembers(u.p, TeamRef(b, t.r.value), users, env);
      u.p.log <= run.p.log && AllFit(cfg, p, run.p, groupName, users, b, env, run.p.log, |u.p.log|)
  {
    var t := FetchOrCreateTeam(cfg, p, groupName, b, env);
    var u := CreateUsers(t.p, users, b, env);
    var ref := TeamRef(b, t.r.value);
    TeamIsKept(cfg, p, groupName, users, b, env);
    CreateUsersCachesAll(t.p, users, b, env);
    SyncMembersFrame(u.p, ref, users, env);
    if FetchMembers(u.p, ref, env).r.Ok? {
      var existing := u.p.teams[ref].members;
      DiffExact(u.p.cache, users, existing, b, env.ldap);
      UpdateMembersCalls(Tick(u.p), ref, ProcessUsers(u.p.cache, users, existing, b, env.ldap).value, env);
    }
  }

  /** Creating users leaves the team and its cached ID alone. */
  lemma TeamIsKept(cfg: Config, p: Platform, groupName: string, users: seq<string>, b: Backend, env: Env)
    requires NonEmptyIds(env) && Transform(cfg.patterns, b.kind, groupName).Ok?
    requires FetchOrCreateTeam(cfg, p, groupName, b, env).r.Ok?
    ensures
      var t := FetchOrCreateTeam(cfg, p, groupName, b, env);
      var u := CreateUsers(t.p, users, b, env);
      var ref := TeamRef(b, t.r.value);
      CachedTeam(cfg, u.p, groupName, b) == ref && MembersOf(u.p, ref) == MembersOf(p, ref)
  {
    var name := Transform(cfg.patterns, b.kind, groupName).value;
    var t := FetchOrCreate(p, name, b, env);
    var u := CreateUsers(t.p, users, b, env);
    CreateUsersFrame(t.p, users, b, env);
    assert CachedId(t.p.cache, name, CacheKey(b)) == t.r.value != "";
    assert CachedId(u.p.cache, name, CacheKey(b)) == t.r.value;
  }

  // ---------------------------------------------------------------- the loop

  /** The first `k` backends were dealt with, and after them only the next one was touched. */
  ghost predicate StoppedAt(cfg: Config, p: Platform, groupName: string, users: seq<string>, backends: seq<Backend>,
                            env: Env, errors: map<string, Failure>, k: nat, q: Platform)
  {
    && k < |backends|
    && var before := SyncAll(cfg, p, groupName, users, backends[..k], env, errors);
       before.end.Finished? && OnlyFor(backends[k], before.p, q)
  }

  /** The backend loop is stopped exactly if some membership call in it fails. Then its last call
      is that one, everything is as it left it, and no later backend was touched. */
  lemma {:induction false} LoopStopsExactly(cfg: Config, p: Platform, groupName: string, users: seq<string>,
                                            backends: seq<Backend>, env: Env, errors: map<string, Failure>)
    ensures
      var loop := SyncAll(cfg, p, groupName, users, backends, env, errors);
      && p.log <= loop.p.log
      && (loop.end.Stopped? <==> SomeCallFails(loop.p.log, |p.log|, env.reply))
      && (loop.end.Stopped? ==>
            && loop.end.failure == BackendFault
            && LeftByFailure(loop.p, env)
            && exists k: nat :: StoppedAt(cfg, p, groupName, users, backends, env, errors, k, loop.p))
    decreases |backends|
  {
    if backends != [] {
      var c, rest := backends[0], backends[1..];
      var loop := SyncAll(cfg, p, groupName, users, backends, env, errors);
      var run := SyncBackend(cfg, p, groupName, users, c, env);
      SyncBackendCalls(cfg, p, groupName, users, c, env);
      if run.end.Aborted? {
        assert backends[..0] == [];
        SyncBackendFrame(cfg, p, groupName, users, c, env);
        assert StoppedAt(cfg, p, groupName, users, backends, env, errors, 0, run.p);
      } else {
        var errors' := if run.end.Recorded? then errors[c.kind := run.end.failure] else errors;
        LoopStopsExactly(cfg, run.p, groupName, users, rest, env, errors');
        LaterFailures(run.p.log, loop.p.log, |p.log|, env.reply);
        if loop.end.Stopped? {
          var k: nat :| StoppedAt(cfg, run.p, groupName, users, rest, env, errors', k, loop.p);
          assert backends[..k + 1][0] == c && backends[..k + 1][1..] == rest[..k];
          assert StoppedAt(cfg, p, groupName, users, backends, env, errors, k + 1, loop.p);
        }
      }
    }
  }

  lemma LaterFailures(log: seq<Event>, log': seq<Event>, m: nat, reply: nat -> Reply)
    requires m <= |log| && log <= log' && !SomeCallFails(log, m, reply)
    ensures SomeCallFails(log', m, reply) <==> SomeCallFails(log', |log|, reply)
  {
    assert forall i :: m <= i < |log| ==> log'[i] == log[i];
  }

  /** A backend whose work ended well, in a loop that had not been stopped before: at the end of
      the loop, whatever became of the others, its team and users are cached, and the team is in
      sync unless a name clashes with an ID there. */
  lemma {:induction false} SyncedBackendSettles(cfg: Config, p: Platform, groupName: string, users: seq<string>,
                                                backends: seq<Backend>, env: Env, errors: map<string, Failure>, i: nat)
    requires NonEmptyIds(env) && i < |backends|
    requires
      var ends := Ends(cfg, p, groupName, users, backends, env);
      ends[i].Synced? && forall j :: 0 <= j < i ==> !ends[j].Aborted?
    ensures
      var q := SyncAll(cfg, p, groupName, users, backends, env, errors).p;
      && Prepared(cfg, q, groupName, users, backends[i], env.ldap)
      && (NoClash(q, users, backends[i], env.ldap) ==> InSync(cfg, q, groupName, users, backends[i], env.ldap))
    decreases |backends|
  {
    var c, rest := backends[0], backends[1..];
    var run := SyncBackend(cfg, p, groupName, users, c, env);
    var ends, more := Ends(cfg, p, groupName, users, backends, env), Ends(cfg, run.p, groupName, users, rest, env);
    assert ends == [run.end] + more;
    var errors' := if run.end.Recorded? then errors[c.kind := run.end.failure] else errors;
    if i == 0 {
      SyncedIsPrepared(cfg, p, groupName, users, c, env);
      LoopKeeps(cfg, run.p, groupName, users, rest, env, errors', c);
    } else {
      assert !ends[0].Aborted?;
      assert forall j :: 0 <= j < i - 1 ==> more[j] == ends[j + 1];
      SyncedBackendSettles(cfg, run.p, groupName, users, rest, env, errors', i - 1);
    }
  }

  /** The `j`-th is the last backend of this type whose work was recorded as failed. */
  ghost predicate LastFailed(backends: seq<Backend>, ends: seq<End>, kind: string, j: int)
    requires |ends| == |backends|
  {
    && 0 <= j < |ends| && ends[j].Recorded? && backends[j].kind == kind
    && forall i :: j < i < |ends| ==> !(ends[i].Recorded? && backends[i].kind == kind)
  }

  ghost predicate NoneFailed(backends: seq<Backend>, ends: seq<End>, kind: string)
    requires |ends| == |backends|
  {
    forall i :: 0 <= i < |ends| ==> !(ends[i].Recorded? && backends[i].kind == kind)
  }

  lemma LastFailedTail(backends: seq<Backend>, ends: seq<End>, kind: string, j: nat)
    requires backends != [] && |ends| == |backends|
    ensures NoneFailed(backends, ends, kind) ==> NoneFailed(backends[1..], ends[1..], kind)
    ensures LastFailed(backends, ends, kind, j) ==>
      if j == 0 then NoneFailed(backends[1..], ends[1..], kind) else LastFailed(backends[1..], ends[1..], kind, j - 1)
  {
  }

  /** What is recorded for a type stays if no backend of the type fails later. */
  lemma {:induction false} ErrorsUntouched(cfg: Config, p: Platform, groupName: string, users: seq<string>,
                                           backends: seq<Backend>, env: Env, errors: map<string, Failure>, kind: string)
    requires SyncAll(cfg, p, groupName, users, backends, env, errors).end.Finished? && kind in errors
    requires NoneFailed(backends, Ends(cfg, p, groupName, users, backends, env), kind)
    ensures
      var found := SyncAll(cfg, p, groupName, users, backends, env, errors).end.errors;
      kind in found && found[kind] == errors[kind]
    decreases |backends|
  {
    if backends != [] {
      var c, rest := backends[0], backends[1..];
      var run := SyncBackend(cfg, p, groupName, users, c, env);
      var ends := Ends(cfg, p, groupName, users, backends, env);
      assert ends[0] == run.end && ends[1..] == Ends(cfg, run.p, groupName, users, rest, env);
      LastFailedTail(backends, ends, kind, 0);
      var errors' := if run.end.Recorded? then errors[c.kind := run.end.failure] else errors;
      ErrorsUntouched(cfg, run.p, groupName, users, rest, env, errors', kind);
    }
  }

  /** The failure recorded for a type is that of the last backend of the type that failed. */
  lemma {:induction false} ErrorsAreLatest(cfg: Config, p: Platform, groupName: string, users: seq<string>,
                                           backends: seq<Backend>, env: Env, errors: map<string, Failure>,
                                           kind: string, j: nat)
    requires SyncAll(cfg, p, groupName, users, backends, env, errors).end.Finished?
    requires LastFailed(backends, Ends(cfg, p, groupName, users, backends, env), kind, j)
    ensures
      var found := SyncAll(cfg, p, groupName, users, backends, env, errors).end.errors;
      kind in found && found[kind] == Ends(cfg, p, groupName, users, backends, env)[j].failure
    decreases |backends|
  {
    var c, rest := backends[0], backends[1..];
    var run := SyncBackend(cfg, p, groupName, users, c, env);
    var ends := Ends(cfg, p, groupName, users, backends, env);
    assert ends[0] == run.end && ends[1..] == Ends(cfg, run.p, groupName, users, rest, env);
    LastFailedTail(backends, ends, kind, j);
    var errors' := if run.end.Recorded? then errors[c.kind := run.end.failure] else errors;
    if j == 0 {
      ErrorsUntouched(cfg, run.p, groupName, users, rest, env, errors', kind);
    } else {
      ErrorsAreLatest(cfg, run.p, groupName, users, rest, env, errors', kind, j - 1);
      assert ends[1..][j - 1] == ends[j];
    }
  }

  // ---------------------------------------------------------------- the whole reconcile

  /** Nothing happens for a CR that is gone, or that is being deleted and has no finalizer. */
  lemma NothingToDo(cfg: Config, w: World, name: string, env: Env)
    requires name in w.groups ==> w.groups[name].deleting && !w.groups[name].finalizer
    ensures ReconcileGroup(cfg, w, name, env) == Reconciled(w, Ok(()))
  {
  }

  /** The members a reconcile works with: those the walk meets, each once, by first occurrence; the
      users of the group where the walk starts come first. */
  lemma MembersListedOnce(g: Groups, name: string)
    requires name in g && MembersOfGroup(g, name).Ok?
    ensures
      var users := MembersOfGroup(g, name).value;
      var walked := Walk(g, g[name].groupName, {});
      && walked.Ok? && Elems(users) == Elems(walked.value)
      && Distinct(users) && ByFirstOccurrence(users, walked.value)
      && g[name].groupName in g && DedupFrom(g[g[name].groupName].users, {}) <= users
  {
    var walked := Walk(g, g[name].groupName, {}).value;
    DedupExact(walked, {});
    var own := g[g[name].groupName].users;
    assert walked == own + walked[|own|..];
    DedupConcat(own, walked[|own|..], {});
    var users := MembersOfGroup(g, name).value;
    assert users == DedupFrom(walked, {}) && ByFirstOccurrence(users, walked);
    forall i, j | 0 <= i < j < |users|
      ensures users[i] != users[j]
    {
      assert users[i] in walked && users[j] in walked;
      assert FirstIndex(walked, users[i]) < FirstIndex(walked, users[j]);
    }
  }

  /** The status of a CR whose reconcile has begun and not been reported: only the condition
      differs from before, and it is Unknown. */
  ghost predicate LeftWaiting(cr: GroupCR, cr': GroupCR) {
    && cr'.status == cr.status.(conditions :=
         Status.SetCondition(cr.status.conditions, Condition("GroupReadyCondition", Unknown, "Waiting")))
    && Status.StatusOf(cr'.status.conditions, "GroupReadyCondition") == Some(Unknown)
  }

  /** The backend loop of the reconcile of a CR with these members. */
  function LoopOf(cfg: Config, w: World, name: string, users: seq<string>, env: Env): LoopRun
    requires name in w.groups
  {
    SyncAll(cfg, Prepare(w, name, env).w.p, w.groups[name].groupName, users, w.groups[name].backends,
            env.(ldap := Snapshot(users, env.ldap)), map[])
  }

  lemma PrepareFails(w: World, name: string, env: Env)
    requires name in w.groups
    ensures
      var r := Prepare(w, name, env).r;
      r.Err? ==> r.failure == ApiFault || r.failure.MissingGroup?
  {
    var a := AddFinalizer(w, name, env);
    Failures.DesiredFails(a.w.groups, a.w.groups[name].groups, map[]);
    var o := SetOwners(a.w, name, env);
    assert o.r.Err? ==> o.r.failure == ApiFault || o.r.failure.MissingGroup?;
  }

  ghost predicate GroupMissing(g: Groups, names: seq<string>) {
    exists n :: n in names && n !in g
  }

  /** Where the steps before the loop stop, and what they have stored by then: the finalizer comes
      first, then the owner references, then the waiting status. */
  lemma EarlyStops(w: World, name: string, env: Env)
    requires name in w.groups && Owners.Arranges(env.arrange)
    ensures
      var cr := w.groups[name];
      var r := Prepare(w, name, env);
      r.r.Err? ==>
        if !cr.finalizer && env.reply(w.p.tick).Fault? then r == Reconciled(w.(p := Tick(w.p)), Err(ApiFault))
        else StopsWithFinalizer(w.groups, name, cr.(finalizer := true), r)
  {
    var cr := w.groups[name];
    var a := AddFinalizer(w, name, env);
    if a.r.Ok? {
      assert a.w.groups == w.groups[name := cr.(finalizer := true)];
      assert Prepare(w, name, env) == Prepare(a.w, name, env);
      OwnersStop(a.w, name, env);
      var r := Prepare(w, name, env);
      if r.r.Err? { SameMissing(w.groups, name, cr.(finalizer := true), r); }
    }
  }

  lemma SameMissing(g: Groups, name: string, cr: GroupCR, r: Reconciled)
    requires name in g && r.r.Err? && StopsWithFinalizer(g[name := cr], name, cr, r)
    ensures StopsWithFinalizer(g, name, cr, r)
  {
    var g' := g[name := cr];
    assert g'[name := cr] == g' && g'.Keys == g.Keys;
    assert GroupMissing(g, cr.groups) <==> GroupMissing(g', cr.groups);
    if name in r.w.groups {
      var cr' := cr.(owners := r.w.groups[name].owners);
      assert g'[name := cr'] == g[name := cr'];
    }
  }

  /** With the finalizer in place: a listed group is missing, and nothing else is stored; or a write
      fails, that of the owner references or, after them, that of the status. */
  ghost predicate StopsWithFinalizer(g: Groups, name: string, cr: GroupCR, r: Reconciled)
    requires r.r.Err?
  {
    if GroupMissing(g, cr.groups) then r.r.failure.MissingGroup? && r.w.groups == g[name := cr]
    else
      && r.r == Err(ApiFault) && name in r.w.groups
      && r.w.groups == g[name := cr.(owners := r.w.groups[name].owners)]
      && (r.w.groups[name].owners == cr.owners || OwnersCurrent(r.w.groups, name))
  }

  lemma OwnersStop(w: World, name: string, env: Env)
    requires name in w.groups && w.groups[name].finalizer && Owners.Arranges(env.arrange)
    ensures
      var r := Prepare(w, name, env);
      r.r.Err? ==> StopsWithFinalizer(w.groups, name, w.groups[name], r)
  {
    var cr := w.groups[name];
    Owners.OwnersFollowSpec(w.groups, cr, env.arrange);
    Failures.DesiredFails(w.groups, cr.groups, map[]);
    SetOwnersEffect(w, name, env);
    var o := SetOwners(w, name, env);
    assert AddFinalizer(w, name, env) == Reconciled(w, Ok(()));
    assert w.groups[name := cr.(owners := cr.owners)] == w.groups;
    assert GroupMissing(w.groups, cr.groups) <==> Owners.NewOwners(w.groups, cr, env.arrange).Err?;
  }

  /** What precedes the loop, and how the reconcile goes on from there. */
  lemma UpToTheLoop(cfg: Config, w: World, name: string, env: Env)
    requires name in w.groups && !w.groups[name].deleting && Owners.Arranges(env.arrange)
    ensures
      var ready := Prepare(w, name, env);
      var users := MembersOfGroup(w.groups, name);
      var out := ReconcileGroup(cfg, w, name, env);
      && SameSpecs(w.groups, ready.w.groups) && Unchanged(w.p, ready.w.p)
      && (ready.r.Ok? <==> GoesThrough(w, name, env))
      && (ready.r.Err? ==> out == ready && (out.r.failure == ApiFault || out.r.failure.MissingGroup?))
      && (ready.r.Ok? ==> LeftWaiting(w.groups[name], ready.w.groups[name]))
      && (ready.r.Ok? && users.Err? ==> out == Reconciled(ready.w, Err(users.failure)) && users.failure.MissingGroup?)
      && (ready.r.Ok? && users.Ok? ==>
            var loop := LoopOf(cfg, w, name, users.value, env);
            out == match loop.end
                   case Stopped(f) => Reconciled(ready.w.(p := loop.p), Err(f))
                   case Finished(errors) => Finish(ready.w.(p := loop.p), name, users.value, errors, env))
  {
    PrepareEffect(w, name, env);
    PrepareExact(w, name, env);
    PrepareFails(w, name, env);
    var ready := Prepare(w, name, env);
    assert SameSpec(w.groups[name], ready.w.groups[name]);
    WalkSame(w.groups, ready.w.groups, w.groups[name].groupName, {});
    Failures.MembersFail(w.groups, name);
    Status.SetThenRead(w.groups[name].status.conditions, Status.WAITING, Status.GROUP_READY);
  }

  /** The loop of the reconcile stopped at the `k`-th backend. */
  ghost predicate StoppedInGroup(
    cfg: Config, w: World, name: string, users: seq<string>, env: Env, k: nat, q: Platform)
    requires name in w.groups
  {
    StoppedAt(cfg, Prepare(w, name, env).w.p, w.groups[name].groupName, users, w.groups[name].backends,
              env.(ldap := Snapshot(users, env.ldap)), map[], k, q)
  }

  lemma GroupLoopStops(cfg: Config, w: World, name: string, users: seq<string>, env: Env)
    requires name in w.groups
    ensures
      var p := Prepare(w, name, env).w.p;
      var loop := LoopOf(cfg, w, name, users, env);
      && p.log <= loop.p.log
      && (loop.end.Stopped? <==> SomeCallFails(loop.p.log, |p.log|, env.reply))
      && (loop.end.Stopped? ==>
            && loop.end.failure == BackendFault
            && LeftByFailure(loop.p, env)
            && exists k: nat :: StoppedInGroup(cfg, w, name, users, env, k, loop.p))
  {
    var p, cr := Prepare(w, name, env).w.p, w.groups[name];
    var env' := env.(ldap := Snapshot(users, env.ldap));
    LoopStopsExactly(cfg, p, cr.groupName, users, cr.backends, env', map[]);
    var loop := LoopOf(cfg, w, name, users, env);
    if loop.end.Stopped? {
      SameReplies(loop.p, env', env);
      var k: nat :| StoppedAt(cfg, p, cr.groupName, users, cr.backends, env', map[], k, loop.p);
      assert StoppedInGroup(cfg, w, name, users, env, k, loop.p);
    }
  }

  /** A failed membership call ends the reconcile of a CR that is not being deleted: exactly then
      it returns that failure. Everything is as this call left it, the backends after it are not
      touched, and the CR is left waiting with the rest of its old status. */
  lemma StoppedReconcile(cfg: Config, w: World, name: string, env: Env)
    requires name in w.groups && !w.groups[name].deleting && Owners.Arranges(env.arrange)
    ensures
      var out := ReconcileGroup(cfg, w, name, env);
      var failed := SomeCallFails(out.w.p.log, |w.p.log|, env.reply);
      && w.p.log <= out.w.p.log && name in out.w.groups
      && (out.r == Err(BackendFault) <==> failed)
      && (failed ==>
            && LeftByFailure(out.w.p, env)
            && SameSpecs(w.groups, out.w.groups) && LeftWaiting(w.groups[name], out.w.groups[name])
            && MembersOfGroup(w.groups, name).Ok?
            && exists k: nat :: StoppedInGroup(cfg, w, name, MembersOfGroup(w.groups, name).value, env, k, out.w.p))
  {
    UpToTheLoop(cfg, w, name, env);
    var users := MembersOfGroup(w.groups, name);
    var ready := Prepare(w, name, env);
    if ready.r.Ok? && users.Ok? {
      GroupLoopStops(cfg, w, name, users.value, env);
    }
  }

  lemma SameReplies(q: Platform, env: Env, env': Env)
    requires LeftByFailure(q, env) && env'.reply == env.reply
    ensures LeftByFailure(q, env')
  {
    var add, s: Platform, ref, ids :|
      ref in s.teams && env.reply(s.tick).Fault? && MembershipCall(add, s, ref, ids, env).p == q;
    assert MembershipCall(add, s, ref, ids, env').p == q;
  }

  // ---------------------------------------------------------------- the report

  ghost predicate AllSynced(ends: seq<End>) {
    forall i :: 0 <= i < |ends| ==> ends[i].Synced?
  }

  /** The entry for one backend: failed exactly if a backend of its type failed, with the failure
      of the last of these. */
  ghost predicate ReportedAs(backends: seq<Backend>, ends: seq<End>, i: nat, s: BackendStatus)
    requires |ends| == |backends| && i < |backends|
  {
    && s.backend == backends[i]
    && (s.ok <==> !SomeFailed(backends, ends, backends[i].kind))
    && (s.ok ==> s.failure == None)
    && (forall j :: LastFailed(backends, ends, backends[i].kind, j) ==> s.failure == Some(ends[j].failure))
  }

  /** The status that a finished reconcile writes. */
  ghost predicate Reported(cr: GroupCR, users: seq<string>, ends: seq<End>, status: GroupStatus)
    requires |ends| == |cr.backends|
  {
    && status.reconciledUsers == users
    && status.conditions == Status.SetCondition(cr.status.conditions,
         if AllSynced(ends) then Condition("GroupReadyCondition", True, "SuccessfullyReconciled")
         else Condition("GroupReadyCondition", False, "ReconcileFailed"))
    && Status.StatusOf(status.conditions, "GroupReadyCondition") == Some(if AllSynced(ends) then True else False)
    && status.lastAppliedGeneration == (if AllSynced(ends) then cr.generation else cr.status.lastAppliedGeneration)
    && |status.backends| == |cr.backends|
    && forall i :: 0 <= i < |cr.backends| ==> ReportedAs(cr.backends, ends, i, status.backends[i])
  }

  lemma {:induction false} ReportEntry(backends: seq<Backend>, errors: map<string, Failure>, i: nat)
    requires i < |backends|
    ensures Status.BackendReport(backends, errors)[i].failure
      == if backends[i].kind in errors then Some(errors[backends[i].kind]) else None
  {
    if i > 0 { ReportEntry(backends[1..], errors, i - 1); }
  }

  lemma ReportIsExact(cfg: Config, p: Platform, cr: GroupCR, users: seq<string>, env: Env)
    requires SyncAll(cfg, p, cr.groupName, users, cr.backends, env, map[]).end.Finished?
    ensures
      var errors := SyncAll(cfg, p, cr.groupName, users, cr.backends, env, map[]).end.errors;
      var ends := Ends(cfg, p, cr.groupName, users, cr.backends, env);
      && (errors == map[] <==> AllSynced(ends))
      && forall i :: 0 <= i < |cr.backends| ==>
           ReportedAs(cr.backends, ends, i, Status.BackendReport(cr.backends, errors)[i])
  {
    var errors := SyncAll(cfg, p, cr.groupName, users, cr.backends, env, map[]).end.errors;
    var ends := Ends(cfg, p, cr.groupName, users, cr.backends, env);
    ErrorsAreByKind(cfg, p, cr.groupName, users, cr.backends, env, map[]);
    EndsExplainKinds(cfg, p, cr.groupName, users, cr.backends, env, map[]);
    assert forall kind :: kind in errors <==> SomeFailed(cr.backends, ends, kind);
    if errors == map[] {
      forall i | 0 <= i < |ends|
        ensures ends[i].Synced?
      {
        assert !SomeFailed(cr.backends, ends, cr.backends[i].kind);
      }
    } else {
      var kind :| kind in errors;
      assert SomeFailed(cr.backends, ends, kind);
    }
    forall i | 0 <= i < |cr.backends|
      ensures ReportedAs(cr.backends, ends, i, Status.BackendReport(cr.backends, errors)[i])
    {
      ReportEntry(cr.backends, errors, i);
      var kind := cr.backends[i].kind;
      forall j | LastFailed(cr.backends, ends, kind, j)
        ensures Status.BackendReport(cr.backends, errors)[i].failure == Some(ends[j].failure)
      {
        ErrorsAreLatest(cfg, p, cr.groupName, users, cr.backends, env, map[], kind, j);
      }
    }
  }

  /** A reconcile whose loop is not stopped: it returns nil exactly if every backend ended well,
      and the status it writes, if that write goes through, reports users, condition, generation
      and each backend exactly; if not, the CR is left waiting. */
  lemma FinishedReconcile(cfg: Config, w: World, name: string, env: Env)
    requires name in w.groups && !w.groups[name].deleting && Owners.Arranges(env.arrange)
    requires GoesThrough(w, name, env) && MembersOfGroup(w.groups, name).Ok?
    requires LoopOf(cfg, w, name, MembersOfGroup(w.groups, name).value, env).end.Finished?
    ensures
      var users := MembersOfGroup(w.groups, name).value;
      var loop := LoopOf(cfg, w, name, users, env);
      var ends := Ends(cfg, Prepare(w, name, env).w.p, w.groups[name].groupName, users, w.groups[name].backends,
                       env.(ldap := Snapshot(users, env.ldap)));
      var out := ReconcileGroup(cfg, w, name, env);
      && name in out.w.groups && Unchanged(loop.p, out.w.p)
      && out.r == (if AllSynced(ends) then Ok(()) else Err(BackendsFailed))
      && if env.reply(loop.p.tick).Done? then Reported(w.groups[name], users, ends, out.w.groups[name].status)
         else LeftWaiting(w.groups[name], out.w.groups[name])
  {
    UpToTheLoop(cfg, w, name, env);
    var cr := w.groups[name];
    var users := MembersOfGroup(w.groups, name).value;
    var ready := Prepare(w, name, env);
    var errors := LoopOf(cfg, w, name, users, env).end.errors;
    ReportIsExact(cfg, ready.w.p, cr, users, env.(ldap := Snapshot(users, env.ldap)));
    var final := if errors == map[] then Status.SUCCEEDED else Status.FAILED;
    assert SameSpec(cr, ready.w.groups[name]);
    Status.LastWriteWins(cr.status.conditions, Status.WAITING, final);
    Status.SetThenRead(cr.status.conditions, final, Status.GROUP_READY);
  }

  /** A backend that a finished reconcile reports as successful is in sync, whatever became of the
      others, unless a name clashes with an ID there. */
  lemma ReportedMeansInSync(cfg: Config, w: World, name: string, env: Env, i: nat)
    requires name in w.groups && !w.groups[name].deleting && Owners.Arranges(env.arrange) && NonEmptyIds(env)
    requires GoesThrough(w, name, env) && MembersOfGroup(w.groups, name).Ok? && i < |w.groups[name].backends|
    requires
      var loop := LoopOf(cfg, w, name, MembersOfGroup(w.groups, name).value, env);
      loop.end.Finished? && env.reply(loop.p.tick).Done?
    ensures
      var out := ReconcileGroup(cfg, w, name, env);
      && name in out.w.groups && |out.w.groups[name].status.backends| == |w.groups[name].backends|
      && (out.w.groups[name].status.backends[i].ok ==>
            BackendsInSync(cfg, out.w.p, w.groups[name].groupName, MembersOfGroup(w.groups, name).value,
                           [w.groups[name].backends[i]], env.ldap))
  {
    FinishedReconcile(cfg, w, name, env);
    var cr := w.groups[name];
    var users := MembersOfGroup(w.groups, name).value;
    var env' := env.(ldap := Snapshot(users, env.ldap));
    var p := Prepare(w, name, env).w.p;
    var out := ReconcileGroup(cfg, w, name, env);
    if out.w.groups[name].status.backends[i].ok {
      var ends := Ends(cfg, p, cr.groupName, users, cr.backends, env');
      EndsExplainKinds(cfg, p, cr.groupName, users, cr.backends, env', map[]);
      assert ReportedAs(cr.backends, ends, i, out.w.groups[name].status.backends[i]);
      SyncedBackendSettles(cfg, p, cr.groupName, users, cr.backends, env', map[], i);
      var q := LoopOf(cfg, w, name, users, env).p;
      SnapshotSuffices(cfg, q, cr.groupName, users, cr.backends[i], env.ldap);
      assert Prepared(cfg, out.w.p, cr.groupName, users, cr.backends[i], env.ldap);
    }
  }
}
