/** `deleteBackendsTeam`: what it deletes, what it leaves, and that it can be retried. */
module Deletion {
  import opened Common
  import opened Naming
  import opened Backends
  import opened Reconcile

  /** `(entry, key)` is where the team of `groupName` on some listed backend is cached. */
  predicate IsTeamSlot(cfg: Config, groupName: string, backends: seq<Backend>, entry: string, key: string) {
    exists b :: b in backends && Transform(cfg.patterns, b.kind, groupName) == Ok(entry) && CacheKey(b) == key
  }

  lemma DropIdLookup(cache: Cache, entry: string, ids: map<string, string>, key: string)
    requires entry in cache && cache[entry] == Ids(ids)
    ensures forall e, k {:trigger CachedId(DropId(cache, entry, ids, key), e, k)} ::
      CachedId(DropId(cache, entry, ids, key), e, k) == if e == entry && k == key then "" else CachedId(cache, e, k)
  {
    forall e, k
      ensures CachedId(DropId(cache, entry, ids, key), e, k)
        == if e == entry && k == key then "" else CachedId(cache, e, k)
    {
      if e == entry && k != key && k in ids { assert k in ids - {key}; }
    }
  }

  /** The team cached under `name` for `b` was deleted and exactly its ID forgotten. */
  ghost predicate TeamDropped(p: Platform, q: Platform, name: string, b: Backend) {
    var id := CachedId(p.cache, name, CacheKey(b));
    && id != ""
    && (forall e, k {:trigger CachedId(q.cache, e, k)} ::
          CachedId(q.cache, e, k) == if e == name && k == CacheKey(b) then "" else CachedId(p.cache, e, k))
    && q.teams == p.teams - {TeamRef(b, id)}
    && q.log == p.log + [TeamDeleted(b, name, id)]
  }

  /** One backend: nothing happens, the call fails, or the cached team is dropped. */
  lemma DeleteCachedEffect(p: Platform, name: string, b: Backend, env: Env)
    ensures
      var q := DeleteCached(p, name, b, env);
      && (q.p == p || q.p == Tick(p) || (q.r.Ok? && TeamDropped(p, q.p, name, b)))
      && (q.r.Ok? ==> CachedId(q.p.cache, name, CacheKey(b)) == "")
  {
    if name in p.cache && p.cache[name].Ids? {
      DropIdLookup(p.cache, name, p.cache[name].ids, CacheKey(b));
    }
  }

  /** From `p` to `q` some team slots of the group were emptied and everything else kept;
      each deletion emptied a slot that held the ID of the deleted team. */
  ghost predicate Emptied(cfg: Config, groupName: string, backends: seq<Backend>, p: Platform, q: Platform) {
    && (forall e, k {:trigger CachedId(q.cache, e, k)} ::
          CachedId(q.cache, e, k) == CachedId(p.cache, e, k) ||
          (CachedId(q.cache, e, k) == "" && IsTeamSlot(cfg, groupName, backends, e, k)))
    && p.log <= q.log
    && (forall i :: |p.log| <= i < |q.log| ==>
          && q.log[i].TeamDeleted?
          && CachedId(p.cache, q.log[i].name, CacheKey(q.log[i].b)) == q.log[i].id != ""
          && CachedId(q.cache, q.log[i].name, CacheKey(q.log[i].b)) == "")
    && (forall i, j :: |p.log| <= i < j < |q.log| ==> q.log[i].b != q.log[j].b || q.log[i].name != q.log[j].name)
  }

  lemma {:induction false} DeleteTeamsEffect(
    cfg: Config, p: Platform, groupName: string, backends: seq<Backend>, env: Env)
    ensures
      var q := DeleteTeams(cfg, p, groupName, backends, env);
      && Emptied(cfg, groupName, backends, p, q.p)
      && (q.r.Ok? ==> forall e, k :: IsTeamSlot(cfg, groupName, backends, e, k) ==> CachedId(q.p.cache, e, k) == "")
      && (q.r.Ok? ==> forall b :: b in backends ==> HasClient(cfg, b) && Transform(cfg.patterns, b.kind, groupName).Ok?)
    decreases |backends|
  {
    if backends != [] {
      var b := backends[0];
      var name := Transform(cfg.patterns, b.kind, groupName);
      if name.Ok? && HasClient(cfg, b) {
        var step := DeleteCached(p, name.value, b, env);
        DeleteCachedEffect(p, name.value, b, env);
        assert IsTeamSlot(cfg, groupName, backends, name.value, CacheKey(b));
        if step.r.Ok? {
          var rest := DeleteTeams(cfg, step.p, groupName, backends[1..], env);
          DeleteTeamsEffect(cfg, step.p, groupName, backends[1..], env);
          EmptiedFirst(cfg, groupName, backends, p, step.p, rest.p, name.value);
          if rest.r.Ok? {
            forall e, k | IsTeamSlot(cfg, groupName, backends, e, k)
              ensures CachedId(rest.p.cache, e, k) == ""
            {
              var c :| c in backends && Transform(cfg.patterns, c.kind, groupName) == Ok(e) && CacheKey(c) == k;
              if c in backends[1..] { assert IsTeamSlot(cfg, groupName, backends[1..], e, k); }
            }
          }
        }
      }
    }
  }

  lemma EmptiedFirst(
    cfg: Config, groupName: string, backends: seq<Backend>, p: Platform, s: Platform, q: Platform, name: string)
    requires backends != [] && Transform(cfg.patterns, backends[0].kind, groupName) == Ok(name)
    requires s == p || s == Tick(p) || TeamDropped(p, s, name, backends[0])
    requires Emptied(cfg, groupName, backends[1..], s, q)
    ensures Emptied(cfg, groupName, backends, p, q)
  {
    var b := backends[0];
    forall e, k
      ensures CachedId(q.cache, e, k) == CachedId(p.cache, e, k) ||
              (CachedId(q.cache, e, k) == "" && IsTeamSlot(cfg, groupName, backends, e, k))
    {
      assert CachedId(q.cache, e, k) == CachedId(s.cache, e, k) || IsTeamSlot(cfg, groupName, backends[1..], e, k);
      assert b in backends;
      if IsTeamSlot(cfg, groupName, backends[1..], e, k) {
        var c :| c in backends[1..] && Transform(cfg.patterns, c.kind, groupName) == Ok(e) && CacheKey(c) == k;
        assert c in backends;
      }
    }
    forall i | |p.log| <= i < |q.log|
      ensures q.log[i].TeamDeleted?
      ensures CachedId(p.cache, q.log[i].name, CacheKey(q.log[i].b)) == q.log[i].id != ""
      ensures CachedId(q.cache, q.log[i].name, CacheKey(q.log[i].b)) == ""
    {
      if i < |s.log| {
        assert q.log[i] == s.log[i];
        assert CachedId(s.cache, name, CacheKey(b)) == "";
        assert CachedId(q.cache, name, CacheKey(b)) == "";
      } else {
        assert CachedId(s.cache, q.log[i].name, CacheKey(q.log[i].b)) == q.log[i].id != "";
      }
    }
    assert forall i :: |p.log| <= i < |s.log| ==> q.log[i] == s.log[i];
    forall i, j | |p.log| <= i < j < |q.log|
      ensures q.log[i].b != q.log[j].b || q.log[i].name != q.log[j].name
    {
      if i < |s.log| {
        assert CachedId(s.cache, q.log[j].name, CacheKey(q.log[j].b)) != "";
      }
    }
  }

  lemma EmptiedTrans(cfg: Config, groupName: string, backends: seq<Backend>, p: Platform, s: Platform, q: Platform)
    requires Emptied(cfg, groupName, backends, p, s) && Emptied(cfg, groupName, backends, s, q)
    ensures Emptied(cfg, groupName, backends, p, q)
  {
    forall e, k
      ensures CachedId(q.cache, e, k) == CachedId(p.cache, e, k) ||
              (CachedId(q.cache, e, k) == "" && IsTeamSlot(cfg, groupName, backends, e, k))
    {
      assert CachedId(s.cache, e, k) == CachedId(p.cache, e, k) || CachedId(s.cache, e, k) == "";
    }
    assert forall i :: |p.log| <= i < |s.log| ==> q.log[i] == s.log[i];
    forall i | |p.log| <= i < |q.log|
      ensures q.log[i].TeamDeleted?
      ensures CachedId(p.cache, q.log[i].name, CacheKey(q.log[i].b)) == q.log[i].id != ""
      ensures CachedId(q.cache, q.log[i].name, CacheKey(q.log[i].b)) == ""
    {
      assert i >= |s.log| ==> CachedId(s.cache, q.log[i].name, CacheKey(q.log[i].b)) == q.log[i].id != "";
    }
    forall i, j | |p.log| <= i < j < |q.log|
      ensures q.log[i].b != q.log[j].b || q.log[i].name != q.log[j].name
    {
      if i < |s.log| <= j {
        assert CachedId(s.cache, q.log[j].name, CacheKey(q.log[j].b)) != "";
      }
    }
  }

  /** Teams of backends that are not listed are left alone. */
  lemma {:induction false} DeleteTeamsSpares(cfg: Config, p: Platform, groupName: string, backends: seq<Backend>,
                                             env: Env, ref: TeamRef)
    requires ref in p.teams && ref.b !in backends
    ensures
      var q := DeleteTeams(cfg, p, groupName, backends, env).p;
      ref in q.teams && q.teams[ref] == p.teams[ref]
    decreases |backends|
  {
    if backends != [] {
      var b := backends[0];
      var name := Transform(cfg.patterns, b.kind, groupName);
      if name.Ok? && HasClient(cfg, b) {
        assert b != ref.b;
        var step := DeleteCached(p, name.value, b, env);
        assert ref in step.p.teams && step.p.teams[ref] == p.teams[ref];
        if step.r.Ok? { DeleteTeamsSpares(cfg, step.p, groupName, backends[1..], env, ref); }
      }
    }
  }

  // ---------------------------------------------------------------- when it succeeds

  /** Deletion can handle this backend: it has a client, the group name transforms for it, and
      what is cached under the name can be decoded. */
  predicate Deletable(cfg: Config, cache: Cache, groupName: string, b: Backend) {
    && HasClient(cfg, b)
    && Transform(cfg.patterns, b.kind, groupName).Ok?
    && var name := Transform(cfg.patterns, b.kind, groupName).value;
       name in cache ==> !cache[name].Garbled?
  }

  ghost predicate AllDeletable(cfg: Config, cache: Cache, groupName: string, backends: seq<Backend>) {
    forall b :: b in backends ==> Deletable(cfg, cache, groupName, b)
  }

  /** No remote call numbered from `m` to below `n` fails. */
  ghost predicate AllDone(env: Env, m: nat, n: nat) {
    forall i :: m <= i < n ==> env.reply(i).Done?
  }

  /** Every listed backend has a client and a name for the group, under which no team ID is cached. */
  ghost predicate Cleared(cfg: Config, cache: Cache, groupName: string, backends: seq<Backend>) {
    forall b :: b in backends ==>
      && HasClient(cfg, b)
      && Transform(cfg.patterns, b.kind, groupName).Ok?
      && CachedId(cache, Transform(cfg.patterns, b.kind, groupName).value, CacheKey(b)) == ""
  }

  lemma DeleteCachedExact(p: Platform, name: string, b: Backend, env: Env)
    ensures
      var q := DeleteCached(p, name, b, env);
      && p.tick <= q.p.tick
      && (q.r.Ok? <==> !(name in p.cache && p.cache[name].Garbled?) && AllDone(env, p.tick, q.p.tick))
      && (q.r.Err? ==> q.p == if name in p.cache && p.cache[name].Garbled? then p else Tick(p))
      && (forall e :: (e in q.p.cache && q.p.cache[e].Garbled?) <==> (e in p.cache && p.cache[e].Garbled?))
  {
  }

  /** `deleteBackendsTeam` succeeds exactly when every listed backend is deletable and none of its
      calls fails; and a success leaves every backend cleared. */
  lemma {:induction false} DeletionSucceedsExactly(
    cfg: Config, p: Platform, groupName: string, backends: seq<Backend>, env: Env)
    ensures
      var q := DeleteTeams(cfg, p, groupName, backends, env);
      && p.tick <= q.p.tick
      && (q.r.Ok? <==> AllDeletable(cfg, p.cache, groupName, backends) && AllDone(env, p.tick, q.p.tick))
      && (q.r.Ok? ==> Cleared(cfg, q.p.cache, groupName, backends))
    decreases |backends|
  {
    if backends != [] {
      var b, rest := backends[0], backends[1..];
      assert b in backends && forall c :: c in backends <==> c == b || c in rest;
      if Deletable(cfg, p.cache, groupName, b) {
        var name := Transform(cfg.patterns, b.kind, groupName).value;
        var step := DeleteCached(p, name, b, env);
        DeleteCachedExact(p, name, b, env);
        if step.r.Ok? {
          DeletionSucceedsExactly(cfg, step.p, groupName, rest, env);
          assert AllDeletable(cfg, step.p.cache, groupName, rest) <==> AllDeletable(cfg, p.cache, groupName, rest) by {
            assert forall c :: c in rest ==>
              (Deletable(cfg, step.p.cache, groupName, c) <==> Deletable(cfg, p.cache, groupName, c));
          }
          var q := DeleteTeams(cfg, p, groupName, backends, env);
          if q.r.Ok? {
            DeleteTeamsEffect(cfg, p, groupName, backends, env);
            forall c | c in backends
              ensures CachedId(q.p.cache, Transform(cfg.patterns, c.kind, groupName).value, CacheKey(c)) == ""
            {
              assert Deletable(cfg, p.cache, groupName, c);
              assert IsTeamSlot(cfg, groupName, backends,
                                Transform(cfg.patterns, c.kind, groupName).value, CacheKey(c));
            }
          }
        }
      }
    }
  }

  /** The first failure stops it: the backends before the `k`-th were dealt with, and the `k`-th
      either is not deletable, and nothing happens any more, or its one call fails, and is the last. */
  ghost predicate FailsAt(
    cfg: Config, p: Platform, groupName: string, backends: seq<Backend>, k: nat, q: Platform, env: Env)
  {
    && k < |backends|
    && var before := DeleteTeams(cfg, p, groupName, backends[..k], env);
       && before.r.Ok?
       && if Deletable(cfg, before.p.cache, groupName, backends[k])
          then q == Tick(before.p) && env.reply(before.p.tick).Fault?
          else q == before.p
  }

  lemma {:induction false} DeletionStopsAtFirst(
    cfg: Config, p: Platform, groupName: string, backends: seq<Backend>, env: Env) returns (k: nat)
    requires DeleteTeams(cfg, p, groupName, backends, env).r.Err?
    ensures FailsAt(cfg, p, groupName, backends, k, DeleteTeams(cfg, p, groupName, backends, env).p, env)
    decreases |backends|
  {
    var b, rest := backends[0], backends[1..];
    var name := Transform(cfg.patterns, b.kind, groupName);
    k := 0;
    if name.Ok? && HasClient(cfg, b) {
      var step := DeleteCached(p, name.value, b, env);
      DeleteCachedExact(p, name.value, b, env);
      if step.r.Ok? {
        var k' := DeletionStopsAtFirst(cfg, step.p, groupName, rest, env);
        k := k' + 1;
        assert backends[..k][0] == b && backends[..k][1..] == rest[..k'];
      }
    }
  }

  // ---------------------------------------------------------------- retries

  /** Any number of tries, one after the other, each with its own environment. */
  function Tries(cfg: Config, p: Platform, groupName: string, backends: seq<Backend>, envs: seq<Env>): After<()>
    requires envs != []
    decreases |envs|
  {
    var first := DeleteTeams(cfg, p, groupName, backends, envs[0]);
    if |envs| == 1 then first else Tries(cfg, first.p, groupName, backends, envs[1..])
  }

  lemma {:induction false} TriesEmpty(
    cfg: Config, p: Platform, groupName: string, backends: seq<Backend>, envs: seq<Env>)
    requires envs != []
    ensures
      var q := Tries(cfg, p, groupName, backends, envs);
      && Emptied(cfg, groupName, backends, p, q.p)
      && (q.r.Ok? ==> Cleared(cfg, q.p.cache, groupName, backends))
    decreases |envs|
  {
    DeleteTeamsEffect(cfg, p, groupName, backends, envs[0]);
    DeletionSucceedsExactly(cfg, p, groupName, backends, envs[0]);
    if |envs| > 1 {
      var first := DeleteTeams(cfg, p, groupName, backends, envs[0]).p;
      TriesEmpty(cfg, first, groupName, backends, envs[1..]);
      EmptiedTrans(cfg, groupName, backends, p, first, Tries(cfg, first, groupName, backends, envs[1..]).p);
    }
  }

  /** Retrying any number of times, whatever fails on the way, never deletes a team twice;
      and once the last try succeeds every listed backend is cleared, while every other cached
      ID is what it was before the first. */
  lemma DeletionIsRetryable(cfg: Config, p: Platform, groupName: string, backends: seq<Backend>, envs: seq<Env>)
    requires envs != []
    ensures
      var q := Tries(cfg, p, groupName, backends, envs);
      && p.log <= q.p.log
      && (forall i :: |p.log| <= i < |q.p.log| ==> q.p.log[i].TeamDeleted?)
      && (forall i, j :: |p.log| <= i < j < |q.p.log| ==>
            q.p.log[i].b != q.p.log[j].b || q.p.log[i].name != q.p.log[j].name)
      && (forall e, k :: !IsTeamSlot(cfg, groupName, backends, e, k) ==>
            CachedId(q.p.cache, e, k) == CachedId(p.cache, e, k))
      && (q.r.Ok? ==> Cleared(cfg, q.p.cache, groupName, backends))
  {
    TriesEmpty(cfg, p, groupName, backends, envs);
  }
}
