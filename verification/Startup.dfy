/** Start-up: the preloaded cache is one that runs may start from. */
module Startup {
  import opened Common
  import opened Backends
  import opened Invariants
  import opened Preload
  import Reconcile
  import Runs

  lemma {:induction false} HoldsOrigin(before: Cache, batches: seq<set<Fact>>, after: Cache, e: string, k: string)
    requires Holds(before, batches, after, e, k)
    ensures Place(after, e, k).Some? ==>
      Place(before, e, k) == Place(after, e, k) || Fact(e, k, Place(after, e, k).value) in Union(batches)
    ensures Stated(Union(batches), e, k) ==> Place(after, e, k).Some?
  {
    if batches != [] {
      var init, last := batches[..|batches| - 1], batches[|batches| - 1];
      assert forall f :: f in last ==> f in Union(batches);
      assert forall i :: 0 <= i < |init| ==> init[i] == batches[i];
      assert Union(batches) == Union(init) + last;
      if Stated(last, e, k) {
        var f :| f in last && At(f, e, k) && Place(after, e, k) == Some(f.id);
        assert f == Fact(e, k, f.id);
      } else {
        HoldsOrigin(before, init, after, e, k);
        assert Stated(Union(batches), e, k) ==> Stated(Union(init), e, k);
      }
    }
  }

  /** What the backends list: accepted types, non-empty IDs, users by email, and teams that
      exist under their name. */
  ghost predicate Truthful(cfg: Config, mail: string -> bool, sources: seq<Source>, teams: map<TeamRef, Team>) {
    forall s :: s in sources && Enabled(cfg, s.b) ==>
      && Supported(s.b.kind)
      && (forall x :: x in Fetched(s.users) ==> x.id != "" && mail(x.entry))
      && (forall x :: x in Fetched(s.teams) ==>
            x.id != "" && !mail(x.entry)
            && TeamRef(s.b, x.id) in teams && teams[TeamRef(s.b, x.id)].name == x.entry)
  }

  /** A fact about a team name comes from a listed team. */
  lemma TeamFact(
    cfg: Config, mail: string -> bool, sources: seq<Source>, teams: map<TeamRef, Team>, f: Fact, b: Backend)
    requires Truthful(cfg, mail, sources, teams) && f in Union(Batches(cfg, sources))
    ensures f.id != ""
    ensures !mail(f.entry) && Supported(b.kind) && f.key == CacheKey(b) ==>
      TeamRef(b, f.id) in teams && teams[TeamRef(b, f.id)].name == f.entry
  {
    var s, x := FactSource(cfg, sources, f);
    if Supported(b.kind) { SameKey(s.b, b); }
  }

  lemma PreloadIsWellFormed(
    cfg: Config, mail: string -> bool, sources: seq<Source>, teams: map<TeamRef, Team>, cache: Cache)
    requires Truthful(cfg, mail, sources, teams) && Overlaid(map[], Batches(cfg, sources), cache)
    ensures WellFormed(cache)
  {
    var batches := Batches(cfg, sources);
    forall e | e in cache
      ensures cache[e].Ids? && cache[e].ids != map[] && forall k :: k in cache[e].ids ==> cache[e].ids[k] != ""
    {
      assert Touched(batches, e);
      TouchedUnion(batches, e);
      var f :| f in Union(batches) && f.entry == e;
      assert At(f, e, f.key) && Stated(Union(batches), e, f.key);
      assert Place(cache, e, f.key) == Place(cache, e, f.key);
      HoldsOrigin(map[], batches, cache, e, f.key);
      forall k | k in cache[e].ids
        ensures cache[e].ids[k] != ""
      {
        assert Place(cache, e, k) == Some(cache[e].ids[k]);
        HoldsOrigin(map[], batches, cache, e, k);
        TeamFact(cfg, mail, sources, teams, Fact(e, k, cache[e].ids[k]), Backend("", ""));
      }
    }
  }

  /** After a preload into an empty cache, runs may start. */
  lemma PreloadIsInitial(cfg: Config, mail: string -> bool, sources: seq<Source>, w: Reconcile.World)
    requires Truthful(cfg, mail, sources, w.p.teams) && Overlaid(map[], Batches(cfg, sources), w.p.cache)
    requires w.p.log == [] && forall n :: n in w.groups ==> NamesApart(cfg, mail, w.groups[n])
    ensures Runs.Initial(cfg, mail, w)
  {
    var cache, batches := w.p.cache, Batches(cfg, sources);
    PreloadIsWellFormed(cfg, mail, sources, w.p.teams, cache);
    forall e, b: Backend | !mail(e) && Supported(b.kind) && CachedId(cache, e, CacheKey(b)) != ""
      ensures TeamRef(b, CachedId(cache, e, CacheKey(b))) in w.p.teams
      ensures w.p.teams[TeamRef(b, CachedId(cache, e, CacheKey(b)))].name == e
    {
      var id := CachedId(cache, e, CacheKey(b));
      assert Place(cache, e, CacheKey(b)) == Some(id);
      HoldsOrigin(map[], batches, cache, e, CacheKey(b));
      TeamFact(cfg, mail, sources, w.p.teams, Fact(e, CacheKey(b), id), b);
    }
  }

  /** The operator starts: a fresh cache, the preload, and then the first world. */
  method Boot(cfg: Config, sources: seq<Source>, groups: Groups, teams: map<TeamRef, Team>, ghost mail: string -> bool)
    returns (r: Result<Reconcile.World>)
    requires Truthful(cfg, mail, sources, teams)
    requires forall n :: n in groups ==> NamesApart(cfg, mail, groups[n])
    ensures r.Ok? <==> forall i :: 0 <= i < |sources| ==> SourceOk(cfg, sources[i])
    ensures r.Ok? ==> r.value.groups == groups && r.value.p.teams == teams && Runs.Initial(cfg, mail, r.value)
    ensures r.Ok? ==> forall s :: s in sources && s.b in cfg.backends && cfg.backends[s.b].enabled ==>
      HasClient(cfg, s.b) && s.users.Ok? && s.teams.Ok?
    ensures r.Ok? ==>
      AllSourced(cfg, sources, map[], r.value.p.cache) && AllFetchedCached(cfg, sources, r.value.p.cache)
  {
    var store := new Store();
    var loaded, done := store.PreloadCache(cfg, sources);
    if loaded.Err? {
      return Err(loaded.failure);
    }
    MergeAllGives(map[], done);
    var w := Reconcile.World(groups, Platform(store.cache, teams, [], 0));
    PreloadIsInitial(cfg, mail, sources, w);
    return Ok(w);
  }
}
