/** `preloadCache`: the IDs of all users and teams of all enabled backends are merged
    into the cache. Backends come in the order of the configuration, teams after users;
    within one fetched map the order is Go's. */
module Preload {
  import opened Common
  import opened Backends

  /** A user's email or a team's name, with its ID on one backend. */
  datatype Item = Item(entry: string, id: string)

  /** A configured backend and what its two fetches return: the items of a Go map, in the order
      in which a loop over the map meets them. */
  datatype Source = Source(b: Backend, users: Result<seq<Item>>, teams: Result<seq<Item>>)

  /** An ID for a place of the cache. */
  datatype Fact = Fact(entry: string, key: string, id: string)

  function FactList(b: Backend, items: seq<Item>): (r: seq<Fact>)
    ensures |r| == |items| && forall i :: 0 <= i < |r| ==> r[i] == Fact(items[i].entry, CacheKey(b), items[i].id)
  {
    seq(|items|, i requires 0 <= i < |items| => Fact(items[i].entry, CacheKey(b), items[i].id))
  }

  function Fetched(r: Result<seq<Item>>): seq<Item> {
    if r.Ok? then r.value else []
  }

  predicate Enabled(cfg: Config, b: Backend) {
    b in cfg.backends && cfg.backends[b].enabled
  }

  /** The fetched maps of one source in the order in which they are merged. */
  function SourceLists(cfg: Config, s: Source): seq<seq<Fact>> {
    if Enabled(cfg, s.b) then [FactList(s.b, Fetched(s.users)), FactList(s.b, Fetched(s.teams))] else []
  }

  function Lists(cfg: Config, sources: seq<Source>): seq<seq<Fact>> {
    if sources == [] then []
    else Lists(cfg, sources[..|sources| - 1]) + SourceLists(cfg, sources[|sources| - 1])
  }

  /** The same maps without the order inside each of them. */
  function Sets(lists: seq<seq<Fact>>): (r: seq<set<Fact>>)
    ensures |r| == |lists| && forall i :: 0 <= i < |r| ==> r[i] == Elems(lists[i])
  {
    seq(|lists|, i requires 0 <= i < |lists| => Elems(lists[i]))
  }

  function Batches(cfg: Config, sources: seq<Source>): seq<set<Fact>> {
    Sets(Lists(cfg, sources))
  }

  /** Nothing keeps this source from being merged. */
  predicate SourceOk(cfg: Config, s: Source) {
    Enabled(cfg, s.b) ==> HasClient(cfg, s.b) && s.users.Ok? && s.teams.Ok?
  }

  ghost predicate SourcesOk(cfg: Config, sources: seq<Source>) {
    forall i :: 0 <= i < |sources| ==> SourceOk(cfg, sources[i])
  }

  // ---------------------------------------------------------------- the result

  /** The ID cached at a place, if there is one. */
  function Place(cache: Cache, e: string, k: string): Option<string> {
    if e in cache && cache[e].Ids? && k in cache[e].ids then Some(cache[e].ids[k]) else None
  }

  predicate At(f: Fact, e: string, k: string) {
    f.entry == e && f.key == k
  }

  /** Some fact speaks about this place. */
  ghost predicate Stated(facts: set<Fact>, e: string, k: string) {
    exists f :: f in facts && At(f, e, k)
  }

  predicate Mentions(facts: set<Fact>, e: string) {
    exists f :: f in facts && f.entry == e
  }

  /** Some batch touches this entry. */
  predicate Touched(batches: seq<set<Fact>>, e: string) {
    exists i :: 0 <= i < |batches| && Mentions(batches[i], e)
  }

  /** The place holds an ID of the last batch that speaks about it, or else what it held. */
  ghost predicate Holds(before: Cache, batches: seq<set<Fact>>, after: Cache, e: string, k: string) {
    if batches == [] then Place(after, e, k) == Place(before, e, k)
    else
      var last := batches[|batches| - 1];
      if Stated(last, e, k) then exists f :: f in last && At(f, e, k) && Place(after, e, k) == Some(f.id)
      else Holds(before, batches[..|batches| - 1], after, e, k)
  }

  /** `after` is `before` overlaid with the batches in order. */
  ghost predicate Overlaid(before: Cache, batches: seq<set<Fact>>, after: Cache) {
    && (forall e :: e in after <==> e in before || Touched(batches, e))
    && (forall e :: e in before && !Touched(batches, e) ==> after[e] == before[e])
    && (forall e :: Touched(batches, e) ==> after[e].Ids?)
    && (forall e, k {:trigger Place(after, e, k)} :: Holds(before, batches, after, e, k))
  }

  /** The values that the facts go into can be decoded. */
  ghost predicate ReadableList(before: Cache, list: seq<Fact>) {
    forall i :: 0 <= i < |list| && list[i].entry in before ==> before[list[i].entry].Ids?
  }

  ghost predicate Readable(before: Cache, lists: seq<seq<Fact>>) {
    forall i :: 0 <= i < |lists| ==> ReadableList(before, lists[i])
  }

  // ---------------------------------------------------------------- merging

  lemma {:induction false} HoldsSame(before: Cache, batches: seq<set<Fact>>, a: Cache, b: Cache, e: string, k: string)
    requires Holds(before, batches, a, e, k) && Place(a, e, k) == Place(b, e, k)
    ensures Holds(before, batches, b, e, k)
  {
    if batches != [] && !Stated(batches[|batches| - 1], e, k) {
      HoldsSame(before, batches[..|batches| - 1], a, b, e, k);
    }
  }

  lemma OverlayNothing(cache: Cache)
    ensures Overlaid(cache, [], cache)
  {
    assert forall e, k :: Holds(cache, [], cache, e, k);
  }

  lemma TouchedSnoc(batches: seq<set<Fact>>, last: set<Fact>, e: string)
    ensures Touched(batches + [last], e) <==> Touched(batches, e) || Mentions(last, e)
  {
    var all := batches + [last];
    if Touched(all, e) {
      var i :| 0 <= i < |all| && Mentions(all[i], e);
      if i < |batches| { assert all[i] == batches[i]; }
    }
    if Touched(batches, e) {
      var i :| 0 <= i < |batches| && Mentions(batches[i], e);
      assert all[i] == batches[i];
    }
    assert all[|batches|] == last;
  }

  /** A batch begins with nothing merged. */
  lemma OpenBatch(before: Cache, batches: seq<set<Fact>>, cache: Cache)
    requires Overlaid(before, batches, cache)
    ensures Overlaid(before, batches + [{}], cache)
  {
    var all := batches + [{}];
    assert all[..|batches|] == batches;
    forall e
      ensures Touched(all, e) <==> Touched(batches, e)
    {
      TouchedSnoc(batches, {}, e);
    }
    forall e, k
      ensures Holds(before, all, cache, e, k)
    {
      assert Place(cache, e, k) == Place(cache, e, k);
    }
  }

  function Put(cache: Cache, f: Fact): Cache {
    var ids := if f.entry in cache && cache[f.entry].Ids? then cache[f.entry].ids else map[];
    cache[f.entry := Ids(ids[f.key := f.id])]
  }

  lemma HoldsStep(before: Cache, batches: seq<set<Fact>>, done: set<Fact>, cache: Cache, f: Fact, e: string, k: string)
    requires Holds(before, batches + [done], cache, e, k)
    requires f.entry in cache ==> cache[f.entry].Ids?
    ensures Holds(before, batches + [done + {f}], Put(cache, f), e, k)
  {
    var after := Put(cache, f);
    assert (batches + [done])[..|batches|] == batches && (batches + [done + {f}])[..|batches|] == batches;
    if At(f, e, k) {
      assert f in done + {f} && Place(after, e, k) == Some(f.id);
    } else {
      assert Place(after, e, k) == Place(cache, e, k);
      assert Stated(done + {f}, e, k) <==> Stated(done, e, k);
      if Stated(done, e, k) {
        var g :| g in done && At(g, e, k) && Place(cache, e, k) == Some(g.id);
        assert g in done + {f};
      } else {
        HoldsSame(before, batches, cache, after, e, k);
      }
    }
  }

  /** One fact more of the current batch. */
  lemma OverlayStep(before: Cache, batches: seq<set<Fact>>, done: set<Fact>, cache: Cache, f: Fact)
    requires Overlaid(before, batches + [done], cache)
    requires f.entry in cache ==> cache[f.entry].Ids?
    ensures Overlaid(before, batches + [done + {f}], Put(cache, f))
  {
    var all, all' := batches + [done], batches + [done + {f}];
    forall e
      ensures Touched(all', e) <==> Touched(all, e) || e == f.entry
    {
      TouchedSnoc(batches, done, e);
      TouchedSnoc(batches, done + {f}, e);
      assert f in done + {f};
    }
    forall e, k
      ensures Holds(before, all', Put(cache, f), e, k)
    {
      assert Place(cache, e, k) == Place(cache, e, k);
      HoldsStep(before, batches, done, cache, f, e, k);
    }
  }

  /** The same values are undecodable. */
  ghost predicate SameBad(a: Cache, b: Cache) {
    forall e :: (e in a && !a[e].Ids?) <==> (e in b && !b[e].Ids?)
  }

  /** One fetched map. */
  function MergeList(cache: Cache, list: seq<Fact>): Cache {
    if list == [] then cache else Put(MergeList(cache, list[..|list| - 1]), list[|list| - 1])
  }

  /** All fetched maps, one after the other. */
  function MergeAll(cache: Cache, lists: seq<seq<Fact>>): Cache {
    if lists == [] then cache else MergeList(MergeAll(cache, lists[..|lists| - 1]), lists[|lists| - 1])
  }

  lemma {:induction false} MergeAllConcat(cache: Cache, x: seq<seq<Fact>>, y: seq<seq<Fact>>)
    ensures MergeAll(cache, x + y) == MergeAll(MergeAll(cache, x), y)
  {
    if y == [] {
      assert x + y == x;
    } else {
      var n := |y| - 1;
      assert (x + y)[..|x| + n] == x + y[..n];
      MergeAllConcat(cache, x, y[..n]);
    }
  }

  lemma MergeAllSnoc(cache: Cache, x: seq<seq<Fact>>, list: seq<Fact>)
    ensures MergeAll(cache, x + [list]) == MergeList(MergeAll(cache, x), list)
  {
    assert (x + [list])[..|x|] == x;
  }

  lemma MergeOneOrTwo(cache: Cache, x: seq<Fact>, y: seq<Fact>)
    ensures MergeAll(cache, [x]) == MergeList(cache, x)
    ensures MergeAll(cache, [x, y]) == MergeList(MergeList(cache, x), y)
  {
    MergeAllSnoc(cache, [], x);
    MergeAllSnoc(cache, [x], y);
    assert [] + [x] == [x] && [x] + [y] == [x, y];
  }

  lemma PutKeepsBad(before: Cache, cache: Cache, f: Fact)
    requires SameBad(before, cache) && (f.entry in before ==> before[f.entry].Ids?)
    ensures SameBad(before, Put(cache, f)) && (f.entry in cache ==> cache[f.entry].Ids?)
  {
  }

  /** Merging one more map gives the overlay with it. */
  lemma {:induction false} MergeListGives(before: Cache, batches: seq<set<Fact>>, cache: Cache, list: seq<Fact>)
    requires Overlaid(before, batches, cache) && SameBad(before, cache) && ReadableList(before, list)
    ensures Overlaid(before, batches + [Elems(list)], MergeList(cache, list))
    ensures SameBad(before, MergeList(cache, list))
    decreases |list|
  {
    if list == [] {
      assert Elems(list) == {};
      OpenBatch(before, batches, cache);
    } else {
      var n := |list| - 1;
      var init, f := list[..n], list[n];
      MergeListGives(before, batches, cache, init);
      var merged := MergeList(cache, init);
      PutKeepsBad(before, merged, f);
      OverlayStep(before, batches, Elems(init), merged, f);
      assert Elems(list) == Elems(init) + {f};
    }
  }

  /** Merging decodable values gives the overlay, and leaves the same values undecodable. */
  lemma {:induction false} MergeAllGives(before: Cache, lists: seq<seq<Fact>>)
    requires Readable(before, lists)
    ensures Overlaid(before, Sets(lists), MergeAll(before, lists)) && SameBad(before, MergeAll(before, lists))
  {
    if lists == [] {
      assert Sets(lists) == [];
      OverlayNothing(before);
    } else {
      var n := |lists| - 1;
      assert Sets(lists) == Sets(lists[..n]) + [Elems(lists[n])];
      assert ReadableList(before, lists[n]);
      MergeAllGives(before, lists[..n]);
      MergeListGives(before, Sets(lists[..n]), MergeAll(before, lists[..n]), lists[n]);
    }
  }

  // ---------------------------------------------------------------- the loops

  /** All complete maps, then a part of the next: what a merge that stops has done. */
  ghost predicate Prefix(done: seq<seq<Fact>>, lists: seq<seq<Fact>>) {
    && |done| <= |lists|
    && (forall i :: 0 <= i < |done| ==> done[i] <= lists[i])
    && (forall i :: 0 <= i < |done| - 1 ==> done[i] == lists[i])
  }

  lemma {:induction false} ListsGrow(cfg: Config, sources: seq<Source>, i: nat)
    requires i <= |sources|
    ensures Lists(cfg, sources[..i]) <= Lists(cfg, sources)
    decreases |sources|
  {
    if i == |sources| {
      assert sources[..i] == sources;
    } else {
      var init := sources[..|sources| - 1];
      assert init[..i] == sources[..i];
      ListsGrow(cfg, init, i);
    }
  }

  lemma {:induction false} ListsConcat(cfg: Config, a: seq<Source>, z: seq<Source>)
    ensures Lists(cfg, a + z) == Lists(cfg, a) + Lists(cfg, z)
    decreases |z|
  {
    if z == [] {
      assert a + z == a;
    } else {
      var n := |z| - 1;
      assert (a + z)[..|a + z| - 1] == a + z[..n] && (a + z)[|a + z| - 1] == z[n];
      ListsConcat(cfg, a, z[..n]);
      var x, y, last := Lists(cfg, a), Lists(cfg, z[..n]), SourceLists(cfg, z[n]);
      assert (x + y) + last == x + (y + last);
    }
  }

  /** A backend that is not configured or not enabled does not count, wherever it stands in the list. */
  lemma DisabledDoesNotCount(cfg: Config, a: seq<Source>, s: Source, z: seq<Source>)
    requires s.b in cfg.backends ==> !cfg.backends[s.b].enabled
    ensures SourceOk(cfg, s) && Lists(cfg, a + [s] + z) == Lists(cfg, a + z)
  {
    ListsConcat(cfg, a + [s], z);
    ListsConcat(cfg, a, [s]);
    ListsConcat(cfg, a, z);
    assert [s][..0] == [] && Lists(cfg, [s]) == [];
    assert Lists(cfg, a) + [] == Lists(cfg, a);
  }

  lemma NextLists(cfg: Config, sources: seq<Source>, i: nat)
    requires i < |sources|
    ensures Lists(cfg, sources[..i + 1]) == Lists(cfg, sources[..i]) + SourceLists(cfg, sources[i])
    ensures Lists(cfg, sources[..i + 1]) <= Lists(cfg, sources)
  {
    assert sources[..i + 1][..i] == sources[..i];
    ListsGrow(cfg, sources, i + 1);
  }

  lemma PrefixExtends(lists: seq<seq<Fact>>, done: seq<seq<Fact>>, next: seq<seq<Fact>>, all: seq<seq<Fact>>)
    requires lists + next <= all && Prefix(done, next)
    ensures Prefix(lists + done, all)
  {
    var some := lists + done;
    assert forall i :: 0 <= i < |some| ==> (lists + next)[i] == all[i];
  }

  lemma ReadableBoth(before: Cache, a: seq<seq<Fact>>, b: seq<seq<Fact>>)
    ensures Readable(before, a + b) <==> Readable(before, a) && Readable(before, b)
  {
    if Readable(before, a + b) {
      assert forall i :: 0 <= i < |a| ==> (a + b)[i] == a[i];
      assert forall i :: 0 <= i < |b| ==> (a + b)[|a| + i] == b[i];
    }
  }

  lemma ReadablePart(before: Cache, done: seq<seq<Fact>>, next: seq<seq<Fact>>, all: seq<seq<Fact>>)
    requires done + next <= all && Readable(before, all)
    ensures Readable(before, next)
  {
    assert forall i :: 0 <= i < |done + next| ==> (done + next)[i] == all[i];
    assert Readable(before, done + next);
    ReadableBoth(before, done, next);
  }

  lemma SameBadReads(a: Cache, b: Cache, lists: seq<seq<Fact>>)
    requires SameBad(a, b)
    ensures Readable(a, lists) <==> Readable(b, lists)
  {
    forall i | 0 <= i < |lists|
      ensures ReadableList(a, lists[i]) <==> ReadableList(b, lists[i])
    {
    }
  }

  /** The lists have been merged into a cache where their facts can go. */
  ghost predicate Merged(before: Cache, cache: Cache, lists: seq<seq<Fact>>) {
    Readable(before, lists) && cache == MergeAll(before, lists) && SameBad(before, cache)
  }

  lemma MergedConcat(before: Cache, cache: Cache, after: Cache, x: seq<seq<Fact>>, y: seq<seq<Fact>>)
    requires Merged(before, cache, x) && Merged(cache, after, y)
    ensures Merged(before, after, x + y)
  {
    MergeAllConcat(before, x, y);
    SameBadReads(before, cache, y);
    ReadableBoth(before, x, y);
  }

  // ---------------------------------------------------------------- what was fetched is cached

  predicate Names(items: seq<Item>, e: string) {
    exists i :: 0 <= i < |items| && items[i].entry == e
  }

  /** The place holds the ID that one of the items gives for the entry. */
  ghost predicate HoldsOne(items: seq<Item>, after: Cache, e: string, k: string) {
    exists i :: 0 <= i < |items| && items[i].entry == e && Place(after, e, k) == Some(items[i].id)
  }

  /** What a place holds after the preload, in terms of the backends: of the enabled backends with
      this key, the last one that lists the entry decides, by its teams before its users; without
      one, the place is as before. */
  ghost predicate Sourced(cfg: Config, sources: seq<Source>, before: Cache, after: Cache, e: string, k: string) {
    if sources == [] then Place(after, e, k) == Place(before, e, k)
    else
      var s := sources[|sources| - 1];
      var teams, users := Fetched(s.teams), Fetched(s.users);
      if Enabled(cfg, s.b) && CacheKey(s.b) == k && Names(teams, e) then HoldsOne(teams, after, e, k)
      else if Enabled(cfg, s.b) && CacheKey(s.b) == k && Names(users, e) then HoldsOne(users, after, e, k)
      else Sourced(cfg, sources[..|sources| - 1], before, after, e, k)
  }

  ghost predicate AllSourced(cfg: Config, sources: seq<Source>, before: Cache, after: Cache) {
    forall e, k {:trigger Place(after, e, k)} :: Sourced(cfg, sources, before, after, e, k)
  }

  lemma StatedByItems(b: Backend, items: seq<Item>, e: string, k: string)
    ensures Stated(Elems(FactList(b, items)), e, k) <==> CacheKey(b) == k && Names(items, e)
  {
    var list := FactList(b, items);
    if CacheKey(b) == k && Names(items, e) {
      var i :| 0 <= i < |items| && items[i].entry == e;
      assert list[i] in Elems(list) && At(list[i], e, k);
    }
  }

  /** One fetched map on top: it decides, or what is below does. */
  lemma HoldsByItems(
    before: Cache, batches: seq<set<Fact>>, after: Cache, b: Backend, items: seq<Item>, e: string, k: string)
    requires Holds(before, batches + [Elems(FactList(b, items))], after, e, k)
    ensures CacheKey(b) == k && Names(items, e) ==> HoldsOne(items, after, e, k)
    ensures !(CacheKey(b) == k && Names(items, e)) ==> Holds(before, batches, after, e, k)
  {
    var list := FactList(b, items);
    StatedByItems(b, items, e, k);
    assert (batches + [Elems(list)])[..|batches|] == batches;
    if Stated(Elems(list), e, k) {
      var f :| f in Elems(list) && At(f, e, k) && Place(after, e, k) == Some(f.id);
      var i :| 0 <= i < |list| && list[i] == f;
      assert items[i].entry == e && Place(after, e, k) == Some(items[i].id);
    }
  }

  /** The overlay with all fetched maps, place by place. */
  lemma {:induction false} HoldsBySource(
    cfg: Config, sources: seq<Source>, before: Cache, after: Cache, e: string, k: string)
    requires Holds(before, Batches(cfg, sources), after, e, k)
    ensures Sourced(cfg, sources, before, after, e, k)
    decreases |sources|
  {
    if sources != [] {
      var init, s := sources[..|sources| - 1], sources[|sources| - 1];
      var below := Batches(cfg, init);
      if Enabled(cfg, s.b) {
        var users, teams := Elems(FactList(s.b, Fetched(s.users))), Elems(FactList(s.b, Fetched(s.teams)));
        assert Batches(cfg, sources) == below + [users] + [teams];
        HoldsByItems(before, below + [users], after, s.b, Fetched(s.teams), e, k);
        if !(CacheKey(s.b) == k && Names(Fetched(s.teams), e)) {
          HoldsByItems(before, below, after, s.b, Fetched(s.users), e, k);
          if !(CacheKey(s.b) == k && Names(Fetched(s.users), e)) { HoldsBySource(cfg, init, before, after, e, k); }
        }
      } else {
        assert Lists(cfg, sources) == Lists(cfg, init);
        HoldsBySource(cfg, init, before, after, e, k);
      }
    }
  }

  /** This enabled backend lists this item, as a user or as a team. */
  ghost predicate Listed(cfg: Config, sources: seq<Source>, s: Source, x: Item) {
    s in sources && Enabled(cfg, s.b) && (x in Fetched(s.users) || x in Fetched(s.teams))
  }

  /** No place is claimed with two IDs. */
  ghost predicate ClaimedOnce(cfg: Config, sources: seq<Source>) {
    forall s, t, x, y | Listed(cfg, sources, s, x) && Listed(cfg, sources, t, y) ::
      CacheKey(s.b) == CacheKey(t.b) && x.entry == y.entry ==> x.id == y.id
  }

  /** Every fetched ID has its place filled, with an ID fetched for this place, and with itself if
      no place is claimed with two IDs. */
  ghost predicate AllFetchedCached(cfg: Config, sources: seq<Source>, cache: Cache) {
    forall s, x :: Listed(cfg, sources, s, x) ==>
      && FilledBy(cfg, sources, cache, x.entry, CacheKey(s.b))
      && (ClaimedOnce(cfg, sources) ==> CachedId(cache, x.entry, CacheKey(s.b)) == x.id)
  }

  ghost predicate FilledBy(cfg: Config, sources: seq<Source>, cache: Cache, e: string, k: string) {
    exists t, y :: Listed(cfg, sources, t, y) && y.entry == e && CacheKey(t.b) == k && Place(cache, e, k) == Some(y.id)
  }

  lemma {:induction false} SourcedIsFilled(
    cfg: Config, sources: seq<Source>, before: Cache, after: Cache, s: Source, x: Item)
    requires Listed(cfg, sources, s, x) && Sourced(cfg, sources, before, after, x.entry, CacheKey(s.b))
    ensures FilledBy(cfg, sources, after, x.entry, CacheKey(s.b))
    decreases |sources|
  {
    var init, last := sources[..|sources| - 1], sources[|sources| - 1];
    var e, k := x.entry, CacheKey(s.b);
    assert Names(Fetched(s.users), e) || Names(Fetched(s.teams), e);
    if Enabled(cfg, last.b) && CacheKey(last.b) == k && Names(Fetched(last.teams), e) {
      var i :| 0 <= i < |Fetched(last.teams)| && Fetched(last.teams)[i].entry == e
        && Place(after, e, k) == Some(Fetched(last.teams)[i].id);
      assert Listed(cfg, sources, last, Fetched(last.teams)[i]);
    } else if Enabled(cfg, last.b) && CacheKey(last.b) == k && Names(Fetched(last.users), e) {
      var i :| 0 <= i < |Fetched(last.users)| && Fetched(last.users)[i].entry == e
        && Place(after, e, k) == Some(Fetched(last.users)[i].id);
      assert Listed(cfg, sources, last, Fetched(last.users)[i]);
    } else {
      assert Listed(cfg, init, s, x);
      SourcedIsFilled(cfg, init, before, after, s, x);
      var t, y :| Listed(cfg, init, t, y) && y.entry == e && CacheKey(t.b) == k && Place(after, e, k) == Some(y.id);
      assert Listed(cfg, sources, t, y);
    }
  }

  /** After a complete preload every place is as its sources say. */
  lemma MergedIsSourced(cfg: Config, sources: seq<Source>, before: Cache, after: Cache)
    requires Merged(before, after, Lists(cfg, sources))
    ensures AllSourced(cfg, sources, before, after)
  {
    MergeAllGives(before, Lists(cfg, sources));
    forall e, k
      ensures Sourced(cfg, sources, before, after, e, k)
    {
      assert Place(after, e, k) == Place(after, e, k);
      HoldsBySource(cfg, sources, before, after, e, k);
    }
  }

  lemma FilledWithItself(cfg: Config, sources: seq<Source>, cache: Cache, s: Source, x: Item)
    requires ClaimedOnce(cfg, sources) && Listed(cfg, sources, s, x)
    requires FilledBy(cfg, sources, cache, x.entry, CacheKey(s.b))
    ensures CachedId(cache, x.entry, CacheKey(s.b)) == x.id
  {
    var t, y :| Listed(cfg, sources, t, y) && y.entry == x.entry && CacheKey(t.b) == CacheKey(s.b)
      && Place(cache, x.entry, CacheKey(s.b)) == Some(y.id);
    assert y.id == x.id;
  }

  /** And so what was fetched is cached. */
  lemma SourcedIsCached(cfg: Config, sources: seq<Source>, before: Cache, after: Cache)
    requires AllSourced(cfg, sources, before, after)
    ensures AllFetchedCached(cfg, sources, after)
  {
    forall s, x | Listed(cfg, sources, s, x)
      ensures FilledBy(cfg, sources, after, x.entry, CacheKey(s.b))
      ensures ClaimedOnce(cfg, sources) ==> CachedId(after, x.entry, CacheKey(s.b)) == x.id
    {
      assert Place(after, x.entry, CacheKey(s.b)) == Place(after, x.entry, CacheKey(s.b));
      SourcedIsFilled(cfg, sources, before, after, s, x);
      if ClaimedOnce(cfg, sources) { FilledWithItself(cfg, sources, after, s, x); }
    }
  }

  /** A turn of the loop over the backends that succeeds. */
  lemma TurnSucceeds(cfg: Config, sources: seq<Source>, i: nat, before: Cache, now: Cache, after: Cache)
    requires i < |sources| && SourcesOk(cfg, sources[..i]) && SourceOk(cfg, sources[i])
    requires Merged(before, now, Lists(cfg, sources[..i])) && Merged(now, after, SourceLists(cfg, sources[i]))
    ensures Merged(before, after, Lists(cfg, sources[..i + 1])) && SourcesOk(cfg, sources[..i + 1])
  {
    NextLists(cfg, sources, i);
    MergedConcat(before, now, after, Lists(cfg, sources[..i]), SourceLists(cfg, sources[i]));
    assert sources[..i + 1] == sources[..i] + [sources[i]];
  }

  /** A turn of the loop over the backends that fails: what is merged by then, and that the whole
      preload had to fail. */
  lemma TurnFails(
    cfg: Config, sources: seq<Source>, i: nat, before: Cache, now: Cache, after: Cache, more: seq<seq<Fact>>)
    requires i < |sources| && Merged(before, now, Lists(cfg, sources[..i])) && Merged(now, after, more)
    requires Prefix(more, SourceLists(cfg, sources[i]))
    requires !(Readable(now, SourceLists(cfg, sources[i])) && SourceOk(cfg, sources[i]))
    ensures Prefix(Lists(cfg, sources[..i]) + more, Lists(cfg, sources))
    ensures Merged(before, after, Lists(cfg, sources[..i]) + more)
    ensures !(Readable(before, Lists(cfg, sources)) && SourcesOk(cfg, sources))
  {
    var done, next, all := Lists(cfg, sources[..i]), SourceLists(cfg, sources[i]), Lists(cfg, sources);
    NextLists(cfg, sources, i);
    MergedConcat(before, now, after, done, more);
    PrefixExtends(done, more, next, all);
    SameBadReads(before, now, next);
    if Readable(before, all) { ReadablePart(before, done, next, all); }
  }

  /** The cache while the application starts. */
  class Store {
    var cache: Cache

    constructor ()
      ensures cache == map[]
    {
      cache := map[];
    }

    /** One fetched user or team: read, decode, add the ID, write. */
    method MergeItem(b: Backend, item: Item) returns (r: Result<()>)
      modifies this
      ensures r.Ok? <==> (item.entry in old(cache) ==> old(cache)[item.entry].Ids?)
      ensures cache == if r.Ok? then Put(old(cache), Fact(item.entry, CacheKey(b), item.id)) else old(cache)
      ensures SameBad(old(cache), cache)
    {
      var ids: map<string, string> := map[];
      if item.entry in cache {
        if !cache[item.entry].Ids? {
          return Err(DecodeFault);
        }
        ids := cache[item.entry].ids;
      }
      cache := cache[item.entry := Ids(ids[CacheKey(b) := item.id])];
      return Ok(());
    }

    /** One of the two inner loops over the fetched items; `done` of them are merged. */
    method MergeItems(b: Backend, items: seq<Item>) returns (r: Result<()>, ghost done: nat)
      modifies this
      ensures r.Ok? <==> ReadableList(old(cache), FactList(b, items))
      ensures done <= |items| && (r.Ok? ==> done == |items|)
      ensures ReadableList(old(cache), FactList(b, items)[..done]) && SameBad(old(cache), cache)
      ensures cache == MergeList(old(cache), FactList(b, items)[..done])
    {
      ghost var list := FactList(b, items);
      for i := 0 to |items|
        invariant ReadableList(old(cache), list[..i]) && SameBad(old(cache), cache)
        invariant cache == MergeList(old(cache), list[..i])
      {
        var step := MergeItem(b, items[i]);
        if step.Err? {
          assert list[i].entry in old(cache) && !old(cache)[list[i].entry].Ids?;
          return step, i;
        }
        assert list[..i + 1][..i] == list[..i];
      }
      assert list[..|items|] == list;
      return Ok(()), |items|;
    }

    /** One turn of the loop over the backends. */
    method MergeSource(cfg: Config, s: Source) returns (r: Result<()>, ghost done: seq<seq<Fact>>)
      modifies this
      ensures r.Ok? <==> Readable(old(cache), SourceLists(cfg, s)) && SourceOk(cfg, s)
      ensures Prefix(done, SourceLists(cfg, s)) && (r.Ok? ==> done == SourceLists(cfg, s))
      ensures Merged(old(cache), cache, done)
    {
      done := [];
      if !Enabled(cfg, s.b) {
        return Ok(()), done;
      }
      if !HasClient(cfg, s.b) {
        return Err(InvalidBackend), done;
      }
      if s.users.Err? {
        return Err(s.users.failure), done;
      }
      ghost var lists := SourceLists(cfg, s);
      ghost var n;
      r, n := MergeItems(s.b, s.users.value);
      done := [lists[0][..n]];
      MergeOneOrTwo(old(cache), lists[0][..n], []);
      if r.Err? {
        assert !ReadableList(old(cache), lists[0]);
        return r, done;
      }
      assert lists[0][..n] == lists[0];
      if s.teams.Err? {
        return Err(s.teams.failure), done;
      }
      r, n := MergeItems(s.b, s.teams.value);
      done := [lists[0], lists[1][..n]];
      MergeOneOrTwo(old(cache), lists[0], lists[1][..n]);
      assert r.Ok? <==> ReadableList(old(cache), lists[1]);
      assert r.Ok? ==> lists[1][..n] == lists[1];
    }

    /** The loop over the backends: the fetched maps are merged into the cache one after the other,
        on success all of them, on failure those up to some point. */
    method MergeSources(cfg: Config, sources: seq<Source>) returns (r: Result<()>, ghost done: seq<seq<Fact>>)
      modifies this
      ensures r.Ok? <==> Readable(old(cache), Lists(cfg, sources)) && SourcesOk(cfg, sources)
      ensures Prefix(done, Lists(cfg, sources)) && (r.Ok? ==> done == Lists(cfg, sources))
      ensures Merged(old(cache), cache, done)
    {
      ghost var before := cache;
      assert sources[..0] == [];
      for i := 0 to |sources|
        invariant Merged(before, cache, Lists(cfg, sources[..i]))
        invariant SourcesOk(cfg, sources[..i])
      {
        ghost var now := cache;
        r, done := MergeSource(cfg, sources[i]);
        if r.Err? {
          TurnFails(cfg, sources, i, before, now, cache, done);
          return r, Lists(cfg, sources[..i]) + done;
        }
        TurnSucceeds(cfg, sources, i, before, now, cache);
      }
      assert sources[..|sources|] == sources;
      return Ok(()), Lists(cfg, sources);
    }

    /** `preloadCache` over the configured backends in order. It succeeds exactly when every enabled
        backend is accepted and fetched, and every value that an ID goes into can be decoded. After a
        success every place holds what `Sourced` says, and all that was fetched is cached. In every
        case the maps merged so far overlay the cache with their IDs, by `MergeAllGives`. */
    method PreloadCache(cfg: Config, sources: seq<Source>) returns (r: Result<()>, ghost done: seq<seq<Fact>>)
      modifies this
      ensures r.Ok? <==> Readable(old(cache), Lists(cfg, sources)) && SourcesOk(cfg, sources)
      ensures Prefix(done, Lists(cfg, sources)) && (r.Ok? ==> done == Lists(cfg, sources))
      ensures Merged(old(cache), cache, done)
      ensures r.Ok? ==> AllSourced(cfg, sources, old(cache), cache) && AllFetchedCached(cfg, sources, cache)
    {
      ghost var before := cache;
      r, done := MergeSources(cfg, sources);
      if r.Ok? {
        MergedIsSourced(cfg, sources, before, cache);
        SourcedIsCached(cfg, sources, before, cache);
      }
    }
  }

  // ---------------------------------------------------------------- when the order does not matter

  /** No two facts give different IDs for the same place. */
  ghost predicate Consistent(facts: set<Fact>) {
    forall f, g :: f in facts && g in facts && f.entry == g.entry && f.key == g.key ==> f.id == g.id
  }

  /** The last batch that speaks about the place gives it one ID. */
  ghost predicate Decided(batches: seq<set<Fact>>, e: string, k: string) {
    if batches == [] then true
    else
      var last := batches[|batches| - 1];
      if Stated(last, e, k) then forall f, g :: f in last && g in last && At(f, e, k) && At(g, e, k) ==> f.id == g.id
      else Decided(batches[..|batches| - 1], e, k)
  }

  /** Enough for that: no fetched map contradicts itself. Different maps may contradict each other. */
  lemma {:induction false} ConsistentMapsDecide(batches: seq<set<Fact>>, e: string, k: string)
    requires forall i :: 0 <= i < |batches| ==> Consistent(batches[i])
    ensures Decided(batches, e, k)
  {
    if batches != [] {
      assert Consistent(batches[|batches| - 1]);
      ConsistentMapsDecide(batches[..|batches| - 1], e, k);
    }
  }

  lemma {:induction false} HoldsUnique(before: Cache, batches: seq<set<Fact>>, a: Cache, b: Cache, e: string, k: string)
    requires Decided(batches, e, k) && Holds(before, batches, a, e, k) && Holds(before, batches, b, e, k)
    ensures Place(a, e, k) == Place(b, e, k)
  {
    if batches != [] {
      var last := batches[|batches| - 1];
      if Stated(last, e, k) {
        var f :| f in last && At(f, e, k) && Place(a, e, k) == Some(f.id);
        var g :| g in last && At(g, e, k) && Place(b, e, k) == Some(g.id);
        assert f.id == g.id;
      } else {
        HoldsUnique(before, batches[..|batches| - 1], a, b, e, k);
      }
    }
  }

  /** What one merged map leaves at a place: the fact that came last, or what was there. */
  lemma {:induction false} PlaceAfterList(cache: Cache, list: seq<Fact>, e: string, k: string)
    ensures list != [] && At(list[|list| - 1], e, k) ==>
      Place(MergeList(cache, list), e, k) == Some(list[|list| - 1].id)
    ensures !Stated(Elems(list), e, k) ==> Place(MergeList(cache, list), e, k) == Place(cache, e, k)
  {
    if list != [] && !Stated(Elems(list), e, k) {
      var last := list[|list| - 1];
      assert last in Elems(list) && !At(last, e, k);
      assert forall f :: f in Elems(list[..|list| - 1]) ==> f in Elems(list);
      PlaceAfterList(cache, list[..|list| - 1], e, k);
    }
  }

  /** The same maps, each iterated over in an order of its own. */
  ghost predicate Reordered(x: seq<seq<Fact>>, y: seq<seq<Fact>>) {
    |x| == |y| && forall i :: 0 <= i < |x| ==> multiset(x[i]) == multiset(y[i])
  }

  lemma ReorderedSnoc(x: seq<seq<Fact>>, y: seq<seq<Fact>>, a: seq<Fact>, b: seq<Fact>)
    requires Reordered(x, y) && multiset(a) == multiset(b)
    ensures Reordered(x + [a], y + [b])
  {
  }

  lemma ReorderedSets(x: seq<seq<Fact>>, y: seq<seq<Fact>>, before: Cache)
    requires Reordered(x, y)
    ensures Sets(x) == Sets(y) && (Readable(before, x) <==> Readable(before, y))
  {
    forall i | 0 <= i < |x|
      ensures Elems(x[i]) == Elems(y[i]) && (ReadableList(before, x[i]) <==> ReadableList(before, y[i]))
    {
      assert forall f :: f in x[i] <==> f in multiset(x[i]);
      assert forall f :: f in y[i] <==> f in multiset(y[i]);
      assert forall j :: 0 <= j < |x[i]| ==> x[i][j] in y[i];
      assert forall j :: 0 <= j < |y[i]| ==> y[i][j] in x[i];
    }
  }

  /** The map with this fact met last. */
  lemma MoveLast(list: seq<Fact>, f: Fact) returns (r: seq<Fact>)
    requires f in list
    ensures multiset(r) == multiset(list) && r != [] && r[|r| - 1] == f
  {
    var i :| 0 <= i < |list| && list[i] == f;
    r := list[..i] + list[i + 1..] + [f];
    assert list == list[..i] + [f] + list[i + 1..];
  }

  /** At an undecided place two orders of the same maps leave different IDs: the last map that
      speaks about it ends with one of its facts, or with the other. */
  lemma {:induction false} TwoOrders(before: Cache, lists: seq<seq<Fact>>, e: string, k: string)
    returns (x: seq<seq<Fact>>, y: seq<seq<Fact>>)
    requires !Decided(Sets(lists), e, k)
    ensures Reordered(x, lists) && Reordered(y, lists)
    ensures Place(MergeAll(before, x), e, k) != Place(MergeAll(before, y), e, k)
  {
    var n := |lists| - 1;
    var init, last := lists[..n], lists[n];
    assert Sets(lists)[..n] == Sets(init) && lists == init + [last];
    if Stated(Elems(last), e, k) {
      var f, g :| f in Elems(last) && g in Elems(last) && At(f, e, k) && At(g, e, k) && f.id != g.id;
      var a := MoveLast(last, f);
      var b := MoveLast(last, g);
      x, y := init + [a], init + [b];
      MergeAllSnoc(before, init, a);
      MergeAllSnoc(before, init, b);
      ReorderedSnoc(init, init, a, last);
      ReorderedSnoc(init, init, b, last);
      PlaceAfterList(MergeAll(before, init), a, e, k);
      PlaceAfterList(MergeAll(before, init), b, e, k);
    } else {
      var x0, y0 := TwoOrders(before, init, e, k);
      x, y := x0 + [last], y0 + [last];
      MergeAllSnoc(before, x0, last);
      MergeAllSnoc(before, y0, last);
      ReorderedSnoc(x0, init, last, last);
      ReorderedSnoc(y0, init, last, last);
      PlaceAfterList(MergeAll(before, x0), last, e, k);
      PlaceAfterList(MergeAll(before, y0), last, e, k);
    }
  }

  lemma SamePlaces(a: Cache, b: Cache, e: string)
    requires e in a && e in b && a[e].Ids? && b[e].Ids?
    requires forall k :: Place(a, e, k) == Place(b, e, k)
    ensures a[e] == b[e]
  {
    var x, y := a[e].ids, b[e].ids;
    assert forall k :: k in x <==> Place(a, e, k).Some?;
    assert forall k :: k in y <==> Place(b, e, k).Some?;
    assert x.Keys == y.Keys;
    assert forall k :: k in x ==> x[k] == Place(a, e, k).value && y[k] == Place(b, e, k).value;
  }

  lemma OverlaysEqual(before: Cache, batches: seq<set<Fact>>, a: Cache, b: Cache)
    requires forall e, k :: Decided(batches, e, k)
    requires Overlaid(before, batches, a) && Overlaid(before, batches, b)
    ensures a == b
  {
    forall e | e in a
      ensures e in b && a[e] == b[e]
    {
      if Touched(batches, e) {
        forall k
          ensures Place(a, e, k) == Place(b, e, k)
        {
          assert Holds(before, batches, a, e, k) && Holds(before, batches, b, e, k);
          HoldsUnique(before, batches, a, b, e, k);
        }
        SamePlaces(a, b, e);
      }
    }
    assert a.Keys == b.Keys;
  }

  /** The order in which Go iterates over the fetched maps does not show in the cache exactly
      when, for every place, the last map that speaks about it gives it one ID. */
  lemma OrderShowsExactly(before: Cache, lists: seq<seq<Fact>>)
    requires Readable(before, lists)
    ensures
      (forall x :: Reordered(x, lists) ==> MergeAll(before, x) == MergeAll(before, lists)) <==>
      (forall e, k :: Decided(Sets(lists), e, k))
  {
    if forall e, k :: Decided(Sets(lists), e, k) {
      forall x | Reordered(x, lists)
        ensures MergeAll(before, x) == MergeAll(before, lists)
      {
        ReorderedSets(x, lists, before);
        MergeAllGives(before, x);
        MergeAllGives(before, lists);
        OverlaysEqual(before, Sets(lists), MergeAll(before, x), MergeAll(before, lists));
      }
    } else {
      var e, k :| !Decided(Sets(lists), e, k);
      var x, y := TwoOrders(before, lists, e, k);
    }
  }

  // ---------------------------------------------------------------- when the backends may be permuted

  ghost function Union(batches: seq<set<Fact>>): set<Fact> {
    set i, f | 0 <= i < |batches| && f in batches[i] :: f
  }

  lemma {:induction false} HoldsUnion(
    before: Cache, batches: seq<set<Fact>>, all: set<Fact>, after: Cache, e: string, k: string)
    requires Consistent(all) && Union(batches) <= all && Holds(before, batches, after, e, k)
    ensures forall f :: f in Union(batches) && At(f, e, k) ==> Place(after, e, k) == Some(f.id)
    ensures !Stated(Union(batches), e, k) ==> Place(after, e, k) == Place(before, e, k)
  {
    if batches != [] {
      var init, last := batches[..|batches| - 1], batches[|batches| - 1];
      assert forall f :: f in last ==> f in Union(batches);
      assert forall i :: 0 <= i < |init| ==> init[i] == batches[i];
      assert Union(batches) == Union(init) + last;
      if Stated(last, e, k) {
        var g :| g in last && At(g, e, k) && Place(after, e, k) == Some(g.id);
        assert Stated(Union(batches), e, k);
      } else {
        HoldsUnion(before, init, all, after, e, k);
      }
    }
  }

  lemma TouchedUnion(batches: seq<set<Fact>>, e: string)
    ensures Touched(batches, e) <==> Mentions(Union(batches), e)
  {
    if Touched(batches, e) {
      var i :| 0 <= i < |batches| && Mentions(batches[i], e);
      var f :| f in batches[i] && f.entry == e;
      assert f in Union(batches);
    }
  }

  /** If what was fetched is consistent altogether, the order of the backends does not matter
      either: the result depends only on the set of facts. */
  lemma SourceOrderIrrelevant(before: Cache, xs: seq<set<Fact>>, ys: seq<set<Fact>>, a: Cache, b: Cache)
    requires Union(xs) == Union(ys) && Consistent(Union(xs))
    requires Overlaid(before, xs, a) && Overlaid(before, ys, b)
    ensures a == b
  {
    forall e
      ensures Touched(xs, e) <==> Touched(ys, e)
    {
      TouchedUnion(xs, e);
      TouchedUnion(ys, e);
    }
    forall e | e in a
      ensures e in b && a[e] == b[e]
    {
      if Touched(xs, e) {
        forall k
          ensures Place(a, e, k) == Place(b, e, k)
        {
          assert Place(a, e, k) == Place(a, e, k) && Place(b, e, k) == Place(b, e, k);
          HoldsUnion(before, xs, Union(xs), a, e, k);
          HoldsUnion(before, ys, Union(xs), b, e, k);
        }
        SamePlaces(a, b, e);
      }
    }
    assert a.Keys == b.Keys;
  }

  // ---------------------------------------------------------------- where a fact comes from

  /** One ID per email and per team name, and no email that is a team name. */
  ghost predicate UniqueItems(s: Source) {
    var items := Fetched(s.users) + Fetched(s.teams);
    forall x, y :: x in items && y in items && x.entry == y.entry ==> x.id == y.id
  }

  lemma {:induction false} FactSource(cfg: Config, sources: seq<Source>, f: Fact) returns (s: Source, x: Item)
    requires f in Union(Batches(cfg, sources))
    ensures s in sources && Enabled(cfg, s.b) && x in Fetched(s.users) + Fetched(s.teams)
    ensures f == Fact(x.entry, CacheKey(s.b), x.id)
    decreases |sources|
  {
    var lists := Lists(cfg, sources);
    var i :| 0 <= i < |lists| && f in Sets(lists)[i];
    var init := sources[..|sources| - 1];
    if i < |Lists(cfg, init)| {
      assert Sets(Lists(cfg, init))[i] == Sets(lists)[i];
      s, x := FactSource(cfg, init, f);
    } else {
      s := sources[|sources| - 1];
      var j :| 0 <= j < |lists[i]| && lists[i][j] == f;
      x := if i == |Lists(cfg, init)| then Fetched(s.users)[j] else Fetched(s.teams)[j];
    }
  }

  /** Distinct backends of accepted types, each listing one ID per email or team name: what
      is fetched is consistent altogether. */
  lemma SourcesAreConsistent(cfg: Config, sources: seq<Source>)
    requires forall s, t :: s in sources && t in sources && s.b == t.b ==> s == t
    requires forall s :: s in sources && Enabled(cfg, s.b) ==> Supported(s.b.kind) && UniqueItems(s)
    ensures Consistent(Union(Batches(cfg, sources))) && ClaimedOnce(cfg, sources)
  {
    forall s, t, x, y | Listed(cfg, sources, s, x) && Listed(cfg, sources, t, y)
      ensures CacheKey(s.b) == CacheKey(t.b) && x.entry == y.entry ==> x.id == y.id
    {
      if CacheKey(s.b) == CacheKey(t.b) {
        CacheKeyInjective(s.b, t.b);
        assert UniqueItems(s);
      }
    }
    var all := Union(Batches(cfg, sources));
    forall f, g | f in all && g in all && f.entry == g.entry && f.key == g.key
      ensures f.id == g.id
    {
      var s, x := FactSource(cfg, sources, f);
      var t, y := FactSource(cfg, sources, g);
      CacheKeyInjective(s.b, t.b);
      assert UniqueItems(s);
    }
  }
}
