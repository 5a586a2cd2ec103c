/** Nested-group expansion: the path-scoped walk of `fetchUniqueGroupMembers`
    and the deduplication that follows it. */
module Expansion {
  import opened Common

  // ---------------------------------------------------------------- deduplication

  /** The elements of `s` that are not in `seen`, each at its first occurrence. */
  function DedupFrom(s: seq<string>, seen: set<string>): (r: seq<string>)
  {
    if s == [] then []
    else if s[0] in seen then DedupFrom(s[1..], seen)
    else [s[0]] + DedupFrom(s[1..], seen + {s[0]})
  }

  lemma {:induction false} DedupElems(s: seq<string>, seen: set<string>)
    ensures Elems(DedupFrom(s, seen)) == Elems(s) - seen
    ensures seen + Elems(DedupFrom(s, seen)) == seen + Elems(s)
  {
    if s != [] {
      assert s == [s[0]] + s[1..];
      ElemsConcat([s[0]], s[1..]);
      if s[0] in seen {
        DedupElems(s[1..], seen);
      } else {
        DedupElems(s[1..], seen + {s[0]});
        ElemsConcat([s[0]], DedupFrom(s[1..], seen + {s[0]}));
      }
    }
  }

  lemma {:induction false} DedupConcat(a: seq<string>, b: seq<string>, seen: set<string>)
    ensures DedupFrom(a + b, seen) == DedupFrom(a, seen) + DedupFrom(b, seen + Elems(a))
  {
    if a == [] {
      assert a + b == b;
      assert seen + Elems(a) == seen;
    } else {
      assert (a + b)[1..] == a[1..] + b;
      var seen' := if a[0] in seen then seen else seen + {a[0]};
      DedupConcat(a[1..], b, seen');
      assert seen' + Elems(a[1..]) == seen + Elems(a);
    }
  }

  /** Nothing new in `s`: nothing is kept. */
  lemma {:induction false} DedupNothingNew(s: seq<string>, seen: set<string>)
    requires Elems(s) <= seen
    ensures DedupFrom(s, seen) == []
  {
    if s != [] {
      assert s[0] in Elems(s) && Elems(s[1..]) <= Elems(s);
      DedupNothingNew(s[1..], seen);
    }
  }

  /** Position of the first occurrence of `x`. */
  function FirstIndex(s: seq<string>, x: string): (i: nat)
    requires x in s
    ensures i < |s| && s[i] == x
    ensures forall k :: 0 <= k < i ==> s[k] != x
  {
    if s[0] == x then 0 else 1 + FirstIndex(s[1..], x)
  }

  lemma FirstIndexTail(s: seq<string>, x: string)
    requires s != [] && x in s && x != s[0]
    ensures x in s[1..] && FirstIndex(s, x) == 1 + FirstIndex(s[1..], x)
  {
  }

  /** `r` lists elements of `s` by strictly increasing first occurrence, so each once. */
  ghost predicate ByFirstOccurrence(r: seq<string>, s: seq<string>) {
    forall i, j {:trigger r[i], r[j]} :: 0 <= i < j < |r| ==>
      r[i] in s && r[j] in s && FirstIndex(s, r[i]) < FirstIndex(s, r[j])
  }

  /** Deduplication keeps exactly the elements, once each, ordered by first occurrence. */
  lemma {:induction false} DedupExact(s: seq<string>, seen: set<string>)
    ensures Elems(DedupFrom(s, seen)) == Elems(s) - seen
    ensures ByFirstOccurrence(DedupFrom(s, seen), s)
  {
    DedupElems(s, seen);
    if s != [] {
      var r := DedupFrom(s, seen);
      var seen' := if s[0] in seen then seen else seen + {s[0]};
      var tail := DedupFrom(s[1..], seen');
      DedupExact(s[1..], seen');
      var off := if s[0] in seen then 0 else 1;
      assert forall k :: off <= k < |r| ==> r[k] == tail[k - off] && r[k] in Elems(tail);
      OrderFromTail(s, r, tail, off);
    }
  }

  /** Order by first occurrence in the tail carries over to the whole list. */
  lemma OrderFromTail(s: seq<string>, r: seq<string>, tail: seq<string>, off: nat)
    requires s != [] && off <= 1 && |r| == |tail| + off && (off == 1 ==> r[0] == s[0])
    requires forall k :: off <= k < |r| ==> r[k] == tail[k - off] && r[k] != s[0] && r[k] in s
    requires ByFirstOccurrence(tail, s[1..])
    ensures ByFirstOccurrence(r, s)
  {
    forall i, j | 0 <= i < j < |r|
      ensures r[i] in s && r[j] in s && FirstIndex(s, r[i]) < FirstIndex(s, r[j])
    {
      FirstIndexTail(s, r[j]);
      if off <= i {
        FirstIndexTail(s, r[i]);
        assert FirstIndex(s[1..], tail[i - off]) < FirstIndex(s[1..], tail[j - off]);
      }
    }
  }

  /** `deduplicateMembers`: one pass with a set of the members met so far. */
  method DeduplicateMembers(members: seq<string>) returns (unique: seq<string>)
    ensures unique == DedupFrom(members, {})
  {
    var met: set<string> := {};
    unique := [];
    for i := 0 to |members|
      invariant met == Elems(members[..i])
      invariant unique == DedupFrom(members[..i], {})
    {
      assert members[..i + 1] == members[..i] + [members[i]];
      DedupConcat(members[..i], [members[i]], {});
      assert {} + Elems(members[..i]) == met;
      ElemsConcat(members[..i], [members[i]]);
      if members[i] !in met {
        met := met + {members[i]};
        unique := unique + [members[i]];
      }
    }
    assert members[..|members|] == members;
  }

  // ---------------------------------------------------------------- the walk

  /** What `fetchUniqueGroupMembers` returns for `name` when the groups in `path`
      are being expanded above it. */
  function Walk(store: Groups, name: string, path: set<string>): Result<seq<string>>
    decreases store.Keys - path, 0
  {
    if name in path then Ok([])
    else if name !in store then Err(MissingGroup(name))
    else
      match WalkAll(store, store[name].groups, path + {name})
      case Err(f) => Err(f)
      case Ok(below) => Ok(store[name].users + below)
  }

  /** The sub-groups of one group, in order; the first failure stops the walk. */
  function WalkAll(store: Groups, subs: seq<string>, path: set<string>): Result<seq<string>>
    decreases store.Keys - path, |subs|
  {
    if subs == [] then Ok([])
    else
      match Walk(store, subs[0], path)
      case Err(f) => Err(f)
      case Ok(first) =>
        match WalkAll(store, subs[1..], path)
        case Err(f) => Err(f)
        case Ok(rest) => Ok(first + rest)
  }

  lemma {:induction false} WalkAllSnoc(store: Groups, subs: seq<string>, last: string, path: set<string>)
    ensures WalkAll(store, subs + [last], path) ==
      match WalkAll(store, subs, path)
      case Err(f) => Err(f)
      case Ok(first) =>
        match Walk(store, last, path)
        case Err(f) => Err(f)
        case Ok(rest) => Ok(first + rest)
  {
    if subs == [] {
      assert (subs + [last])[1..] == [];
      assert Walk(store, last, path).Ok? ==>
        Walk(store, last, path).value + [] == [] + Walk(store, last, path).value;
    } else {
      assert (subs + [last])[1..] == subs[1..] + [last];
      WalkAllSnoc(store, subs[1..], last, path);
      var head, mid, end := Walk(store, subs[0], path), WalkAll(store, subs[1..], path), Walk(store, last, path);
      if head.Ok? && mid.Ok? && end.Ok? {
        assert head.value + (mid.value + end.value) == head.value + mid.value + end.value;
      }
    }
  }

  lemma {:induction false} WalkAllPrefixFails(store: Groups, subs: seq<string>, i: nat, path: set<string>)
    requires i <= |subs| && WalkAll(store, subs[..i], path).Err?
    ensures WalkAll(store, subs, path) == WalkAll(store, subs[..i], path)
    decreases |subs| - i
  {
    if i == |subs| {
      assert subs[..i] == subs;
    } else {
      assert subs[..i + 1] == subs[..i] + [subs[i]];
      WalkAllSnoc(store, subs[..i], subs[i], path);
      WalkAllPrefixFails(store, subs, i + 1, path);
    }
  }

  /** The mutable set `visitedOnPath` that all calls of one expansion share. */
  class VisitedPath {
    var names: set<string>

    constructor ()
      ensures names == {}
    {
      names := {};
    }
  }

  /** `fetchUniqueGroupMembers`. Whatever the outcome, the shared set is back to
      what it was on entry. */
  method FetchUniqueGroupMembers(store: Groups, groupName: string, visitedOnPath: VisitedPath)
    returns (members: Result<seq<string>>)
    modifies visitedOnPath
    ensures visitedOnPath.names == old(visitedOnPath.names)
    ensures members == Walk(store, groupName, old(visitedOnPath.names))
    decreases store.Keys - visitedOnPath.names
  {
    if groupName in visitedOnPath.names {
      return Ok([]);
    }
    ghost var onEntry := visitedOnPath.names;
    visitedOnPath.names := visitedOnPath.names + {groupName};
    if groupName !in store {
      visitedOnPath.names := visitedOnPath.names - {groupName};
      return Err(MissingGroup(groupName));
    }
    var found := store[groupName].users;
    var subs := store[groupName].groups;
    for i := 0 to |subs|
      invariant visitedOnPath.names == onEntry + {groupName}
      invariant WalkAll(store, subs[..i], onEntry + {groupName}).Ok?
      invariant found == store[groupName].users + WalkAll(store, subs[..i], onEntry + {groupName}).value
    {
      assert subs[..i + 1] == subs[..i] + [subs[i]];
      WalkAllSnoc(store, subs[..i], subs[i], onEntry + {groupName});
      var sub := FetchUniqueGroupMembers(store, subs[i], visitedOnPath);
      if sub.Err? {
        WalkAllPrefixFails(store, subs, i + 1, onEntry + {groupName});
        visitedOnPath.names := visitedOnPath.names - {groupName};
        return sub;
      }
      found := found + sub.value;
    }
    assert subs[..|subs|] == subs;
    visitedOnPath.names := visitedOnPath.names - {groupName};
    return Ok(found);
  }

  // ---------------------------------------------------------------- the visit-once reference

  datatype Visit = Visit(members: seq<string>, seen: set<string>)

  /** Depth-first traversal that expands every group once. */
  function Dfs(store: Groups, name: string, seen: set<string>): (r: Result<Visit>)
    ensures r.Ok? ==> seen <= r.value.seen
    decreases store.Keys - seen, 0
  {
    if name in seen then Ok(Visit([], seen))
    else if name !in store then Err(MissingGroup(name))
    else
      match DfsAll(store, store[name].groups, seen + {name})
      case Err(f) => Err(f)
      case Ok(v) => Ok(Visit(store[name].users + v.members, v.seen))
  }

  function DfsAll(store: Groups, subs: seq<string>, seen: set<string>): (r: Result<Visit>)
    ensures r.Ok? ==> seen <= r.value.seen
    decreases store.Keys - seen, |subs|
  {
    if subs == [] then Ok(Visit([], seen))
    else
      match Dfs(store, subs[0], seen)
      case Err(f) => Err(f)
      case Ok(v) =>
        match DfsAll(store, subs[1..], v.seen)
        case Err(f) => Err(f)
        case Ok(rest) => Ok(Visit(v.members + rest.members, rest.seen))
  }

  /** A traversal is under way: groups on `path` are open, the other groups in
      `seen` are finished, and the users of all of them are in `users`. */
  ghost predicate Progress(store: Groups, path: set<string>, seen: set<string>, users: set<string>) {
    && path <= seen <= store.Keys
    && (forall g :: g in seen - path ==> Elems(store[g].groups) <= seen)
    && (forall g :: g in seen ==> Elems(store[g].users) <= users)
  }

  /** Walking a group again adds no user. */
  lemma {:induction false} Rewalk(store: Groups, name: string, path: set<string>, seen: set<string>, users: set<string>)
    requires Progress(store, path, seen, users) && name in seen
    ensures Walk(store, name, path).Ok? && Elems(Walk(store, name, path).value) <= users
    decreases store.Keys - path, 0
  {
    if name !in path {
      var path' := path + {name};
      assert Progress(store, path', seen, users);
      RewalkAll(store, store[name].groups, path', seen, users);
      ElemsConcat(store[name].users, WalkAll(store, store[name].groups, path').value);
    }
  }

  lemma {:induction false} RewalkAll(
    store: Groups, subs: seq<string>, path: set<string>, seen: set<string>, users: set<string>)
    requires Progress(store, path, seen, users) && Elems(subs) <= seen
    ensures WalkAll(store, subs, path).Ok? && Elems(WalkAll(store, subs, path).value) <= users
    decreases store.Keys - path, |subs|
  {
    if subs != [] {
      Rewalk(store, subs[0], path, seen, users);
      RewalkAll(store, subs[1..], path, seen, users);
      ElemsConcat(Walk(store, subs[0], path).value, WalkAll(store, subs[1..], path).value);
    }
  }

  /** The two traversals fail alike, or yield the same new members in the same order. */
  ghost predicate Agree(walk: Result<seq<string>>, visit: Result<Visit>, users: set<string>) {
    match visit
    case Err(f) => walk == Err(f)
    case Ok(v) => walk.Ok? && DedupFrom(walk.value, users) == DedupFrom(v.members, users)
  }

  lemma {:induction false} WalkAgrees(
    store: Groups, name: string, path: set<string>, seen: set<string>, users: set<string>)
    requires Progress(store, path, seen, users)
    ensures Agree(Walk(store, name, path), Dfs(store, name, seen), users)
    ensures Dfs(store, name, seen).Ok? ==>
      var v := Dfs(store, name, seen).value;
      name in v.seen && Progress(store, path, v.seen, users + Elems(v.members))
    decreases store.Keys - path, 0
  {
    if name in seen {
      Rewalk(store, name, path, seen, users);
      DedupNothingNew(Walk(store, name, path).value, users);
    } else if name in store {
      var own := store[name].users;
      var subs := store[name].groups;
      var path', seen', users' := path + {name}, seen + {name}, users + Elems(own);
      assert Progress(store, path', seen', users') by {
        assert seen' - path' == seen - path;
      }
      WalkAllAgrees(store, subs, path', seen', users');
      var below := DfsAll(store, subs, seen');
      if below.Ok? {
        DedupConcat(own, WalkAll(store, subs, path').value, users);
        DedupConcat(own, below.value.members, users);
        ElemsConcat(own, below.value.members);
        assert users' + Elems(below.value.members) == users + Elems(own + below.value.members);
      }
    }
  }

  lemma {:induction false} WalkAllAgrees(
    store: Groups, subs: seq<string>, path: set<string>, seen: set<string>, users: set<string>)
    requires Progress(store, path, seen, users)
    ensures Agree(WalkAll(store, subs, path), DfsAll(store, subs, seen), users)
    ensures DfsAll(store, subs, seen).Ok? ==>
      var v := DfsAll(store, subs, seen).value;
      Elems(subs) <= v.seen && Progress(store, path, v.seen, users + Elems(v.members))
    decreases store.Keys - path, |subs|
  {
    if subs == [] {
      assert users + Elems<string>([]) == users;
    } else {
      WalkAgrees(store, subs[0], path, seen, users);
      var first := Dfs(store, subs[0], seen);
      if first.Ok? {
        var walked := Walk(store, subs[0], path).value;
        DedupElems(walked, users);
        DedupElems(first.value.members, users);
        var users' := users + Elems(first.value.members);
        assert users' == users + Elems(walked);
        WalkAllAgrees(store, subs[1..], path, first.value.seen, users');
        var rest := DfsAll(store, subs[1..], first.value.seen);
        if rest.Ok? {
          DedupConcat(walked, WalkAll(store, subs[1..], path).value, users);
          DedupConcat(first.value.members, rest.value.members, users);
          ElemsConcat(first.value.members, rest.value.members);
          assert users' + Elems(rest.value.members) == users + Elems(first.value.members + rest.value.members);
          assert Elems(subs) == {subs[0]} + Elems(subs[1..]);
        }
      }
    }
  }

  /** The main equivalence, for every store, cyclic or not, complete or not:
      the same failure, or the same member list in the same order. */
  lemma ExpansionEqualsVisitOnce(store: Groups, root: string)
    ensures
      match Dfs(store, root, {})
      case Err(f) => Walk(store, root, {}) == Err(f)
      case Ok(v) =>
        && Walk(store, root, {}).Ok?
        && DedupFrom(Walk(store, root, {}).value, {}) == DedupFrom(v.members, {})
  {
    WalkAgrees(store, root, {}, {}, {});
  }

  // ---------------------------------------------------------------- reachability

  /** Each name but the last is a stored group that lists the next one. */
  ghost predicate Chain(store: Groups, p: seq<string>) {
    && p != []
    && forall i :: 0 <= i < |p| - 1 ==> p[i] in store && p[i + 1] in store[p[i]].groups
  }

  ghost predicate Reaches(store: Groups, a: string, b: string) {
    exists p :: Chain(store, p) && p[0] == a && p[|p| - 1] == b
  }

  lemma ReachesItself(store: Groups, a: string)
    ensures Reaches(store, a, a)
  {
    assert Chain(store, [a]);
  }

  lemma ReachesMember(store: Groups, root: string, a: string, b: string)
    requires Reaches(store, root, a) && a in store && b in store[a].groups
    ensures Reaches(store, root, b)
  {
    var p :| Chain(store, p) && p[0] == root && p[|p| - 1] == a;
    var q := p + [b];
    assert Chain(store, q) && q[0] == root && q[|q| - 1] == b;
  }

  /** Everything the walk reports comes from a group that `root` reaches. */
  ghost predicate Sound(store: Groups, root: string, r: Result<seq<string>>) {
    match r
    case Ok(users) =>
      forall u :: u in users ==> exists g :: Reaches(store, root, g) && g in store && u in store[g].users
    case Err(f) => f.MissingGroup? && f.name !in store && Reaches(store, root, f.name)
  }

  lemma {:induction false} WalkSound(store: Groups, root: string, name: string, path: set<string>)
    requires Reaches(store, root, name)
    ensures Sound(store, root, Walk(store, name, path))
    decreases store.Keys - path, 0
  {
    if name !in path && name in store {
      forall sub | sub in store[name].groups
        ensures Reaches(store, root, sub)
      {
        ReachesMember(store, root, name, sub);
      }
      WalkAllSound(store, root, store[name].groups, path + {name});
    }
  }

  lemma {:induction false} WalkAllSound(store: Groups, root: string, subs: seq<string>, path: set<string>)
    requires forall sub :: sub in subs ==> Reaches(store, root, sub)
    ensures Sound(store, root, WalkAll(store, subs, path))
    decreases store.Keys - path, |subs|
  {
    if subs != [] {
      WalkSound(store, root, subs[0], path);
      WalkAllSound(store, root, subs[1..], path);
    }
  }

  lemma {:induction false} ClosedHoldsReachable(store: Groups, closed: set<string>, p: seq<string>)
    requires closed <= store.Keys
    requires forall g :: g in closed ==> Elems(store[g].groups) <= closed
    requires Chain(store, p) && p[0] in closed
    ensures p[|p| - 1] in closed
  {
    if |p| > 1 {
      assert p[1] in Elems(store[p[0]].groups);
      var rest := p[1..];
      assert Chain(store, rest) by {
        forall i | 0 <= i < |rest| - 1
          ensures rest[i] in store && rest[i + 1] in store[rest[i]].groups
        {
          assert rest[i] == p[i + 1] && rest[i + 1] == p[i + 2];
        }
      }
      ClosedHoldsReachable(store, closed, rest);
    }
  }

  /** Success means that every reachable group was stored and contributed its users. */
  lemma WalkComplete(store: Groups, root: string, g: string)
    requires Walk(store, root, {}).Ok? && Reaches(store, root, g)
    ensures g in store && forall u :: u in store[g].users ==> u in Walk(store, root, {}).value
  {
    WalkAgrees(store, root, {}, {}, {});
    var v := Dfs(store, root, {}).value;
    var walked := Walk(store, root, {}).value;
    DedupElems(walked, {});
    DedupElems(v.members, {});
    assert v.seen - {} == v.seen;
    var p :| Chain(store, p) && p[0] == root && p[|p| - 1] == g;
    ClosedHoldsReachable(store, v.seen, p);
    forall u | u in store[g].users
      ensures u in walked
    {
      assert u in Elems(store[g].users) && u in Elems(walked);
    }
  }

  /** Expansion fails exactly when a reachable group is missing; otherwise its users
      are exactly the users of the reachable groups. */
  lemma ExpansionIsReachability(store: Groups, root: string)
    ensures Walk(store, root, {}).Err? <==> exists g :: Reaches(store, root, g) && g !in store
    ensures Walk(store, root, {}).Ok? ==>
      forall u :: u in Walk(store, root, {}).value <==>
        exists g :: Reaches(store, root, g) && g in store && u in store[g].users
  {
    ReachesItself(store, root);
    WalkSound(store, root, root, {});
    if Walk(store, root, {}).Ok? {
      forall g | Reaches(store, root, g)
        ensures g in store && forall u :: u in store[g].users ==> u in Walk(store, root, {}).value
      {
        WalkComplete(store, root, g);
      }
    }
  }
}
