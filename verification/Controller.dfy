/** The reconciler as the program has it: an object whose methods read and write the
    cache, the CRs and the backends step by step. Each method is proved to have exactly
    the effect of the function that the properties are about. */
module Controller {
  import opened Common
  import opened Naming
  import opened Backends
  import opened Sync
  import opened Expansion
  import opened Reconcile
  import opened Deletion
  import opened Outcomes
  import Owners
  import Status

  class GroupReconciler {
    const cfg: Config
    var groups: Groups
    var cache: Cache
    var teams: map<TeamRef, Team>
    var log: seq<Event>
    var tick: nat
    var allLdapUserData: map<string, string>

    constructor (cfg: Config, w: World)
      ensures this.cfg == cfg && State() == w
    {
      this.cfg := cfg;
      groups := w.groups;
      cache, teams, log, tick := w.p.cache, w.p.teams, w.p.log, w.p.tick;
      allLdapUserData := map[];
    }

    function Now(): Platform
      reads this
    {
      Platform(cache, teams, log, tick)
    }

    function State(): World
      reads this
    {
      World(groups, Now())
    }

    /** What a remote call left behind. */
    method Adopt(p: Platform)
      modifies this`teams, this`log, this`tick
      requires p.cache == cache
      ensures Now() == p
    {
      teams, log, tick := p.teams, p.log, p.tick;
    }

    /** An update of a CR through the API server. */
    method Update(name: string, cr: GroupCR, env: Env) returns (r: Result<()>)
      modifies this`groups, this`tick
      ensures State() == Put(old(State()), name, cr, env).w
      ensures r == Put(old(State()), name, cr, env).r
    {
      var failed := env.reply(tick).Fault?;
      tick := tick + 1;
      if failed {
        return Err(ApiFault);
      }
      groups := groups[name := cr];
      return Ok(());
    }

    method FetchOrCreateTeam(groupName: string, b: Backend, env: Env) returns (r: Result<string>)
      modifies this`cache, this`teams, this`log, this`tick
      ensures Now() == Sync.FetchOrCreateTeam(cfg, old(Now()), groupName, b, env).p
      ensures r == Sync.FetchOrCreateTeam(cfg, old(Now()), groupName, b, env).r
    {
      var transformed := Transform(cfg.patterns, b.kind, groupName);
      if transformed.Err? {
        return Err(transformed.failure);
      }
      var name := transformed.value;
      var details: map<string, string> := map[];
      if name in cache && !cache[name].Blank? {
        if cache[name].Garbled? {
          return Err(DecodeFault);
        }
        details := cache[name].ids;
        if CacheKey(b) in details && details[CacheKey(b)] != "" {
          return Ok(details[CacheKey(b)]);
        }
      }
      var created := CreateTeam(Now(), b, name, env);
      Adopt(created.p);
      if created.r.Err? {
        return Err(created.r.failure);
      }
      details := details[CacheKey(b) := created.r.value];
      cache := cache[name := Ids(details)];
      return Ok(created.r.value);
    }

    method CreateUsersInBackendAndCache(users: seq<string>, b: Backend, env: Env) returns (r: Result<()>)
      requires env.ldap == allLdapUserData
      modifies this`cache, this`teams, this`log, this`tick
      ensures Now() == CreateUsers(old(Now()), users, b, env).p
      ensures r == CreateUsers(old(Now()), users, b, env).r
      ensures NonEmptyIds(env) ==> forall i :: |old(log)| <= i < |log| ==>
        log[i].UserCreated? && log[i].b == b && CachedId(cache, log[i].email, CacheKey(b)) == log[i].id
    {
      forall i | NonEmptyIds(env) && |log| <= i < |CreateUsers(Now(), users, b, env).p.log| {
        CreatedUser(Now(), users, b, env, i);
      }
      for i := 0 to |users|
        invariant CreateUsers(Now(), users[i..], b, env) == CreateUsers(old(Now()), users, b, env)
      {
        assert users[i..][0] == users[i] && users[i..][1..] == users[i + 1..];
        if users[i] !in allLdapUserData {
          continue;
        }
        var email := allLdapUserData[users[i]];
        var details: map<string, string> := map[];
        if email in cache && !cache[email].Blank? {
          if cache[email].Garbled? {
            return Err(DecodeFault);
          }
          details := cache[email].ids;
          if IdAt(details, CacheKey(b)) != "" {
            continue;
          }
        }
        var created := CreateUser(Now(), b, email, env);
        Adopt(created.p);
        if created.r.Err? {
          return Err(created.r.failure);
        }
        details := details[CacheKey(b) := created.r.value];
        cache := cache[email := Ids(details)];
      }
      assert users[|users|..] == [];
      return Ok(());
    }

    /** The cached ID of one user. */
    method FindId(email: string, b: Backend) returns (r: Result<Option<string>>)
      ensures r == LookUpId(cache, email, b)
    {
      if email !in cache {
        return Err(CacheMiss);
      }
      if cache[email].Blank? {
        return Ok(None);
      }
      if cache[email].Garbled? {
        return Err(DecodeFault);
      }
      var userId := IdAt(cache[email].ids, CacheKey(b));
      return if userId == "" then Err(NoUserId) else Ok(Some(userId));
    }

    /** The first loop of `processUsers`. */
    method CollectIds(groupUsers: seq<string>, existing: set<string>, b: Backend)
      returns (ids: Result<Option<seq<string>>>, names: seq<string>)
      ensures ids == IdsToSync(cache, groupUsers, b, allLdapUserData, [])
      ensures ids.Ok? && ids.value.Some? ==> names == NamesToRemove(groupUsers, existing, allLdapUserData, [])
    {
      var toSync: seq<string> := [];
      names := [];
      for i := 0 to |groupUsers|
        invariant IdsToSync(cache, groupUsers[i..], b, allLdapUserData, toSync)
          == IdsToSync(cache, groupUsers, b, allLdapUserData, [])
        invariant NamesToRemove(groupUsers[i..], existing, allLdapUserData, names)
          == NamesToRemove(groupUsers, existing, allLdapUserData, [])
      {
        var user := groupUsers[i];
        assert groupUsers[i..][0] == user && groupUsers[i..][1..] == groupUsers[i + 1..];
        if user !in allLdapUserData {
          if user in existing {
            names := names + [user];
          }
          continue;
        }
        var found := FindId(allLdapUserData[user], b);
        if found.Err? {
          return Err(found.failure), names;
        }
        if found.value.None? {
          return Ok(None), names;
        }
        toSync := toSync + [found.value.value];
      }
      assert groupUsers[|groupUsers|..] == [];
      return Ok(Some(toSync)), names;
    }

    /** `processUsers`: its three loops. */
    method ProcessUsers(groupUsers: seq<string>, existing: set<string>, b: Backend)
      returns (r: Result<(seq<string>, seq<string>)>)
      ensures
        match Sync.ProcessUsers(cache, groupUsers, existing, b, allLdapUserData)
        case Err(f) => r == Err(f)
        case Ok(d) => r.Ok? && r.value.0 == d.adds && multiset(r.value.1) == multiset(d.names) + multiset(d.stale)
    {
      var ids, usersToRemove := CollectIds(groupUsers, existing, b);
      if ids.Err? {
        return Err(ids.failure);
      }
      if ids.value.None? {
        return Ok(([], []));
      }
      var stale := StaleMembers(ids.value.value, existing);
      var usersToAdd := MissingMembers(ids.value.value, existing);
      return Ok((usersToAdd, usersToRemove + stale));
    }

    /** The second loop of `processUsers`, in the order of a Go map. */
    method StaleMembers(userIdsToSync: seq<string>, existing: set<string>) returns (stale: seq<string>)
      ensures multiset(stale) == multiset(existing - Elems(userIdsToSync))
    {
      stale := [];
      var todo := existing;
      ghost var wanted := Elems(userIdsToSync);
      while todo != {}
        invariant todo <= existing
        invariant multiset(stale) == multiset((existing - todo) - wanted)
        decreases todo
      {
        var userId :| userId in todo;
        ghost var before := (existing - todo) - wanted;
        todo := todo - {userId};
        if userId !in userIdsToSync {
          stale := stale + [userId];
          assert (existing - todo) - wanted == before + {userId};
        } else {
          assert (existing - todo) - wanted == before;
        }
      }
      assert (existing - todo) - wanted == existing - wanted;
    }

    /** The third loop of `processUsers`. */
    method MissingMembers(userIdsToSync: seq<string>, existing: set<string>) returns (toAdd: seq<string>)
      ensures toAdd == Missing(userIdsToSync, existing)
    {
      toAdd := [];
      for i := 0 to |userIdsToSync|
        invariant Missing(userIdsToSync, existing) == toAdd + Missing(userIdsToSync[i..], existing)
      {
        assert userIdsToSync[i..][1..] == userIdsToSync[i + 1..];
        if userIdsToSync[i] !in existing {
          toAdd := toAdd + [userIdsToSync[i]];
        }
      }
      assert userIdsToSync[|userIdsToSync|..] == [];
    }

    /** Fetching the members, then adding and removing users. */
    method UpdateTeam(ref: TeamRef, users: seq<string>, env: Env) returns (end: End)
      requires env.ldap == allLdapUserData
      modifies this`teams, this`log, this`tick
      ensures Now() == SyncMembers(old(Now()), ref, users, env).p
      ensures end == SyncMembers(old(Now()), ref, users, env).end
    {
      var fetched := FetchMembers(Now(), ref, env);
      Adopt(fetched.p);
      if fetched.r.Err? {
        return Recorded(fetched.r.failure);
      }
      var diff := ProcessUsers(users, fetched.r.value, ref.b);
      if diff.Err? {
        return Recorded(diff.failure);
      }
      var (usersToAdd, usersToRemove) := diff.value;
      ghost var d := Sync.ProcessUsers(cache, users, fetched.r.value, ref.b, env.ldap).value;
      RemovalList(usersToRemove, d);
      if |usersToAdd| > 0 {
        var added := AddMembers(Now(), ref, Elems(usersToAdd), env);
        Adopt(added.p);
        if added.r.Err? {
          return Aborted(added.r.failure);
        }
      }
      if |usersToRemove| > 0 {
        var removed := RemoveMembers(Now(), ref, Elems(usersToRemove), env);
        Adopt(removed.p);
        if removed.r.Err? {
          return Aborted(removed.r.failure);
        }
      }
      return Synced;
    }

    /** The body of the backend loop of `Reconcile`. */
    method ReconcileBackend(groupName: string, users: seq<string>, b: Backend, env: Env) returns (end: End)
      requires env.ldap == allLdapUserData
      modifies this`cache, this`teams, this`log, this`tick
      ensures Now() == SyncBackend(cfg, old(Now()), groupName, users, b, env).p
      ensures end == SyncBackend(cfg, old(Now()), groupName, users, b, env).end
      ensures CallsInOrder(old(Now()), BackendRun(Now(), end), env)
    {
      SyncBackendCalls(cfg, Now(), groupName, users, b, env);
      if !HasClient(cfg, b) {
        return Recorded(InvalidBackend);
      }
      var team := FetchOrCreateTeam(groupName, b, env);
      if team.Err? {
        return Recorded(team.failure);
      }
      var created := CreateUsersInBackendAndCache(users, b, env);
      if created.Err? {
        return Recorded(created.failure);
      }
      end := UpdateTeam(TeamRef(b, team.value), users, env);
    }

    /** `deleteBackendsTeam`. */
    method DeleteBackendsTeam(groupName: string, backends: seq<Backend>, env: Env) returns (r: Result<()>)
      modifies this`cache, this`teams, this`log, this`tick
      ensures Now() == DeleteTeams(cfg, old(Now()), groupName, backends, env).p
      ensures r == DeleteTeams(cfg, old(Now()), groupName, backends, env).r
      ensures old(tick) <= tick
      ensures r.Ok? <==> AllDeletable(cfg, old(cache), groupName, backends) && AllDone(env, old(tick), tick)
      ensures r.Ok? ==> Cleared(cfg, cache, groupName, backends)
    {
      DeletionSucceedsExactly(cfg, Now(), groupName, backends, env);
      for i := 0 to |backends|
        invariant DeleteTeams(cfg, Now(), groupName, backends[i..], env)
          == DeleteTeams(cfg, old(Now()), groupName, backends, env)
      {
        var b := backends[i];
        assert backends[i..][0] == b && backends[i..][1..] == backends[i + 1..];
        var transformed := Transform(cfg.patterns, b.kind, groupName);
        if transformed.Err? {
          return Err(transformed.failure);
        }
        if !HasClient(cfg, b) {
          return Err(InvalidBackend);
        }
        r := DeleteOne(transformed.value, b, env);
        if r.Err? {
          return;
        }
      }
      assert backends[|backends|..] == [];
      return Ok(());
    }

    /** The cached team of one backend. */
    method DeleteOne(name: string, b: Backend, env: Env) returns (r: Result<()>)
      modifies this`cache, this`teams, this`log, this`tick
      ensures Now() == DeleteCached(old(Now()), name, b, env).p
      ensures r == DeleteCached(old(Now()), name, b, env).r
    {
      if name in cache && !cache[name].Blank? {
        if cache[name].Garbled? {
          return Err(DecodeFault);
        }
        var details := cache[name].ids;
        if CacheKey(b) in details && details[CacheKey(b)] != "" {
          var deleted := DeleteTeam(Now(), b, name, details[CacheKey(b)], env);
          Adopt(deleted.p);
          if deleted.r.Err? {
            return Err(deleted.r.failure);
          }
          ghost var atEntry := cache;
          details := details - {CacheKey(b)};
          cache := cache - {name};
          if |details| > 0 {
            cache := cache[name := Ids(details)];
            assert cache == atEntry[name := Ids(details)];
          }
        }
      }
      return Ok(());
    }

    /** `setOwnerReference`. */
    method SetOwnerReference(name: string, env: Env) returns (r: Result<()>)
      requires name in groups
      modifies this`groups, this`tick
      ensures State() == SetOwners(old(State()), name, env).w
      ensures r == SetOwners(old(State()), name, env).r
    {
      var cr := groups[name];
      var desired: map<string, OwnerRef> := map[];
      for i := 0 to |cr.groups|
        invariant Owners.Desired(groups, cr.groups[i..], desired) == Owners.Desired(groups, cr.groups, map[])
      {
        assert cr.groups[i..][0] == cr.groups[i] && cr.groups[i..][1..] == cr.groups[i + 1..];
        if cr.groups[i] !in groups {
          return Err(MissingGroup(cr.groups[i]));
        }
        desired := desired[groups[cr.groups[i]].uid := Owners.RefTo(groups, cr.groups[i])];
      }
      assert cr.groups[|cr.groups|..] == [];
      var others, existing := SplitOwners(cr.owners);
      if !Owners.NeedsUpdate(desired.Keys, existing) {
        return Ok(());
      }
      r := Update(name, cr.(owners := others + env.arrange(desired.Values)), env);
    }

    /** The references of other kinds in order, and the UIDs of those of kind Group. */
    method SplitOwners(refs: seq<OwnerRef>) returns (others: seq<OwnerRef>, existing: set<string>)
      ensures others == Owners.OtherRefs(refs)
      ensures existing == Owners.GroupUids(refs)
    {
      others, existing := [], {};
      for i := 0 to |refs|
        invariant Owners.OtherRefs(refs) == others + Owners.OtherRefs(refs[i..])
        invariant existing == Owners.GroupUids(refs[..i])
      {
        assert refs[i..][1..] == refs[i + 1..];
        assert refs[..i + 1] == refs[..i] + [refs[i]];
        if Owners.IsGroupRef(refs[i]) {
          existing := existing + {refs[i].uid};
        } else {
          others := others + [refs[i]];
        }
      }
      assert refs[|refs|..] == [] && refs[..|refs|] == refs;
    }

    /** The LDAP loop of `Reconcile`. */
    method FetchLdapData(users: seq<string>, env: Env)
      modifies this`allLdapUserData
      ensures allLdapUserData == Snapshot(users, env.ldap)
    {
      allLdapUserData := map[];
      for i := 0 to |users|
        invariant allLdapUserData == Snapshot(users[..i], env.ldap)
      {
        assert users[..i + 1] == users[..i] + [users[i]];
        if users[i] in env.ldap {
          allLdapUserData := allLdapUserData[users[i] := env.ldap[users[i]]];
        }
      }
      assert users[..|users|] == users;
    }

    /** The backend loop of `Reconcile`. */
    method ReconcileBackends(
      groupName: string, users: seq<string>, backends: seq<Backend>, env: Env)
      returns (end: LoopEnd)
      requires env.ldap == allLdapUserData
      modifies this`cache, this`teams, this`log, this`tick
      ensures Now() == SyncAll(cfg, old(Now()), groupName, users, backends, env, map[]).p
      ensures end == SyncAll(cfg, old(Now()), groupName, users, backends, env, map[]).end
    {
      var backendErrors: map<string, Failure> := map[];
      for i := 0 to |backends|
        invariant SyncAll(cfg, Now(), groupName, users, backends[i..], env, backendErrors)
          == SyncAll(cfg, old(Now()), groupName, users, backends, env, map[])
      {
        assert backends[i..][0] == backends[i] && backends[i..][1..] == backends[i + 1..];
        var done := ReconcileBackend(groupName, users, backends[i], env);
        match done {
          case Aborted(f) => return Stopped(f);
          case Recorded(f) => backendErrors := backendErrors[backends[i].kind := f];
          case Synced =>
        }
      }
      assert backends[|backends|..] == [];
      return Finished(backendErrors);
    }

    /** The part of `Reconcile` that follows the first status update. */
    method SyncAndReport(name: string, env: Env) returns (r: Result<()>)
      requires name in groups
      modifies this
      ensures State() == SyncGroup(cfg, old(State()), name, env).w
      ensures r == SyncGroup(cfg, old(State()), name, env).r
    {
      var cr := groups[name];
      var visited := new VisitedPath();
      var members := FetchUniqueGroupMembers(groups, cr.groupName, visited);
      if members.Err? {
        return Err(members.failure);
      }
      var users := DeduplicateMembers(members.value);
      FetchLdapData(users, env);
      var end := ReconcileBackends(cr.groupName, users, cr.backends, env.(ldap := allLdapUserData));
      match end {
        case Stopped(f) =>
          return Err(f);
        case Finished(errors) =>
          var stored := Update(name, Status.Report(cr, users, errors), env);
          return if errors == map[] then Ok(()) else Err(BackendsFailed);
      }
    }

    /** A CR with a deletion timestamp. */
    method FinalizeGroup(name: string, env: Env) returns (r: Result<()>)
      requires name in groups
      modifies this
      ensures State() == Finalize(cfg, old(State()), name, env).w
      ensures r == Finalize(cfg, old(State()), name, env).r
    {
      var cr := groups[name];
      if !cr.finalizer {
        return Ok(());
      }
      r := DeleteBackendsTeam(cr.groupName, cr.backends, env);
      if r.Ok? {
        r := Update(name, cr.(finalizer := false), env);
      }
    }

    /** `Reconcile`. */
    method Reconcile(name: string, env: Env) returns (r: Result<()>)
      modifies this
      ensures State() == ReconcileGroup(cfg, old(State()), name, env).w
      ensures r == ReconcileGroup(cfg, old(State()), name, env).r
    {
      if name !in groups {
        return Ok(());
      }
      if groups[name].deleting {
        r := FinalizeGroup(name, env);
        return;
      }
      if !groups[name].finalizer {
        r := Update(name, groups[name].(finalizer := true), env);
        if r.Err? {
          return;
        }
      }
      r := SetOwnerReference(name, env);
      if r.Err? {
        return;
      }
      var cr := groups[name];
      var conditions := Status.UpsertCondition(cr.status.conditions, Status.WAITING);
      r := Update(name, cr.(status := cr.status.(conditions := conditions)), env);
      if r.Err? {
        return;
      }
      r := SyncAndReport(name, env);
    }
  }

  /** The list handed to `RemoveUserFromTeam` names exactly the removals of the diff. */
  lemma RemovalList(users: seq<string>, d: Diff)
    requires multiset(users) == multiset(d.names) + multiset(d.stale)
    ensures Elems(users) == Removals(d)
    ensures |users| > 0 <==> !(d.names == [] && d.stale == {})
  {
    forall x
      ensures x in Elems(users) <==> x in Removals(d)
    {
      assert x in users <==> x in multiset(users);
      assert x in d.names <==> x in multiset(d.names);
    }
    assert |multiset(users)| == |users|;
    assert |multiset(d.names)| == |d.names|;
    assert |multiset(d.stale)| == |d.stale|;
  }
}
