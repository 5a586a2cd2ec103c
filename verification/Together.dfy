/** Several CRs at once: what the reconcile of one CR leaves to the others, what happens when
    two CRs name the same team, and when all of them can be in sync together. */
module Together {
  import opened Common
  import opened Naming
  import opened Backends
  import opened Sync
  import opened Reconcile
  import opened Deletion
  import opened Invariants
  import opened Convergence
  import Owners
  import Runs

  // ---------------------------------------------------------------- what is left to others

  /** The CR has a team of this name on this backend. */
  predicate Names(cfg: Config, cr: GroupCR, b: Backend, name: string) {
    b in cr.backends && Transform(cfg.patterns, b.kind, cr.groupName) == Ok(name)
  }

  /** From `p` to `q` no cached ID is lost or replaced, and no team touched, but under names
      of this CR. */
  ghost predicate Spares(cfg: Config, cr: GroupCR, p: Platform, q: Platform) {
    && (forall e, b: Backend {:trigger CachedId(q.cache, e, CacheKey(b))} ::
          Supported(b.kind) && !Names(cfg, cr, b, e) && CachedId(p.cache, e, CacheKey(b)) != "" ==>
            CachedId(q.cache, e, CacheKey(b)) == CachedId(p.cache, e, CacheKey(b)))
    && (forall ref {:trigger ref in q.teams} :: ref in p.teams && !Names(cfg, cr, ref.b, p.teams[ref].name) ==>
          ref in q.teams && q.teams[ref] == p.teams[ref])
  }

  lemma SparesTrans(cfg: Config, cr: GroupCR, p: Platform, q: Platform, r: Platform)
    requires Spares(cfg, cr, p, q) && Spares(cfg, cr, q, r)
    ensures Spares(cfg, cr, p, r)
  {
    forall e, b: Backend | Supported(b.kind) && !Names(cfg, cr, b, e) && CachedId(p.cache, e, CacheKey(b)) != ""
      ensures CachedId(r.cache, e, CacheKey(b)) == CachedId(p.cache, e, CacheKey(b))
    {
      assert CachedId(q.cache, e, CacheKey(b)) == CachedId(p.cache, e, CacheKey(b));
    }
    forall ref | ref in p.teams && !Names(cfg, cr, ref.b, p.teams[ref].name)
      ensures ref in r.teams && r.teams[ref] == p.teams[ref]
    {
      assert ref in q.teams && q.teams[ref] == p.teams[ref];
    }
  }

  /** All teams but one are as they were. */
  ghost predicate OthersSame(p: Platform, q: Platform, one: TeamRef) {
    forall ref {:trigger ref in q.teams} :: ref in p.teams && ref != one ==>
      ref in q.teams && q.teams[ref] == p.teams[ref]
  }

  lemma SyncMembersTouchesOne(p: Platform, one: TeamRef, users: seq<string>, env: Env)
    ensures OthersSame(p, SyncMembers(p, one, users, env).p, one)
  {
    var d := ProcessUsers(p.cache, users, MembersOf(p, one), one.b, env.ldap);
    if d.Ok? {
      var a := AddStage(Tick(p), one, d.value, env);
      assert OthersSame(p, a.p, one);
      assert OthersSame(p, RemoveStage(a.p, one, d.value, env).p, one);
    }
  }

  /** The team that the work for a backend is about bears the CR's name. */
  lemma OwnTeam(mail: string -> bool, p: Platform, name: string, b: Backend, env: Env)
    requires LiveIds(mail, p) && Supported(b.kind) && !mail(name)
    ensures
      var t := FetchOrCreate(p, name, b, env);
      && (t.r.Ok? && TeamRef(b, t.r.value) in p.teams ==> p.teams[TeamRef(b, t.r.value)].name == name)
      && (forall ref {:trigger ref in t.p.teams} :: ref in p.teams ==>
            ref in t.p.teams && (p.teams[ref].name != name || ref.b != b ==> t.p.teams[ref] == p.teams[ref]))
  {
    assert CachedId(p.cache, name, CacheKey(b)) != "" ==> TeamRef(b, CachedId(p.cache, name, CacheKey(b))) in p.teams;
  }

  lemma SyncBackendSpares(
    cfg: Config, mail: string -> bool, cr: GroupCR, p: Platform, users: seq<string>, b: Backend, env: Env)
    requires LiveIds(mail, p) && NamesApart(cfg, mail, cr) && b in cr.backends
    ensures Spares(cfg, cr, p, SyncBackend(cfg, p, cr.groupName, users, b, env).p)
  {
    var q := SyncBackend(cfg, p, cr.groupName, users, b, env).p;
    SyncBackendFrame(cfg, p, cr.groupName, users, b, env);
    var name := Transform(cfg.patterns, b.kind, cr.groupName);
    if HasClient(cfg, b) && name.Ok? {
      OwnTeam(mail, p, name.value, b, env);
      var t := FetchOrCreate(p, name.value, b, env);
      if t.r.Ok? {
        CreateUsersFrame(t.p, users, b, env);
        SyncMembersTouchesOne(CreateUsers(t.p, users, b, env).p, TeamRef(b, t.r.value), users, env);
      }
      assert Names(cfg, cr, b, name.value);
      forall ref | ref in p.teams && !Names(cfg, cr, ref.b, p.teams[ref].name)
        ensures ref in q.teams && q.teams[ref] == p.teams[ref]
      {
        assert ref in t.p.teams && t.p.teams[ref] == p.teams[ref];
      }
    }
  }

  lemma {:induction false} SyncAllSpares(cfg: Config, mail: string -> bool, groups: Groups, p: Platform, n: string,
                                         users: seq<string>, backends: seq<Backend>, env: Env,
                                         errors: map<string, Failure>)
    requires Coherent(mail, p) && NonEmptyIds(env) && MailsOnly(mail, env)
    requires n in groups && NamesApart(cfg, mail, groups[n]) && groups[n].finalizer
    requires forall b :: b in backends ==> b in groups[n].backends
    ensures Spares(cfg, groups[n], p, SyncAll(cfg, p, groups[n].groupName, users, backends, env, errors).p)
    decreases |backends|
  {
    if backends != [] {
      SyncBackendSpares(cfg, mail, groups[n], p, users, backends[0], env);
      SyncBackendKeeps(cfg, mail, groups, p, n, users, backends[0], env);
      var run := SyncBackend(cfg, p, groups[n].groupName, users, backends[0], env);
      var errors' := if run.end.Recorded? then errors[backends[0].kind := run.end.failure] else errors;
      SyncAllSpares(cfg, mail, groups, run.p, n, users, backends[1..], env, errors');
      if !run.end.Aborted? {
        SparesTrans(cfg, groups[n], p, run.p,
                    SyncAll(cfg, run.p, groups[n].groupName, users, backends[1..], env, errors').p);
      }
    }
  }

  lemma DeleteCachedSpares(
    cfg: Config, mail: string -> bool, cr: GroupCR, p: Platform, name: string, b: Backend, env: Env)
    requires LiveIds(mail, p) && Supported(b.kind) && !mail(name) && Names(cfg, cr, b, name)
    ensures Spares(cfg, cr, p, DeleteCached(p, name, b, env).p)
  {
    DeleteCachedEffect(p, name, b, env);
    var q := DeleteCached(p, name, b, env).p;
    if q.log != p.log {
      forall e, c: Backend | Supported(c.kind) && !Names(cfg, cr, c, e) && CachedId(p.cache, e, CacheKey(c)) != ""
        ensures CachedId(q.cache, e, CacheKey(c)) == CachedId(p.cache, e, CacheKey(c))
      {
        SameKey(c, b);
      }
    }
  }

  lemma {:induction false} DeletionSpares(
    cfg: Config, mail: string -> bool, groups: Groups, p: Platform, cr: GroupCR, backends: seq<Backend>, env: Env)
    requires Coherent(mail, p) && NamesApart(cfg, mail, cr)
    requires forall b :: b in backends ==> b in cr.backends
    ensures Spares(cfg, cr, p, DeleteTeams(cfg, p, cr.groupName, backends, env).p)
    decreases |backends|
  {
    if backends != [] {
      var b := backends[0];
      var name := Transform(cfg.patterns, b.kind, cr.groupName);
      if name.Ok? && HasClient(cfg, b) {
        assert Names(cfg, cr, b, name.value);
        DeleteCachedSpares(cfg, mail, cr, p, name.value, b, env);
        DeleteCachedKeeps(cfg, mail, groups, p, name.value, b, env);
        var step := DeleteCached(p, name.value, b, env);
        if step.r.Ok? {
          DeletionSpares(cfg, mail, groups, step.p, cr, backends[1..], env);
          SparesTrans(cfg, cr, p, step.p, DeleteTeams(cfg, step.p, cr.groupName, backends[1..], env).p);
        }
      }
    }
  }

  // ---------------------------------------------------------------- a whole reconcile

  lemma SyncGroupSpares(cfg: Config, mail: string -> bool, w: World, n: string, env: Env)
    requires Runs.Inv(cfg, mail, w) && n in w.groups && w.groups[n].finalizer
    requires NonEmptyIds(env) && MailsOnly(mail, env)
    ensures LeavesOthers(cfg, w, n, SyncGroup(cfg, w, n, env).w)
  {
    SyncGroupEffect(cfg, w, n, env);
    StatusOnly(w.groups, SyncGroup(cfg, w, n, env).w.groups, n);
    var users := MembersOfGroup(w.groups, n);
    if users.Ok? {
      var env' := env.(ldap := Snapshot(users.value, env.ldap));
      SyncAllSpares(cfg, mail, w.groups, w.p, n, users.value, w.groups[n].backends, env', map[]);
    }
  }

  lemma SpareSpec(cfg: Config, cr: GroupCR, cr': GroupCR, p: Platform, q: Platform)
    requires SameSpec(cr, cr') && Spares(cfg, cr', p, q)
    ensures Spares(cfg, cr, p, q)
  {
    assert forall b, name :: Names(cfg, cr, b, name) <==> Names(cfg, cr', b, name);
  }

  /** All that is not the CR's is spared, every spec and the status of every other CR stay. */
  ghost predicate LeavesOthers(cfg: Config, w: World, n: string, v: World)
    requires n in w.groups
  {
    && Spares(cfg, w.groups[n], w.p, v.p)
    && SameSpecs(w.groups, v.groups)
    && forall m :: m in w.groups && m != n ==> v.groups[m] == w.groups[m]
  }

  lemma FinalizeTouchesOne(cfg: Config, w: World, n: string, env: Env)
    requires n in w.groups
    ensures
      var v := Finalize(cfg, w, n, env).w;
      && SameSpecs(w.groups, v.groups)
      && (forall m :: m in w.groups && m != n ==> v.groups[m] == w.groups[m])
      && (Unchanged(w.p, v.p) ||
          Unchanged(DeleteTeams(cfg, w.p, w.groups[n].groupName, w.groups[n].backends, env).p, v.p))
  {
  }

  lemma FinalizeLeavesOthers(cfg: Config, mail: string -> bool, w: World, n: string, env: Env)
    requires Runs.Inv(cfg, mail, w) && n in w.groups
    ensures LeavesOthers(cfg, w, n, Finalize(cfg, w, n, env).w)
  {
    var cr := w.groups[n];
    assert NamesApart(cfg, mail, cr);
    FinalizeTouchesOne(cfg, w, n, env);
    DeletionSpares(cfg, mail, w.groups, w.p, cr, cr.backends, env);
  }

  lemma LeavesOthersTrans(cfg: Config, w: World, n: string, u: World, v: World)
    requires n in w.groups && n in u.groups && LeavesOthers(cfg, w, n, u) && LeavesOthers(cfg, u, n, v)
    ensures LeavesOthers(cfg, w, n, v)
  {
    assert SameSpec(w.groups[n], u.groups[n]);
    SpareSpec(cfg, w.groups[n], u.groups[n], u.p, v.p);
    SparesTrans(cfg, w.groups[n], w.p, u.p, v.p);
    SameSpecsTrans(w.groups, u.groups, v.groups);
  }

  /** A reconcile, of a CR under deletion or not, successful or not, leaves the others alone. */
  lemma ReconcileSpares(cfg: Config, mail: string -> bool, w: World, n: string, env: Env)
    requires Runs.Inv(cfg, mail, w) && n in w.groups
    requires NonEmptyIds(env) && MailsOnly(mail, env) && Owners.Arranges(env.arrange)
    ensures LeavesOthers(cfg, w, n, ReconcileGroup(cfg, w, n, env).w)
  {
    if w.groups[n].deleting {
      FinalizeLeavesOthers(cfg, mail, w, n, env);
    } else {
      PrepareEffect(w, n, env);
      PrepareTouchesOne(w, n, env);
      var ready := Prepare(w, n, env);
      if ready.r.Ok? {
        Runs.PrepareKeeps(cfg, mail, w, n, env);
        SyncGroupSpares(cfg, mail, ready.w, n, env);
        LeavesOthersTrans(cfg, w, n, ready.w, SyncGroup(cfg, ready.w, n, env).w);
      }
    }
  }

  lemma PrepareTouchesOne(w: World, n: string, env: Env)
    requires n in w.groups
    ensures forall m :: m in w.groups && m != n ==>
      m in Prepare(w, n, env).w.groups && Prepare(w, n, env).w.groups[m] == w.groups[m]
  {
    var a := AddFinalizer(w, n, env);
    var o := SetOwners(a.w, n, env);
    assert forall m :: m in w.groups && m != n ==> m in a.w.groups && a.w.groups[m] == w.groups[m];
    assert forall m :: m in w.groups && m != n ==> m in o.w.groups && o.w.groups[m] == w.groups[m];
  }

  // ---------------------------------------------------------------- CRs without a common team

  /** The two CRs have no team in common. */
  ghost predicate Apart(cfg: Config, a: GroupCR, b: GroupCR) {
    forall x, name :: Names(cfg, a, x, name) ==> !Names(cfg, b, x, name)
  }

  /** All emails of the directory are emails to `mail`. */
  ghost predicate Mails(mail: string -> bool, ldap: map<string, string>) {
    forall u :: u in ldap ==> mail(ldap[u])
  }

  /** A prepared backend keeps its team and its users while another CR's teams change. */
  lemma SparedIsPrepared(cfg: Config, mail: string -> bool, cr: GroupCR, p: Platform, q: Platform,
                         groupName: string, users: seq<string>, b: Backend, ldap: map<string, string>)
    requires LiveIds(mail, p) && Mails(mail, ldap) && NamesApart(cfg, mail, cr) && Spares(cfg, cr, p, q)
    requires Prepared(cfg, p, groupName, users, b, ldap)
    requires
      var name := Transform(cfg.patterns, b.kind, groupName).value;
      !mail(name) && !Names(cfg, cr, b, name)
    ensures Prepared(cfg, q, groupName, users, b, ldap)
    ensures SyncedIds(q.cache, users, b, ldap) == SyncedIds(p.cache, users, b, ldap)
    ensures CachedTeam(cfg, q, groupName, b) == CachedTeam(cfg, p, groupName, b)
    ensures q.teams[CachedTeam(cfg, q, groupName, b)] == p.teams[CachedTeam(cfg, p, groupName, b)]
  {
    var key := CacheKey(b);
    var name := Transform(cfg.patterns, b.kind, groupName).value;
    assert CachedId(q.cache, name, key) == CachedId(p.cache, name, key);
    assert p.teams[CachedTeam(cfg, p, groupName, b)].name == name;
    forall u | u in users && u in ldap
      ensures CachedId(q.cache, ldap[u], key) == CachedId(p.cache, ldap[u], key) != ""
    {
      assert mail(ldap[u]) && !Names(cfg, cr, b, ldap[u]);
    }
  }

  /** The reconcile of a CR, also of one that is being deleted, keeps every CR in sync with
      which it has no team in common, whatever its calls return. */
  lemma OthersStayInSync(
    cfg: Config, mail: string -> bool, w: World, n: string, env: Env, a: string, ldap: map<string, string>)
    requires Runs.Inv(cfg, mail, w) && n in w.groups
    requires NonEmptyIds(env) && MailsOnly(mail, env) && Owners.Arranges(env.arrange)
    requires GroupInSync(cfg, w, a, ldap) && Mails(mail, ldap) && Apart(cfg, w.groups[a], w.groups[n])
    ensures GroupInSync(cfg, ReconcileGroup(cfg, w, n, env).w, a, ldap)
  {
    ReconcileSpares(cfg, mail, w, n, env);
    var v := ReconcileGroup(cfg, w, n, env).w;
    var cr := w.groups[a];
    assert SameSpec(cr, v.groups[a]) && NamesApart(cfg, mail, cr) && NamesApart(cfg, mail, w.groups[n]);
    WalkSame(w.groups, v.groups, cr.groupName, {});
    var users := MembersOfGroup(w.groups, a).value;
    forall b | b in cr.backends
      ensures Prepared(cfg, v.p, cr.groupName, users, b, ldap)
      ensures NoClash(v.p, users, b, ldap) ==> InSync(cfg, v.p, cr.groupName, users, b, ldap)
    {
      assert Prepared(cfg, w.p, cr.groupName, users, b, ldap);
      assert Names(cfg, cr, b, Transform(cfg.patterns, b.kind, cr.groupName).value);
      SparedIsPrepared(cfg, mail, w.groups[n], w.p, v.p, cr.groupName, users, b, ldap);
    }
  }

  // ---------------------------------------------------------------- CRs with a common team

  /** The IDs that the CR wants in its team on `b`. */
  function Wanted(w: World, a: string, b: Backend, ldap: map<string, string>): set<string>
    requires a in w.groups && MembersOfGroup(w.groups, a).Ok?
  {
    SyncedIds(w.p.cache, MembersOfGroup(w.groups, a).value, b, ldap)
  }

  /** Without clashes, the two CRs want different members on `b`. */
  ghost predicate Differ(v: World, a: string, n: string, b: Backend, ldap: map<string, string>) {
    && a in v.groups && MembersOfGroup(v.groups, a).Ok? && NoClash(v.p, MembersOfGroup(v.groups, a).value, b, ldap)
    && n in v.groups && MembersOfGroup(v.groups, n).Ok? && NoClash(v.p, MembersOfGroup(v.groups, n).value, b, ldap)
    && Wanted(v, a, b, ldap) != Wanted(v, n, b, ldap)
  }

  /** A CR that names the team of another one but wants other members: its successful reconcile
      leaves the other one Ready, if it was, and out of sync. */
  lemma SharedTeamIsTakenOver(
    cfg: Config, mail: string -> bool, w: World, n: string, env: Env, a: string, b: Backend, name: string)
    requires Runs.Inv(cfg, mail, w) && n in w.groups && !w.groups[n].deleting && a in w.groups && a != n
    requires NonEmptyIds(env) && MailsOnly(mail, env) && Owners.Arranges(env.arrange)
    requires Names(cfg, w.groups[a], b, name) && Names(cfg, w.groups[n], b, name)
    ensures
      var out := ReconcileGroup(cfg, w, n, env);
      && a in out.w.groups && out.w.groups[a] == w.groups[a]
      && (out.r.Ok? ==> GroupInSync(cfg, out.w, n, env.ldap))
      && (out.r.Ok? && Differ(out.w, a, n, b, env.ldap) ==> !GroupInSync(cfg, out.w, a, env.ldap))
  {
    ReconcileSpares(cfg, mail, w, n, env);
    ReadyMeansInSync(cfg, w, n, env);
    var out := ReconcileGroup(cfg, w, n, env);
    if out.r.Ok? && Differ(out.w, a, n, b, env.ldap) {
      NotBothInSync(cfg, out.w, a, n, b, name, env.ldap);
    }
  }

  lemma NotBothInSync(
    cfg: Config, v: World, a: string, n: string, b: Backend, name: string, ldap: map<string, string>)
    requires Differ(v, a, n, b, ldap) && Names(cfg, v.groups[a], b, name) && Names(cfg, v.groups[n], b, name)
    requires GroupInSync(cfg, v, n, ldap)
    ensures !GroupInSync(cfg, v, a, ldap)
  {
    assert InSync(cfg, v.p, v.groups[n].groupName, MembersOfGroup(v.groups, n).value, b, ldap);
  }

  /** Deleting a CR takes the team away from every other CR that names it, which stays Ready,
      if it was, and is out of sync. */
  lemma SharedTeamIsDeleted(
    cfg: Config, mail: string -> bool, w: World, n: string, env: Env, a: string, b: Backend, name: string)
    requires Runs.Inv(cfg, mail, w) && n in w.groups && w.groups[n].deleting && a in w.groups && a != n
    requires NonEmptyIds(env) && MailsOnly(mail, env) && Owners.Arranges(env.arrange)
    requires Names(cfg, w.groups[a], b, name) && Names(cfg, w.groups[n], b, name)
    requires w.groups[n].finalizer && ReconcileGroup(cfg, w, n, env).r.Ok?
    ensures
      var v := ReconcileGroup(cfg, w, n, env).w;
      a in v.groups && v.groups[a] == w.groups[a] && forall ldap :: !GroupInSync(cfg, v, a, ldap)
  {
    ReconcileSpares(cfg, mail, w, n, env);
    var cr := w.groups[n];
    DeleteTeamsEffect(cfg, w.p, cr.groupName, cr.backends, env);
    var v := ReconcileGroup(cfg, w, n, env).w;
    assert IsTeamSlot(cfg, cr.groupName, cr.backends, name, CacheKey(b));
    assert CachedId(v.p.cache, name, CacheKey(b)) == "";
  }

  // ---------------------------------------------------------------- all CRs at once

  /** Nothing cached is lost or replaced, and no team goes. */
  ghost predicate Grows(p: Platform, q: Platform) {
    && (forall e, k {:trigger CachedId(q.cache, e, k)} ::
          CachedId(p.cache, e, k) != "" ==> CachedId(q.cache, e, k) == CachedId(p.cache, e, k))
    && p.teams.Keys <= q.teams.Keys
  }

  lemma {:induction false} SyncAllGrows(cfg: Config, p: Platform, groupName: string, users: seq<string>,
                                        backends: seq<Backend>, env: Env, errors: map<string, Failure>)
    ensures Grows(p, SyncAll(cfg, p, groupName, users, backends, env, errors).p)
    decreases |backends|
  {
    if backends != [] {
      SyncBackendFrame(cfg, p, groupName, users, backends[0], env);
      var run := SyncBackend(cfg, p, groupName, users, backends[0], env);
      assert Grows(p, run.p);
      var errors' := if run.end.Recorded? then errors[backends[0].kind := run.end.failure] else errors;
      SyncAllGrows(cfg, run.p, groupName, users, backends[1..], env, errors');
      var q := SyncAll(cfg, run.p, groupName, users, backends[1..], env, errors').p;
      forall e, k | CachedId(p.cache, e, k) != ""
        ensures CachedId(q.cache, e, k) == CachedId(p.cache, e, k)
      {
        assert CachedId(run.p.cache, e, k) == CachedId(p.cache, e, k);
      }
    }
  }

  lemma ReconcileGrows(cfg: Config, w: World, n: string, env: Env)
    requires n in w.groups && !w.groups[n].deleting && Owners.Arranges(env.arrange)
    ensures Grows(w.p, ReconcileGroup(cfg, w, n, env).w.p)
  {
    PrepareEffect(w, n, env);
    var ready := Prepare(w, n, env);
    if ready.r.Ok? {
      SyncGroupEffect(cfg, ready.w, n, env);
      var users := MembersOfGroup(ready.w.groups, n);
      if users.Ok? {
        var cr := ready.w.groups[n];
        SyncAllGrows(cfg, ready.w.p, cr.groupName, users.value, cr.backends,
                     env.(ldap := Snapshot(users.value, env.ldap)), map[]);
      }
    }
  }

  /** The members of the CR are known, and its teams and users cached on all its backends. */
  ghost predicate GroupPrepared(cfg: Config, w: World, a: string, ldap: map<string, string>) {
    && a in w.groups && MembersOfGroup(w.groups, a).Ok?
    && forall b :: b in w.groups[a].backends ==>
         Prepared(cfg, w.p, w.groups[a].groupName, MembersOfGroup(w.groups, a).value, b, ldap)
  }

  /** What a prepared CR wants does not change any more. */
  lemma PreparedStays(cfg: Config, w: World, v: World, a: string, ldap: map<string, string>)
    requires GroupPrepared(cfg, w, a, ldap) && Grows(w.p, v.p) && SameSpecs(w.groups, v.groups)
    ensures GroupPrepared(cfg, v, a, ldap) && MembersOfGroup(v.groups, a) == MembersOfGroup(w.groups, a)
    ensures forall b :: b in w.groups[a].backends ==>
      && Wanted(v, a, b, ldap) == Wanted(w, a, b, ldap)
      && CachedTeam(cfg, v.p, w.groups[a].groupName, b) == CachedTeam(cfg, w.p, w.groups[a].groupName, b)
  {
    var cr := w.groups[a];
    assert SameSpec(cr, v.groups[a]);
    WalkSame(w.groups, v.groups, cr.groupName, {});
    var users := MembersOfGroup(w.groups, a).value;
    forall b | b in cr.backends
      ensures Prepared(cfg, v.p, cr.groupName, users, b, ldap)
      ensures Wanted(v, a, b, ldap) == Wanted(w, a, b, ldap)
      ensures CachedTeam(cfg, v.p, cr.groupName, b) == CachedTeam(cfg, w.p, cr.groupName, b)
    {
      assert Prepared(cfg, w.p, cr.groupName, users, b, ldap);
      var name := Transform(cfg.patterns, b.kind, cr.groupName).value;
      assert CachedId(v.p.cache, name, CacheKey(b)) == CachedId(w.p.cache, name, CacheKey(b));
      assert forall u :: u in users && u in ldap ==>
        CachedId(v.p.cache, ldap[u], CacheKey(b)) == CachedId(w.p.cache, ldap[u], CacheKey(b)) != "";
    }
  }

  /** The two CRs want the same members in every team they have in common. */
  ghost predicate AgreeWith(cfg: Config, w: World, a: string, c: string, ldap: map<string, string>)
    requires a in w.groups && MembersOfGroup(w.groups, a).Ok? && c in w.groups && MembersOfGroup(w.groups, c).Ok?
  {
    forall b, name :: Names(cfg, w.groups[a], b, name) && Names(cfg, w.groups[c], b, name) ==>
      Wanted(w, a, b, ldap) == Wanted(w, c, b, ldap)
  }

  /** One more CR is reconciled: a CR in sync stays so if the two agree. */
  lemma AgreeingStaysInSync(
    cfg: Config, mail: string -> bool, w: World, v: World, a: string, c: string, ldap: map<string, string>)
    requires GroupInSync(cfg, w, a, ldap) && GroupInSync(cfg, v, c, ldap) && c in w.groups
    requires Grows(w.p, v.p) && SameSpecs(w.groups, v.groups) && Spares(cfg, w.groups[c], w.p, v.p)
    requires LiveIds(mail, w.p) && NamesApart(cfg, mail, w.groups[a])
    requires a in v.groups && MembersOfGroup(v.groups, a).Ok?
    requires ClashFree(v, a, ldap) && ClashFree(v, c, ldap) && AgreeWith(cfg, v, a, c, ldap)
    ensures GroupInSync(cfg, v, a, ldap)
  {
    var cr := w.groups[a];
    assert GroupPrepared(cfg, w, a, ldap);
    PreparedStays(cfg, w, v, a, ldap);
    assert SameSpec(cr, v.groups[a]) && SameSpec(w.groups[c], v.groups[c]);
    var users := MembersOfGroup(w.groups, a).value;
    forall b | b in cr.backends
      ensures InSync(cfg, v.p, cr.groupName, users, b, ldap)
    {
      var name := Transform(cfg.patterns, b.kind, cr.groupName).value;
      var ref := CachedTeam(cfg, w.p, cr.groupName, b);
      assert NoClash(v.p, users, b, ldap) && NoClash(w.p, users, b, ldap);
      assert InSync(cfg, w.p, cr.groupName, users, b, ldap);
      assert CachedId(w.p.cache, name, CacheKey(b)) == ref.id && w.p.teams[ref].name == name;
      if Names(cfg, w.groups[c], b, name) {
        assert Names(cfg, v.groups[c], b, name) && Names(cfg, v.groups[a], b, name);
        assert InSync(cfg, v.p, v.groups[c].groupName, MembersOfGroup(v.groups, c).value, b, ldap);
      } else {
        assert ref in v.p.teams && v.p.teams[ref] == w.p.teams[ref];
      }
    }
  }

  /** The reconcile of `c` leads from `u` to `v` and returns no error. */
  ghost predicate Succeeds(cfg: Config, u: World, c: string, env: Env, v: World) {
    ReconcileGroup(cfg, u, c, env) == Reconciled(v, Ok(()))
  }

  /** CRs are reconciled one after the other without error; `ws` are the worlds in between. */
  ghost predicate Succession(cfg: Config, ws: seq<World>, names: seq<string>, envs: seq<Env>) {
    && |ws| == |names| + 1 && |envs| == |names|
    && forall i :: 0 <= i < |names| ==> Succeeds(cfg, ws[i], names[i], envs[i], ws[i + 1])
  }

  ghost predicate SameDirectory(envs: seq<Env>, ldap: map<string, string>) {
    forall i :: 0 <= i < |envs| ==>
      envs[i].ldap == ldap && NonEmptyIds(envs[i]) && Owners.Arranges(envs[i].arrange)
  }

  /** The CRs are stored and not being deleted. */
  ghost predicate Live(groups: Groups, names: seq<string>) {
    forall i :: 0 <= i < |names| ==> names[i] in groups && !groups[names[i]].deleting
  }

  ghost predicate AllPrepared(cfg: Config, v: World, names: seq<string>, ldap: map<string, string>) {
    forall i :: 0 <= i < |names| ==> GroupPrepared(cfg, v, names[i], ldap)
  }

  ghost predicate AllInSync(cfg: Config, v: World, names: seq<string>, ldap: map<string, string>) {
    forall i :: 0 <= i < |names| ==> GroupInSync(cfg, v, names[i], ldap)
  }

  ghost predicate AllClashFree(cfg: Config, v: World, names: seq<string>, ldap: map<string, string>)
    requires AllPrepared(cfg, v, names, ldap)
  {
    forall i :: 0 <= i < |names| ==> ClashFree(v, names[i], ldap)
  }

  /** No two of the CRs want different members in a team they have in common. */
  ghost predicate AllAgree(cfg: Config, v: World, names: seq<string>, ldap: map<string, string>)
    requires AllPrepared(cfg, v, names, ldap)
  {
    forall i, j :: 0 <= i < |names| && 0 <= j < |names| ==> AgreeWith(cfg, v, names[i], names[j], ldap)
  }

  /** What one successful reconcile of `c` does to a world. */
  ghost predicate Advanced(
    cfg: Config, mail: string -> bool, u: World, v: World, c: string, ldap: map<string, string>)
  {
    && c in u.groups && LiveIds(mail, u.p) && (forall n :: n in u.groups ==> NamesApart(cfg, mail, u.groups[n]))
    && Grows(u.p, v.p) && Spares(cfg, u.groups[c], u.p, v.p)
    && SameSpecs(u.groups, v.groups) && GroupInSync(cfg, v, c, ldap)
  }

  lemma OneMore(cfg: Config, mail: string -> bool, u: World, c: string, env: Env, v: World)
    requires Runs.Inv(cfg, mail, u) && c in u.groups && !u.groups[c].deleting
    requires NonEmptyIds(env) && MailsOnly(mail, env) && Owners.Arranges(env.arrange)
    ensures Succeeds(cfg, u, c, env, v) ==> Advanced(cfg, mail, u, v, c, env.ldap)
  {
    ReconcileGrows(cfg, u, c, env);
    ReconcileSpares(cfg, mail, u, c, env);
    ReadyMeansInSync(cfg, u, c, env);
  }

  lemma OneMoreKeeps(cfg: Config, mail: string -> bool, u: World, c: string, env: Env, v: World)
    requires Runs.Inv(cfg, mail, u) && NonEmptyIds(env) && MailsOnly(mail, env) && Succeeds(cfg, u, c, env, v)
    ensures Runs.Inv(cfg, mail, v)
  {
    Runs.ReconcileKeeps(cfg, mail, u, c, env);
  }

  lemma AllStayPrepared(cfg: Config, u: World, v: World, names: seq<string>, ldap: map<string, string>)
    requires AllPrepared(cfg, u, names, ldap) && Grows(u.p, v.p) && SameSpecs(u.groups, v.groups)
    ensures AllPrepared(cfg, v, names, ldap)
  {
    forall i | 0 <= i < |names|
      ensures GroupPrepared(cfg, v, names[i], ldap)
    {
      PreparedStays(cfg, u, v, names[i], ldap);
    }
  }

  lemma StillLive(w: World, u: World, c: string)
    requires c in w.groups && !w.groups[c].deleting && SameSpecs(w.groups, u.groups)
    ensures c in u.groups && !u.groups[c].deleting
  {
    assert SameSpec(w.groups[c], u.groups[c]);
  }

  lemma {:induction false} InvAlong(
    cfg: Config, mail: string -> bool, ws: seq<World>, names: seq<string>, envs: seq<Env>, k: nat)
    requires Succession(cfg, ws, names, envs) && Runs.Inv(cfg, mail, ws[0]) && k <= |names|
    requires forall i :: 0 <= i < |envs| ==> NonEmptyIds(envs[i]) && MailsOnly(mail, envs[i])
    ensures Runs.Inv(cfg, mail, ws[k])
  {
    if k > 0 {
      var n := k - 1;
      InvAlong(cfg, mail, ws, names, envs, n);
      OneMoreKeeps(cfg, mail, ws[n], names[n], envs[n], ws[n + 1]);
    }
  }

  lemma OneMoreSame(cfg: Config, w: World, u: World, c: string, env: Env, v: World)
    requires SameSpecs(w.groups, u.groups) && c in w.groups && NonEmptyIds(env) && Owners.Arranges(env.arrange)
    requires Succeeds(cfg, u, c, env, v)
    ensures SameSpecs(w.groups, v.groups)
  {
    ReadyMeansInSync(cfg, u, c, env);
    SameSpecsTrans(w.groups, u.groups, v.groups);
  }

  lemma {:induction false} SpecsAlong(
    cfg: Config, ws: seq<World>, names: seq<string>, envs: seq<Env>, ldap: map<string, string>, k: nat)
    requires Succession(cfg, ws, names, envs) && Live(ws[0].groups, names) && SameDirectory(envs, ldap) && k <= |names|
    ensures SameSpecs(ws[0].groups, ws[k].groups)
  {
    if k > 0 {
      var n := k - 1;
      SpecsAlong(cfg, ws, names, envs, ldap, n);
      OneMoreSame(cfg, ws[0], ws[n], names[n], envs[n], ws[n + 1]);
    }
  }

  /** The reconciles as a chain of advances. */
  ghost predicate Chain(
    cfg: Config, mail: string -> bool, ws: seq<World>, names: seq<string>, ldap: map<string, string>)
  {
    && |ws| == |names| + 1
    && forall i :: 0 <= i < |names| ==> Advanced(cfg, mail, ws[i], ws[i + 1], names[i], ldap)
  }

  lemma SuccessionIsChain(cfg: Config, mail: string -> bool, ws: seq<World>, names: seq<string>,
                          envs: seq<Env>, ldap: map<string, string>)
    requires Succession(cfg, ws, names, envs) && Runs.Inv(cfg, mail, ws[0]) && Live(ws[0].groups, names)
    requires SameDirectory(envs, ldap) && Mails(mail, ldap)
    ensures Chain(cfg, mail, ws, names, ldap)
  {
    forall i | 0 <= i < |names|
      ensures Advanced(cfg, mail, ws[i], ws[i + 1], names[i], ldap)
    {
      InvAlong(cfg, mail, ws, names, envs, i);
      SpecsAlong(cfg, ws, names, envs, ldap, i);
      StillLive(ws[0], ws[i], names[i]);
      OneMore(cfg, mail, ws[i], names[i], envs[i], ws[i + 1]);
    }
  }

  lemma {:induction false} AllEndPrepared(
    cfg: Config, mail: string -> bool, ws: seq<World>, names: seq<string>, ldap: map<string, string>, k: nat)
    requires Chain(cfg, mail, ws, names, ldap) && k <= |names|
    ensures AllPrepared(cfg, ws[k], names[..k], ldap)
  {
    if k > 0 {
      var n := k - 1;
      AllEndPrepared(cfg, mail, ws, names, ldap, n);
      assert Advanced(cfg, mail, ws[n], ws[n + 1], names[n], ldap);
      AllStayPrepared(cfg, ws[n], ws[k], names[..n], ldap);
      assert GroupPrepared(cfg, ws[k], names[n], ldap);
      assert names[..k] == names[..n] + [names[n]];
    }
  }

  /** Agreement and the absence of clashes held already before the last reconcile. */
  lemma HeldBefore(cfg: Config, u: World, v: World, names: seq<string>, all: seq<string>, ldap: map<string, string>)
    requires names <= all && AllPrepared(cfg, u, names, ldap) && AllPrepared(cfg, v, all, ldap)
    requires Grows(u.p, v.p) && SameSpecs(u.groups, v.groups)
    requires AllAgree(cfg, v, all, ldap) && AllClashFree(cfg, v, all, ldap)
    ensures AllAgree(cfg, u, names, ldap) && AllClashFree(cfg, u, names, ldap)
  {
    forall i | 0 <= i < |names|
      ensures names[i] == all[i] && ClashFree(u, names[i], ldap)
    {
      PreparedStays(cfg, u, v, names[i], ldap);
      assert ClashFree(v, all[i], ldap) && SameSpec(u.groups[names[i]], v.groups[names[i]]);
    }
    forall i, j | 0 <= i < |names| && 0 <= j < |names|
      ensures AgreeWith(cfg, u, names[i], names[j], ldap)
    {
      AgreedBefore(cfg, u, v, names[i], names[j], ldap);
    }
  }

  lemma AgreedBefore(cfg: Config, u: World, v: World, a: string, c: string, ldap: map<string, string>)
    requires GroupPrepared(cfg, u, a, ldap) && GroupPrepared(cfg, u, c, ldap)
    requires GroupPrepared(cfg, v, a, ldap) && GroupPrepared(cfg, v, c, ldap)
    requires Grows(u.p, v.p) && SameSpecs(u.groups, v.groups) && AgreeWith(cfg, v, a, c, ldap)
    ensures AgreeWith(cfg, u, a, c, ldap)
  {
    PreparedStays(cfg, u, v, a, ldap);
    PreparedStays(cfg, u, v, c, ldap);
    assert SameSpec(u.groups[a], v.groups[a]) && SameSpec(u.groups[c], v.groups[c]);
    forall b, name | Names(cfg, u.groups[a], b, name) && Names(cfg, u.groups[c], b, name)
      ensures Wanted(u, a, b, ldap) == Wanted(u, c, b, ldap)
    {
      assert Names(cfg, v.groups[a], b, name) && Names(cfg, v.groups[c], b, name);
    }
  }

  lemma AllStayInSync(
    cfg: Config, mail: string -> bool, u: World, v: World, names: seq<string>, c: string, ldap: map<string, string>)
    requires AllInSync(cfg, u, names, ldap) && Advanced(cfg, mail, u, v, c, ldap)
    requires AllPrepared(cfg, v, names + [c], ldap)
    requires AllClashFree(cfg, v, names + [c], ldap) && AllAgree(cfg, v, names + [c], ldap)
    ensures AllInSync(cfg, v, names + [c], ldap)
  {
    var all, n := names + [c], |names|;
    forall i | 0 <= i < n
      ensures GroupInSync(cfg, v, all[i], ldap)
    {
      assert all[i] == names[i] && all[n] == c && GroupInSync(cfg, u, names[i], ldap);
      assert GroupPrepared(cfg, v, all[i], ldap) && GroupPrepared(cfg, v, all[n], ldap);
      assert ClashFree(v, all[i], ldap) && ClashFree(v, all[n], ldap);
      assert AgreeWith(cfg, v, all[i], all[n], ldap);
      AgreeingStaysInSync(cfg, mail, u, v, names[i], c, ldap);
    }
  }

  lemma {:induction false} AgreeingEndInSync(
    cfg: Config, mail: string -> bool, ws: seq<World>, names: seq<string>, ldap: map<string, string>, k: nat)
    requires Chain(cfg, mail, ws, names, ldap) && k <= |names|
    requires AllPrepared(cfg, ws[k], names[..k], ldap)
    requires AllClashFree(cfg, ws[k], names[..k], ldap) && AllAgree(cfg, ws[k], names[..k], ldap)
    ensures AllInSync(cfg, ws[k], names[..k], ldap)
  {
    if k > 0 {
      var n := k - 1;
      AllEndPrepared(cfg, mail, ws, names, ldap, n);
      assert Advanced(cfg, mail, ws[n], ws[n + 1], names[n], ldap);
      assert names[..k] == names[..n] + [names[n]];
      HeldBefore(cfg, ws[n], ws[k], names[..n], names[..k], ldap);
      AgreeingEndInSync(cfg, mail, ws, names, ldap, n);
      AllStayInSync(cfg, mail, ws[n], ws[k], names[..n], names[n], ldap);
    }
  }

  /** Two CRs in sync at once agree. */
  lemma InSyncMeansAgreed(cfg: Config, v: World, a: string, c: string, ldap: map<string, string>)
    requires GroupInSync(cfg, v, a, ldap) && GroupInSync(cfg, v, c, ldap)
    requires ClashFree(v, a, ldap) && ClashFree(v, c, ldap)
    ensures AgreeWith(cfg, v, a, c, ldap)
  {
    forall b, name | Names(cfg, v.groups[a], b, name) && Names(cfg, v.groups[c], b, name)
      ensures Wanted(v, a, b, ldap) == Wanted(v, c, b, ldap)
    {
      assert InSync(cfg, v.p, v.groups[a].groupName, MembersOfGroup(v.groups, a).value, b, ldap);
      assert InSync(cfg, v.p, v.groups[c].groupName, MembersOfGroup(v.groups, c).value, b, ldap);
    }
  }

  lemma InSyncMeansAllAgree(cfg: Config, v: World, names: seq<string>, ldap: map<string, string>)
    requires AllPrepared(cfg, v, names, ldap) && AllClashFree(cfg, v, names, ldap) && AllInSync(cfg, v, names, ldap)
    ensures AllAgree(cfg, v, names, ldap)
  {
    forall i, j | 0 <= i < |names| && 0 <= j < |names|
      ensures AgreeWith(cfg, v, names[i], names[j], ldap)
    {
      assert ClashFree(v, names[i], ldap) && ClashFree(v, names[j], ldap);
      InSyncMeansAgreed(cfg, v, names[i], names[j], ldap);
    }
  }

  /** Any CRs reconciled in any order, each without error: where no name clashes with an ID,
      they are in sync all at once exactly when no two of them want different members in a team
      they have in common. */
  lemma AllInSyncExactly(cfg: Config, mail: string -> bool, ws: seq<World>, names: seq<string>,
                         envs: seq<Env>, ldap: map<string, string>)
    requires Succession(cfg, ws, names, envs) && Runs.Inv(cfg, mail, ws[0]) && Live(ws[0].groups, names)
    requires SameDirectory(envs, ldap) && Mails(mail, ldap)
    ensures AllPrepared(cfg, ws[|names|], names, ldap)
    ensures
      var v := ws[|names|];
      AllClashFree(cfg, v, names, ldap) ==> (AllInSync(cfg, v, names, ldap) <==> AllAgree(cfg, v, names, ldap))
  {
    var n := |names|;
    var v := ws[n];
    SuccessionIsChain(cfg, mail, ws, names, envs, ldap);
    assert names[..n] == names;
    AllEndPrepared(cfg, mail, ws, names, ldap, n);
    if AllClashFree(cfg, v, names, ldap) && AllAgree(cfg, v, names, ldap) {
      AgreeingEndInSync(cfg, mail, ws, names, ldap, n);
    }
    if AllClashFree(cfg, v, names, ldap) && AllInSync(cfg, v, names, ldap) {
      InSyncMeansAllAgree(cfg, v, names, ldap);
    }
  }
}
