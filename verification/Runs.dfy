/** Whole runs: any sequence of reconciles, edits, deletions and outside membership
    changes, and what holds in every world they reach. */
module Runs {
  import opened Common
  import opened Backends
  import opened Sync
  import opened Reconcile
  import opened Deletion
  import opened Invariants
  import Owners
  import Status

  // ---------------------------------------------------------------- runs

  datatype Step =
    | Apply(name: string, cr: GroupCR)           // a user creates or edits a CR
    | RequestDelete(name: string)                // a user deletes a CR
    | Purge(name: string)                        // the API server drops a deleted CR without finalizer
    | Drift(ref: TeamRef, members: set<string>)  // somebody else edits a team's membership
    | Run(name: string, env: Env)                // the operator reconciles a CR

  function Next(cfg: Config, w: World, s: Step): World {
    match s
    case Apply(name, cr) => w.(groups := w.groups[name := cr])
    case RequestDelete(name) =>
      if name in w.groups then w.(groups := w.groups[name := w.groups[name].(deleting := true)]) else w
    case Purge(name) =>
      if name in w.groups && w.groups[name].deleting && !w.groups[name].finalizer
      then w.(groups := w.groups - {name}) else w
    case Drift(ref, members) =>
      if ref in w.p.teams
      then w.(p := w.p.(teams := w.p.teams[ref := w.p.teams[ref].(members := members)])) else w
    case Run(name, env) => ReconcileGroup(cfg, w, name, env).w
  }

  function RunFrom(cfg: Config, w: World, steps: seq<Step>): World
    decreases steps
  {
    if steps == [] then w else RunFrom(cfg, Next(cfg, w, steps[0]), steps[1..])
  }

  /** CRs may be edited in any way; created IDs are not empty and emails are no team names. */
  ghost predicate ValidStep(cfg: Config, mail: string -> bool, s: Step) {
    match s
    case Apply(_, cr) => NamesApart(cfg, mail, cr)
    case Run(_, env) => NonEmptyIds(env) && MailsOnly(mail, env)
    case _ => true
  }

  ghost predicate ValidRun(cfg: Config, mail: string -> bool, steps: seq<Step>) {
    forall i :: 0 <= i < |steps| ==> ValidStep(cfg, mail, steps[i])
  }

  /** No CR but `n` covers this team. */
  ghost predicate OnlyCoveredBy(cfg: Config, groups: Groups, n: string, b: Backend, name: string) {
    forall m :: m in groups && m != n ==> !Covers(cfg, groups[m], b, name)
  }

  /** Storing `cr` under `n` lets go of no team: it covers every live created team that no
      other CR covers. */
  ghost predicate SafeEdit(cfg: Config, groups: Groups, p: Platform, n: string, cr: GroupCR) {
    forall ref | ref in p.teams && Created(p, ref) && OnlyCoveredBy(cfg, groups, n, ref.b, p.teams[ref].name) ::
      Covers(cfg, cr, ref.b, p.teams[ref].name)
  }

  /** The step is no edit, or a safe one. */
  ghost predicate SafeStep(cfg: Config, w: World, s: Step) {
    s.Apply? ==> SafeEdit(cfg, w.groups, w.p, s.name, s.cr)
  }

  /** All edits along the run are safe. */
  ghost predicate SafeRun(cfg: Config, w: World, steps: seq<Step>)
    decreases steps
  {
    steps == [] || (SafeStep(cfg, w, steps[0]) && SafeRun(cfg, Next(cfg, w, steps[0]), steps[1..]))
  }

  /** Edits that are safe wherever the teams are guarded: storing a new CR, all edits while the
      finalizer is absent, those that keep it, the group name and the listed backends, and those
      that take off only backends on which the CR's team is not live. */
  lemma EditsThatAreSafe(cfg: Config, groups: Groups, p: Platform, n: string, cr: GroupCR)
    requires Guarded(cfg, groups, p)
    requires n in groups && groups[n].finalizer ==>
      && cr.finalizer && cr.groupName == groups[n].groupName
      && forall ref :: ref in p.teams && Created(p, ref) && Covers(cfg, groups[n], ref.b, p.teams[ref].name) ==>
           ref.b in cr.backends
    ensures SafeEdit(cfg, groups, p, n, cr)
  {
    forall ref | ref in p.teams && Created(p, ref) && OnlyCoveredBy(cfg, groups, n, ref.b, p.teams[ref].name)
      ensures Covers(cfg, cr, ref.b, p.teams[ref].name)
    {
      var m :| m in groups && Covers(cfg, groups[m], ref.b, p.teams[ref].name);
      assert m == n;
    }
  }

  // ---------------------------------------------------------------- the invariant

  ghost predicate Inv(cfg: Config, mail: string -> bool, w: World) {
    && (forall n :: n in w.groups ==> NamesApart(cfg, mail, w.groups[n]))
    && Coherent(mail, w.p)
  }

  /** From `w` to `w'` the invariant is kept, and finalizers guard all teams if they did. */
  ghost predicate WorldKept(cfg: Config, mail: string -> bool, w: World, w': World) {
    Inv(cfg, mail, w') && (Guarded(cfg, w.groups, w.p) ==> Guarded(cfg, w'.groups, w'.p))
  }

  lemma CoverAfterStore(cfg: Config, g: Groups, n: string, cr: GroupCR, b: Backend, name: string)
    ensures Covered(cfg, g[n := cr], b, name) <==> !OnlyCoveredBy(cfg, g, n, b, name) || Covers(cfg, cr, b, name)
  {
    var g' := g[n := cr];
    if Covers(cfg, cr, b, name) {
      assert n in g' && Covers(cfg, g'[n], b, name);
    } else if !OnlyCoveredBy(cfg, g, n, b, name) {
      var m :| m in g && m != n && Covers(cfg, g[m], b, name);
      assert m in g' && Covers(cfg, g'[m], b, name);
    }
  }

  /** An edit leaves the teams guarded exactly when it is safe. */
  lemma EditKeepsGuardExactly(cfg: Config, groups: Groups, p: Platform, n: string, cr: GroupCR)
    ensures Guarded(cfg, groups[n := cr], p) <==> SafeEdit(cfg, groups, p, n, cr)
  {
    forall ref | ref in p.teams && Created(p, ref)
      ensures Covered(cfg, groups[n := cr], ref.b, p.teams[ref].name) <==>
        (OnlyCoveredBy(cfg, groups, n, ref.b, p.teams[ref].name) ==> Covers(cfg, cr, ref.b, p.teams[ref].name))
    {
      CoverAfterStore(cfg, groups, n, cr, ref.b, p.teams[ref].name);
    }
  }

  lemma PurgeKeepsGuard(cfg: Config, g: Groups, p: Platform, n: string)
    requires Guarded(cfg, g, p) && n in g && !g[n].finalizer
    ensures Guarded(cfg, g - {n}, p)
  {
    forall ref | ref in p.teams && Created(p, ref)
      ensures Covered(cfg, g - {n}, ref.b, p.teams[ref].name)
    {
      var m :| m in g && Covers(cfg, g[m], ref.b, p.teams[ref].name);
      assert m in g - {n};
    }
  }

  lemma PutKeeps(cfg: Config, mail: string -> bool, w: World, n: string, cr: GroupCR, env: Env)
    requires Inv(cfg, mail, w) && n in w.groups
    requires cr.groupName == w.groups[n].groupName && cr.backends == w.groups[n].backends
    requires w.groups[n].finalizer ==> cr.finalizer
    ensures WorldKept(cfg, mail, w, Put(w, n, cr, env).w)
  {
    var put := Put(w, n, cr, env).w;
    assert NamesApart(cfg, mail, w.groups[n]);
    OnlyTick(cfg, mail, w.groups, w.p, put.p);
    if Guarded(cfg, w.groups, w.p) {
      EditsThatAreSafe(cfg, w.groups, put.p, n, cr);
      EditKeepsGuardExactly(cfg, w.groups, put.p, n, cr);
    }
  }

  /** The finalizer goes after the team slots have been emptied. */
  lemma ReleaseKeeps(cfg: Config, mail: string -> bool, w: World, n: string, env: Env)
    requires Inv(cfg, mail, w) && n in w.groups
    requires forall e, k :: IsTeamSlot(cfg, w.groups[n].groupName, w.groups[n].backends, e, k) ==>
      CachedId(w.p.cache, e, k) == ""
    ensures WorldKept(cfg, mail, w, Put(w, n, w.groups[n].(finalizer := false), env).w)
  {
    var put := Put(w, n, w.groups[n].(finalizer := false), env).w;
    assert NamesApart(cfg, mail, w.groups[n]);
    OnlyTick(cfg, mail, w.groups, w.p, put.p);
    if Guarded(cfg, w.groups, w.p) { ReleaseKeepsGuard(cfg, w.groups, put.p, n); }
  }

  lemma FinalizeKeeps(cfg: Config, mail: string -> bool, w: World, n: string, env: Env)
    requires Inv(cfg, mail, w) && n in w.groups
    ensures WorldKept(cfg, mail, w, Finalize(cfg, w, n, env).w)
  {
    var cr := w.groups[n];
    if cr.finalizer {
      var d := DeleteTeams(cfg, w.p, cr.groupName, cr.backends, env);
      DeleteTeamsKeeps(cfg, mail, w.groups, w.p, cr, cr.backends, env);
      if d.r.Ok? {
        SlotsAreEmpty(cfg, w.p, cr.groupName, cr.backends, env);
        ReleaseKeeps(cfg, mail, w.(p := d.p), n, env);
      }
    }
  }

  lemma SlotsAreEmpty(cfg: Config, p: Platform, groupName: string, backends: seq<Backend>, env: Env)
    requires DeleteTeams(cfg, p, groupName, backends, env).r.Ok?
    ensures forall e, k :: IsTeamSlot(cfg, groupName, backends, e, k) ==>
      CachedId(DeleteTeams(cfg, p, groupName, backends, env).p.cache, e, k) == ""
  {
    DeleteTeamsEffect(cfg, p, groupName, backends, env);
  }

  lemma SetOwnersKeeps(cfg: Config, mail: string -> bool, w: World, n: string, env: Env)
    requires Inv(cfg, mail, w) && n in w.groups
    ensures WorldKept(cfg, mail, w, SetOwners(w, n, env).w)
    ensures n in SetOwners(w, n, env).w.groups
    ensures SetOwners(w, n, env).w.groups[n].finalizer == w.groups[n].finalizer
  {
    var refs := Owners.NewOwners(w.groups, w.groups[n], env.arrange);
    if refs.Ok? && refs.value.Some? {
      PutKeeps(cfg, mail, w, n, w.groups[n].(owners := refs.value.value), env);
    }
  }

  lemma PrepareKeeps(cfg: Config, mail: string -> bool, w: World, n: string, env: Env)
    requires Inv(cfg, mail, w) && n in w.groups
    ensures WorldKept(cfg, mail, w, Prepare(w, n, env).w)
    ensures Prepare(w, n, env).r.Ok? ==> Prepare(w, n, env).w.groups[n].finalizer
  {
    var a := AddFinalizer(w, n, env);
    assert WorldKept(cfg, mail, w, a.w) by {
      PutKeeps(cfg, mail, w, n, w.groups[n].(finalizer := true), env);
    }
    if a.r.Ok? {
      var o := SetOwners(a.w, n, env);
      SetOwnersKeeps(cfg, mail, a.w, n, env);
      if o.r.Ok? {
        PutKeeps(cfg, mail, o.w, n, Status.Waiting(o.w.groups[n]), env);
      }
    }
  }

  lemma SyncGroupKeeps(cfg: Config, mail: string -> bool, w: World, n: string, env: Env)
    requires Inv(cfg, mail, w) && n in w.groups && w.groups[n].finalizer && NonEmptyIds(env) && MailsOnly(mail, env)
    ensures WorldKept(cfg, mail, w, SyncGroup(cfg, w, n, env).w)
  {
    var cr := w.groups[n];
    var users := MembersOfGroup(w.groups, n);
    if users.Ok? {
      var env' := env.(ldap := Snapshot(users.value, env.ldap));
      SyncAllKeeps(cfg, mail, w.groups, w.p, n, users.value, cr.backends, env', map[]);
      var loop := GroupLoop(cfg, w, n, users.value, env);
      if loop.end.Finished? {
        PutKeeps(cfg, mail, w.(p := loop.p), n, Status.Report(cr, users.value, loop.end.errors), env);
      }
    }
  }

  lemma ReconcileKeeps(cfg: Config, mail: string -> bool, w: World, n: string, env: Env)
    requires Inv(cfg, mail, w) && NonEmptyIds(env) && MailsOnly(mail, env)
    ensures WorldKept(cfg, mail, w, ReconcileGroup(cfg, w, n, env).w)
  {
    if n in w.groups {
      if w.groups[n].deleting {
        FinalizeKeeps(cfg, mail, w, n, env);
      } else {
        PrepareKeeps(cfg, mail, w, n, env);
        var ready := Prepare(w, n, env);
        if ready.r.Ok? { SyncGroupKeeps(cfg, mail, ready.w, n, env); }
      }
    }
  }

  lemma StoreKeeps(cfg: Config, mail: string -> bool, w: World, n: string, cr: GroupCR)
    requires Inv(cfg, mail, w) && NamesApart(cfg, mail, cr)
    ensures Inv(cfg, mail, w.(groups := w.groups[n := cr]))
    ensures Guarded(cfg, w.groups[n := cr], w.p) <==> SafeEdit(cfg, w.groups, w.p, n, cr)
  {
    EditKeepsGuardExactly(cfg, w.groups, w.p, n, cr);
  }

  lemma DeleteRequestKeeps(cfg: Config, mail: string -> bool, w: World, n: string)
    requires Inv(cfg, mail, w) && n in w.groups
    ensures WorldKept(cfg, mail, w, w.(groups := w.groups[n := w.groups[n].(deleting := true)]))
  {
    var cr := w.groups[n].(deleting := true);
    assert NamesApart(cfg, mail, w.groups[n]);
    StoreKeeps(cfg, mail, w, n, cr);
    if Guarded(cfg, w.groups, w.p) { EditsThatAreSafe(cfg, w.groups, w.p, n, cr); }
  }

  lemma PurgeKeeps(cfg: Config, mail: string -> bool, w: World, n: string)
    requires Inv(cfg, mail, w)
    ensures WorldKept(cfg, mail, w, Next(cfg, w, Purge(n)))
  {
    if Guarded(cfg, w.groups, w.p) && n in w.groups && !w.groups[n].finalizer {
      PurgeKeepsGuard(cfg, w.groups, w.p, n);
    }
  }

  lemma DriftKeeps(cfg: Config, mail: string -> bool, w: World, ref: TeamRef, members: set<string>)
    requires Inv(cfg, mail, w)
    ensures WorldKept(cfg, mail, w, Next(cfg, w, Drift(ref, members)))
  {
    SameTeamsKeep(cfg, mail, w.groups, w.p, Next(cfg, w, Drift(ref, members)).p);
  }

  /** Every step keeps the platform coherent, and finalizers guarding all created teams
      exactly unless it is an unsafe edit. */
  lemma StepKeeps(cfg: Config, mail: string -> bool, w: World, s: Step)
    requires Inv(cfg, mail, w) && ValidStep(cfg, mail, s)
    ensures Inv(cfg, mail, Next(cfg, w, s))
    ensures Guarded(cfg, w.groups, w.p) ==>
      (Guarded(cfg, Next(cfg, w, s).groups, Next(cfg, w, s).p) <==> SafeStep(cfg, w, s))
  {
    match s
    case Apply(n, cr) => StoreKeeps(cfg, mail, w, n, cr);
    case RequestDelete(n) => if n in w.groups { DeleteRequestKeeps(cfg, mail, w, n); }
    case Purge(n) => PurgeKeeps(cfg, mail, w, n);
    case Drift(ref, members) => DriftKeeps(cfg, mail, w, ref, members);
    case Run(n, env) => ReconcileKeeps(cfg, mail, w, n, env);
  }

  lemma {:induction false} RunKeeps(cfg: Config, mail: string -> bool, w: World, steps: seq<Step>)
    requires Inv(cfg, mail, w) && ValidRun(cfg, mail, steps)
    ensures Inv(cfg, mail, RunFrom(cfg, w, steps))
    ensures Guarded(cfg, w.groups, w.p) && SafeRun(cfg, w, steps) ==>
      Guarded(cfg, RunFrom(cfg, w, steps).groups, RunFrom(cfg, w, steps).p)
    decreases steps
  {
    if steps != [] {
      assert ValidStep(cfg, mail, steps[0]);
      var w1 := Next(cfg, w, steps[0]);
      StepKeeps(cfg, mail, w, steps[0]);
      RunKeeps(cfg, mail, w1, steps[1..]);
    }
  }

  // ---------------------------------------------------------------- what follows for every run

  /** Where a run can start: no history, a well-formed cache whose team IDs name live
      teams, and team names that are no emails. */
  ghost predicate Initial(cfg: Config, mail: string -> bool, w: World) {
    && w.p.log == []
    && WellFormed(w.p.cache)
    && LiveIds(mail, w.p)
    && forall n :: n in w.groups ==> NamesApart(cfg, mail, w.groups[n])
  }

  lemma RunInvariant(cfg: Config, mail: string -> bool, w: World, steps: seq<Step>)
    requires Initial(cfg, mail, w) && ValidRun(cfg, mail, steps)
    ensures Inv(cfg, mail, RunFrom(cfg, w, steps))
  {
    RunKeeps(cfg, mail, w, steps);
  }

  /** Finalizer safety: in every world reached by safe edits, a live team that some reconcile
      created is covered by a stored CR that still has the finalizer, and its ID is cached
      where the deletion of that CR will look for it. */
  lemma FinalizerSafety(cfg: Config, mail: string -> bool, w: World, steps: seq<Step>, ref: TeamRef)
    requires Initial(cfg, mail, w) && ValidRun(cfg, mail, steps) && SafeRun(cfg, w, steps)
    requires ref in RunFrom(cfg, w, steps).p.teams && Created(RunFrom(cfg, w, steps).p, ref)
    ensures
      var v := RunFrom(cfg, w, steps);
      var name := v.p.teams[ref].name;
      exists n :: n in v.groups && v.groups[n].finalizer
        && IsTeamSlot(cfg, v.groups[n].groupName, v.groups[n].backends, name, CacheKey(ref.b))
        && CachedId(v.p.cache, name, CacheKey(ref.b)) == ref.id
  {
    RunKeeps(cfg, mail, w, steps);
    var v := RunFrom(cfg, w, steps);
    var name := v.p.teams[ref].name;
    assert Covered(cfg, v.groups, ref.b, name);
    var n :| n in v.groups && Covers(cfg, v.groups[n], ref.b, name);
    assert IsTeamSlot(cfg, v.groups[n].groupName, v.groups[n].backends, name, CacheKey(ref.b));
  }

  /** Finalizers guard all created teams after the first `k` steps. */
  ghost predicate GuardedAt(cfg: Config, w: World, steps: seq<Step>, k: nat)
    requires k <= |steps|
  {
    var v := RunFrom(cfg, w, steps[..k]);
    Guarded(cfg, v.groups, v.p)
  }

  /** Along a valid run from a guarded world all worlds are guarded exactly when all edits are
      safe: nothing else that happens can let go of a team. */
  lemma {:induction false} GuardedExactlyIfSafe(cfg: Config, mail: string -> bool, w: World, steps: seq<Step>)
    requires Inv(cfg, mail, w) && ValidRun(cfg, mail, steps) && Guarded(cfg, w.groups, w.p)
    ensures SafeRun(cfg, w, steps) <==> forall k :: 0 <= k <= |steps| ==> GuardedAt(cfg, w, steps, k)
    decreases steps
  {
    if steps != [] {
      var s, rest := steps[0], steps[1..];
      assert ValidStep(cfg, mail, s);
      StepKeeps(cfg, mail, w, s);
      var w1 := Next(cfg, w, s);
      assert GuardedAt(cfg, w, steps, 0);
      forall k | 1 <= k <= |steps|
        ensures GuardedAt(cfg, w, steps, k) <==> GuardedAt(cfg, w1, rest, k - 1)
      {
        assert steps[..k][1..] == rest[..k - 1] && steps[..k][0] == s;
      }
      assert rest[..0] == [];
      assert GuardedAt(cfg, w, steps, 1) <==> GuardedAt(cfg, w1, rest, 0);
      if Guarded(cfg, w1.groups, w1.p) {
        GuardedExactlyIfSafe(cfg, mail, w1, rest);
        assert forall k :: 0 <= k <= |rest| && !GuardedAt(cfg, w1, rest, k) ==> !GuardedAt(cfg, w, steps, k + 1);
      }
    }
  }

  /** A CR under deletion that does not list the backend of a team: the reconcile spares the
      team and ends with a CR that does not cover it. */
  lemma FinalizeSpares(cfg: Config, w: World, n: string, ref: TeamRef, env: Env)
    requires n in w.groups && w.groups[n].deleting && ref in w.p.teams && ref.b !in w.groups[n].backends
    ensures
      var v := ReconcileGroup(cfg, w, n, env).w;
      && ref in v.p.teams && v.p.teams[ref] == w.p.teams[ref] && w.p.log <= v.p.log
      && n in v.groups && v.groups == w.groups[n := v.groups[n]] && v.groups[n].backends == w.groups[n].backends
  {
    var cr := w.groups[n];
    DeleteTeamsSpares(cfg, w.p, cr.groupName, cr.backends, env, ref);
    DeleteTeamsEffect(cfg, w.p, cr.groupName, cr.backends, env);
  }

  /** Taking a backend off the list of the only CR that covers a team there, and deleting the
      CR: whatever the calls return, the team stays live with no finalizer to guard it. */
  lemma EditedBackendsLeak(cfg: Config, w: World, n: string, left: seq<Backend>, ref: TeamRef, env: Env)
    requires n in w.groups && ref in w.p.teams && Created(w.p, ref)
    requires OnlyCoveredBy(cfg, w.groups, n, ref.b, w.p.teams[ref].name) && ref.b !in left
    ensures
      var w1 := Next(cfg, w, Apply(n, w.groups[n].(backends := left)));
      var w2 := Next(cfg, w1, RequestDelete(n));
      var v := Next(cfg, w2, Run(n, env));
      && ref in v.p.teams && v.p.teams[ref] == w.p.teams[ref] && Created(v.p, ref)
      && !Covered(cfg, v.groups, ref.b, v.p.teams[ref].name)
  {
    var w1 := Next(cfg, w, Apply(n, w.groups[n].(backends := left)));
    var w2 := Next(cfg, w1, RequestDelete(n));
    FinalizeSpares(cfg, w2, n, ref, env);
    var v := ReconcileGroup(cfg, w2, n, env).w;
    assert v.groups == w.groups[n := v.groups[n]];
    CoverAfterStore(cfg, w.groups, n, v.groups[n], ref.b, w.p.teams[ref].name);
  }

  /** A reconcile that takes the finalizer away: the CR was being deleted, each of its backends
      has a client and a name for the group, and no team ID is cached there any more. */
  lemma FinalizerRemovedMeansClean(cfg: Config, w: World, n: string, env: Env)
    requires n in w.groups && w.groups[n].finalizer
    requires
      var w' := ReconcileGroup(cfg, w, n, env).w;
      n in w'.groups && !w'.groups[n].finalizer
    ensures w.groups[n].deleting
    ensures Cleared(cfg, ReconcileGroup(cfg, w, n, env).w.p.cache, w.groups[n].groupName, w.groups[n].backends)
  {
    if w.groups[n].deleting {
      DeletionSucceedsExactly(cfg, w.p, w.groups[n].groupName, w.groups[n].backends, env);
    } else {
      FinalizerStays(cfg, w, n, env);
    }
  }

  lemma SyncGroupKeepsFinalizer(cfg: Config, w: World, n: string, env: Env)
    requires n in w.groups
    ensures n in SyncGroup(cfg, w, n, env).w.groups
    ensures SyncGroup(cfg, w, n, env).w.groups[n].finalizer == w.groups[n].finalizer
  {
  }

  lemma PrepareKeepsFinalizer(w: World, n: string, env: Env)
    requires n in w.groups && w.groups[n].finalizer
    ensures Prepare(w, n, env).w.groups[n].finalizer
  {
    var o := SetOwners(w, n, env);
    assert AddFinalizer(w, n, env).w == w;
    assert n in o.w.groups && o.w.groups[n].finalizer;
  }

  lemma FinalizerStays(cfg: Config, w: World, n: string, env: Env)
    requires n in w.groups && !w.groups[n].deleting && w.groups[n].finalizer
    ensures n in ReconcileGroup(cfg, w, n, env).w.groups
    ensures ReconcileGroup(cfg, w, n, env).w.groups[n].finalizer
  {
    PrepareKeepsFinalizer(w, n, env);
    SyncGroupKeepsFinalizer(cfg, Prepare(w, n, env).w, n, env);
  }

  /** Over every run, whatever is edited: no user is created twice on a backend, and the
      creations and deletions of a team on a backend alternate. */
  lemma CreatedAtMostOnce(cfg: Config, mail: string -> bool, w: World, steps: seq<Step>)
    requires Initial(cfg, mail, w) && ValidRun(cfg, mail, steps)
    ensures UsersCreatedOnce(RunFrom(cfg, w, steps).p.log)
    ensures TeamsCreatedOnce(RunFrom(cfg, w, steps).p.log)
    ensures TeamsDeletedOnce(RunFrom(cfg, w, steps).p.log)
  {
    RunInvariant(cfg, mail, w, steps);
  }

  /** Over every run, whatever is edited: a user that some reconcile created is cached under the
      ID that the backend gave it, and so is a team that was not deleted since. */
  lemma CreatedIdsAreCached(cfg: Config, mail: string -> bool, w: World, steps: seq<Step>, i: nat)
    requires Initial(cfg, mail, w) && ValidRun(cfg, mail, steps) && i < |RunFrom(cfg, w, steps).p.log|
    ensures
      var p := RunFrom(cfg, w, steps).p;
      match p.log[i]
      case UserCreated(b, email, id) => CachedId(p.cache, email, CacheKey(b)) == id != ""
      case TeamCreated(b, name, id) =>
        DeletedBetween(p.log, i, |p.log|, b, name) || CachedId(p.cache, name, CacheKey(b)) == id != ""
      case TeamDeleted(b, name, _) =>
        CreatedBetween(p.log, i, |p.log|, b, name) || CachedId(p.cache, name, CacheKey(b)) == ""
      case _ => true
  {
    RunInvariant(cfg, mail, w, steps);
    var p := RunFrom(cfg, w, steps).p;
    match p.log[i]
    case UserCreated(b, email, _) => assert IsUserCreation(p.log[i], b, email);
    case TeamCreated(b, name, _) => assert IsTeamCreation(p.log[i], b, name);
    case TeamDeleted(b, name, _) => assert IsTeamDeletion(p.log[i], b, name);
    case _ =>
  }

  /** Cache coherence: in every reachable world all cached values decode to non-empty maps of
      non-empty IDs, every cached team ID names a live team of that name, and every live team
      that was created is cached. What this means inside a reconcile is in module `Failures`. */
  lemma CacheStaysCoherent(cfg: Config, mail: string -> bool, w: World, steps: seq<Step>)
    requires Initial(cfg, mail, w) && ValidRun(cfg, mail, steps)
    ensures
      var v := RunFrom(cfg, w, steps);
      && WellFormed(v.p.cache)
      && LiveIds(mail, v.p)
      && CreatedAreCached(v.p)
      && (forall e :: ReadIds(v.p.cache, e).Ok?)
  {
    RunInvariant(cfg, mail, w, steps);
  }

  // ---------------------------------------------------------------- why emails must be no team names

  /** If an email is also a team name, deleting the team forgets the user, who is then
      created a second time. */
  lemma SharedKeyCreatesTwice(p: Platform, entry: string, b: Backend, env: Env)
    requires NonEmptyIds(env) && NoFaults(env)
    requires entry !in p.cache
    ensures
      var p1 := EnsureUser(p, entry, b, env).p;
      var p2 := DeleteCached(p1, entry, b, env).p;
      var p3 := EnsureUser(p2, entry, b, env).p;
      && |p3.log| == |p.log| + 3
      && IsUserCreation(p3.log[|p.log|], b, entry)
      && IsUserCreation(p3.log[|p.log| + 2], b, entry)
  {
    var p1 := EnsureUser(p, entry, b, env).p;
    assert p1.cache[entry] == Ids(map[CacheKey(b) := env.reply(p.tick).id]);
    DeleteCachedEffect(p1, entry, b, env);
    var p2 := DeleteCached(p1, entry, b, env).p;
    assert CachedId(p2.cache, entry, CacheKey(b)) == "";
  }
}
