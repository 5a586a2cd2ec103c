/** What every step of the reconciler keeps: a coherent cache, a history without double
    creation or deletion, and finalizers that guard the teams that were created. */
module Invariants {
  import opened Common
  import opened Naming
  import opened Backends
  import opened Sync
  import opened Reconcile
  import opened Deletion

  // ---------------------------------------------------------------- the cache

  /** Every cached value is a non-empty map from keys to non-empty IDs. */
  ghost predicate WellFormed(cache: Cache) {
    forall e :: e in cache ==>
      cache[e].Ids? && cache[e].ids != map[] && forall k :: k in cache[e].ids ==> cache[e].ids[k] != ""
  }

  /** Every cached team ID names a live team of that name. `mail` tells emails from team
      names in the one key space of the cache. */
  ghost predicate LiveIds(mail: string -> bool, p: Platform) {
    forall e, b: Backend {:trigger CachedId(p.cache, e, CacheKey(b))} ::
      !mail(e) && Supported(b.kind) && CachedId(p.cache, e, CacheKey(b)) != "" ==>
        var ref := TeamRef(b, CachedId(p.cache, e, CacheKey(b)));
        ref in p.teams && p.teams[ref].name == e
  }

  /** The team was created by a reconcile. */
  ghost predicate Created(p: Platform, ref: TeamRef)
    requires ref in p.teams
  {
    TeamCreated(ref.b, p.teams[ref].name, ref.id) in p.log
  }

  /** Every live team that a reconcile created is cached under its name. */
  ghost predicate CreatedAreCached(p: Platform) {
    forall ref :: ref in p.teams && Created(p, ref) ==>
      ref.id != "" && CachedId(p.cache, p.teams[ref].name, CacheKey(ref.b)) == ref.id
  }

  // ---------------------------------------------------------------- the history

  predicate IsUserCreation(e: Event, b: Backend, email: string) {
    e.UserCreated? && e.b == b && e.email == email
  }

  predicate IsTeamCreation(e: Event, b: Backend, name: string) {
    e.TeamCreated? && e.b == b && e.name == name
  }

  predicate IsTeamDeletion(e: Event, b: Backend, name: string) {
    e.TeamDeleted? && e.b == b && e.name == name
  }

  /** Events concern accepted backends; users are created by email, teams by name. */
  ghost predicate EventsKnown(mail: string -> bool, log: seq<Event>) {
    forall i :: 0 <= i < |log| ==>
      && (log[i].UserCreated? ==> Supported(log[i].b.kind) && mail(log[i].email))
      && (log[i].TeamCreated? || log[i].TeamDeleted? ==> Supported(log[i].b.kind) && !mail(log[i].name))
  }

  /** No user is created twice on a backend. */
  ghost predicate UsersCreatedOnce(log: seq<Event>) {
    forall i, j, b, email :: 0 <= i < j < |log| && IsUserCreation(log[i], b, email) ==>
      !IsUserCreation(log[j], b, email)
  }

  ghost predicate DeletedBetween(log: seq<Event>, i: int, j: int, b: Backend, name: string) {
    exists k :: 0 <= i < k < j <= |log| && IsTeamDeletion(log[k], b, name)
  }

  ghost predicate CreatedBetween(log: seq<Event>, i: int, j: int, b: Backend, name: string) {
    exists k :: 0 <= i < k < j <= |log| && IsTeamCreation(log[k], b, name)
  }

  /** Between two creations of a team on a backend lies a deletion of it. */
  ghost predicate TeamsCreatedOnce(log: seq<Event>) {
    forall i, j, b, name ::
      0 <= i < j < |log| && IsTeamCreation(log[i], b, name) && IsTeamCreation(log[j], b, name) ==>
        DeletedBetween(log, i, j, b, name)
  }

  /** Between two deletions of a team on a backend lies a creation of it. */
  ghost predicate TeamsDeletedOnce(log: seq<Event>) {
    forall i, j, b, name ::
      0 <= i < j < |log| && IsTeamDeletion(log[i], b, name) && IsTeamDeletion(log[j], b, name) ==>
        CreatedBetween(log, i, j, b, name)
  }

  /** What has been created and not deleted since is cached under the ID it was created with. */
  ghost predicate Remembered(cache: Cache, log: seq<Event>) {
    && (forall i, b, email :: 0 <= i < |log| && IsUserCreation(log[i], b, email) ==>
          CachedId(cache, email, CacheKey(b)) == log[i].id != "")
    && (forall i, b, name ::
          0 <= i < |log| && IsTeamCreation(log[i], b, name) && !DeletedBetween(log, i, |log|, b, name) ==>
            CachedId(cache, name, CacheKey(b)) == log[i].id != "")
  }

  /** What has been deleted and not created since is not cached. */
  ghost predicate Forgotten(cache: Cache, log: seq<Event>) {
    forall i, b, name ::
      0 <= i < |log| && IsTeamDeletion(log[i], b, name) && !CreatedBetween(log, i, |log|, b, name) ==>
        CachedId(cache, name, CacheKey(b)) == ""
  }

  ghost predicate HistoryOk(mail: string -> bool, cache: Cache, log: seq<Event>) {
    && EventsKnown(mail, log)
    && UsersCreatedOnce(log) && TeamsCreatedOnce(log) && TeamsDeletedOnce(log)
    && Remembered(cache, log) && Forgotten(cache, log)
  }

  // ---------------------------------------------------------------- the invariants

  /** What holds whatever CRs there are. */
  ghost predicate Coherent(mail: string -> bool, p: Platform) {
    WellFormed(p.cache) && LiveIds(mail, p) && CreatedAreCached(p) && HistoryOk(mail, p.cache, p.log)
  }

  /** The CR has the finalizer and names this team on this backend. */
  predicate Covers(cfg: Config, cr: GroupCR, b: Backend, name: string) {
    cr.finalizer && b in cr.backends && Transform(cfg.patterns, b.kind, cr.groupName) == Ok(name)
  }

  ghost predicate Covered(cfg: Config, groups: Groups, b: Backend, name: string) {
    exists n :: n in groups && Covers(cfg, groups[n], b, name)
  }

  /** Every live team that a reconcile created is covered by some CR. */
  ghost predicate Guarded(cfg: Config, groups: Groups, p: Platform) {
    forall ref :: ref in p.teams && Created(p, ref) ==> Covered(cfg, groups, ref.b, p.teams[ref].name)
  }

  /** From `p` to `q` the platform stays coherent, and guarded if it was. */
  ghost predicate Keeps(cfg: Config, mail: string -> bool, groups: Groups, p: Platform, q: Platform) {
    Coherent(mail, q) && (Guarded(cfg, groups, p) ==> Guarded(cfg, groups, q))
  }

  // ---------------------------------------------------------------- one event more

  lemma SameKey(a: Backend, b: Backend)
    requires Supported(a.kind) && Supported(b.kind)
    ensures CacheKey(a) == CacheKey(b) <==> a == b
  {
    if CacheKey(a) == CacheKey(b) { CacheKeyInjective(a, b); }
  }

  lemma DeletedBetweenGrows(log: seq<Event>, log': seq<Event>, i: int, j: int, b: Backend, name: string)
    requires log <= log' && DeletedBetween(log, i, j, b, name)
    ensures DeletedBetween(log', i, j, b, name)
  {
    var k :| 0 <= i < k < j <= |log| && IsTeamDeletion(log[k], b, name);
    assert IsTeamDeletion(log'[k], b, name);
  }

  lemma CreatedBetweenGrows(log: seq<Event>, log': seq<Event>, i: int, j: int, b: Backend, name: string)
    requires log <= log' && CreatedBetween(log, i, j, b, name)
    ensures CreatedBetween(log', i, j, b, name)
  {
    var k :| 0 <= i < k < j <= |log| && IsTeamCreation(log[k], b, name);
    assert IsTeamCreation(log'[k], b, name);
  }

  /** Cached IDs change only where the event is a deletion, and then are lost; team IDs are gained
      only where it is a creation. */
  ghost predicate Explains(mail: string -> bool, p: Platform, q: Platform, ev: Event) {
    && (forall e, b: Backend {:trigger CachedId(q.cache, e, CacheKey(b))} ::
          && Supported(b.kind) && CachedId(p.cache, e, CacheKey(b)) != ""
          && CachedId(p.cache, e, CacheKey(b)) != CachedId(q.cache, e, CacheKey(b)) ==>
            !mail(e) && IsTeamDeletion(ev, b, e))
    && (forall e, b: Backend {:trigger CachedId(q.cache, e, CacheKey(b))} ::
          Supported(b.kind) && CachedId(p.cache, e, CacheKey(b)) == "" && CachedId(q.cache, e, CacheKey(b)) != "" ==>
            mail(e) || IsTeamCreation(ev, b, e))
  }

  /** A creation fills an empty place of the cache with the new ID, a deletion empties the place
      that held the ID of the deleted team. */
  ghost predicate Recorded(p: Platform, q: Platform, ev: Event) {
    match ev
    case UserCreated(b, email, id) =>
      CachedId(p.cache, email, CacheKey(b)) == "" && CachedId(q.cache, email, CacheKey(b)) == id != ""
    case TeamCreated(b, name, id) =>
      CachedId(p.cache, name, CacheKey(b)) == "" && CachedId(q.cache, name, CacheKey(b)) == id != ""
    case TeamDeleted(b, name, id) =>
      CachedId(p.cache, name, CacheKey(b)) == id != "" && CachedId(q.cache, name, CacheKey(b)) == ""
    case _ => true
  }

  lemma EventKeepsHistory(mail: string -> bool, p: Platform, q: Platform, ev: Event)
    requires HistoryOk(mail, p.cache, p.log) && q.log == p.log + [ev] && EventsKnown(mail, [ev])
    requires Recorded(p, q, ev) && Explains(mail, p, q, ev)
    ensures HistoryOk(mail, q.cache, q.log)
  {
    assert EventsKnown(mail, q.log) by {
      assert [ev][0] == ev;
      assert forall i :: 0 <= i < |p.log| ==> q.log[i] == p.log[i];
    }
    UsersStayOnce(p, q, ev);
    TeamsStayOnce(p, q, ev);
    StaysRemembered(mail, p, q, ev);
    StaysForgotten(mail, p, q, ev);
  }

  lemma UsersStayOnce(p: Platform, q: Platform, ev: Event)
    requires UsersCreatedOnce(p.log) && Remembered(p.cache, p.log) && q.log == p.log + [ev] && Recorded(p, q, ev)
    ensures UsersCreatedOnce(q.log)
  {
    forall i, j, b, email | 0 <= i < j < |q.log| && IsUserCreation(q.log[i], b, email)
      ensures !IsUserCreation(q.log[j], b, email)
    {
      assert q.log[i] == p.log[i];
      if j < |p.log| { assert q.log[j] == p.log[j]; }
    }
  }

  lemma TeamsStayOnce(p: Platform, q: Platform, ev: Event)
    requires TeamsCreatedOnce(p.log) && TeamsDeletedOnce(p.log)
    requires Remembered(p.cache, p.log) && Forgotten(p.cache, p.log)
    requires q.log == p.log + [ev] && Recorded(p, q, ev)
    ensures TeamsCreatedOnce(q.log) && TeamsDeletedOnce(q.log)
  {
    forall i, j, b, name |
      0 <= i < j < |q.log| && IsTeamCreation(q.log[i], b, name) && IsTeamCreation(q.log[j], b, name)
      ensures DeletedBetween(q.log, i, j, b, name)
    {
      assert q.log[i] == p.log[i] && IsTeamCreation(p.log[i], b, name);
      if j < |p.log| { assert q.log[j] == p.log[j]; }
      assert DeletedBetween(p.log, i, j, b, name);
      DeletedBetweenGrows(p.log, q.log, i, j, b, name);
    }
    forall i, j, b, name |
      0 <= i < j < |q.log| && IsTeamDeletion(q.log[i], b, name) && IsTeamDeletion(q.log[j], b, name)
      ensures CreatedBetween(q.log, i, j, b, name)
    {
      assert q.log[i] == p.log[i] && IsTeamDeletion(p.log[i], b, name);
      if j < |p.log| { assert q.log[j] == p.log[j]; }
      assert CreatedBetween(p.log, i, j, b, name);
      CreatedBetweenGrows(p.log, q.log, i, j, b, name);
    }
  }

  lemma StaysRemembered(mail: string -> bool, p: Platform, q: Platform, ev: Event)
    requires Remembered(p.cache, p.log) && EventsKnown(mail, p.log) && q.log == p.log + [ev]
    requires Recorded(p, q, ev) && Explains(mail, p, q, ev)
    ensures Remembered(q.cache, q.log)
  {
    var n := |p.log|;
    forall i, b, email | 0 <= i < |q.log| && IsUserCreation(q.log[i], b, email)
      ensures CachedId(q.cache, email, CacheKey(b)) == q.log[i].id != ""
    {
      if i < n { assert q.log[i] == p.log[i] && IsUserCreation(p.log[i], b, email); }
    }
    forall i, b, name |
      0 <= i < |q.log| && IsTeamCreation(q.log[i], b, name) && !DeletedBetween(q.log, i, n + 1, b, name)
      ensures CachedId(q.cache, name, CacheKey(b)) == q.log[i].id != ""
    {
      if i < n {
        assert q.log[i] == p.log[i] && IsTeamCreation(p.log[i], b, name);
        if DeletedBetween(p.log, i, n, b, name) { DeletedBetweenGrows(p.log, q.log, i, n, b, name); }
        assert !DeletedBetween(p.log, i, n, b, name);
        assert q.log[n] == ev;
        assert !IsTeamDeletion(ev, b, name);
      }
    }
  }

  lemma StaysForgotten(mail: string -> bool, p: Platform, q: Platform, ev: Event)
    requires Forgotten(p.cache, p.log) && EventsKnown(mail, p.log) && q.log == p.log + [ev]
    requires Recorded(p, q, ev) && Explains(mail, p, q, ev)
    ensures Forgotten(q.cache, q.log)
  {
    var n := |p.log|;
    forall i, b, name |
      0 <= i < |q.log| && IsTeamDeletion(q.log[i], b, name) && !CreatedBetween(q.log, i, n + 1, b, name)
      ensures CachedId(q.cache, name, CacheKey(b)) == ""
    {
      if i < n {
        assert q.log[i] == p.log[i] && IsTeamDeletion(p.log[i], b, name);
        if CreatedBetween(p.log, i, n, b, name) { CreatedBetweenGrows(p.log, q.log, i, n, b, name); }
        assert !CreatedBetween(p.log, i, n, b, name);
        assert q.log[n] == ev;
        assert !IsTeamCreation(ev, b, name);
      }
    }
  }

  // ---------------------------------------------------------------- creation

  /** An ID was added at one place of the cache. */
  ghost predicate IdAdded(p: Platform, q: Platform, entry: string, b: Backend, id: string) {
    && id != "" && CachedId(p.cache, entry, CacheKey(b)) == ""
    && (forall e, k {:trigger CachedId(q.cache, e, k)} ::
          CachedId(q.cache, e, k) == if e == entry && k == CacheKey(b) then id else CachedId(p.cache, e, k))
  }

  lemma WriteKeepsWellFormed(cache: Cache, entry: string, ids: map<string, string>, key: string, id: string)
    requires WellFormed(cache) && ReadIds(cache, entry) == Ok(ids) && id != ""
    ensures WellFormed(WriteId(cache, entry, ids, key, id))
  {
    assert key in ids[key := id];
  }

  lemma AddedIsExplained(
    mail: string -> bool, p: Platform, q: Platform, entry: string, b: Backend, id: string, ev: Event)
    requires Supported(b.kind) && IdAdded(p, q, entry, b, id)
    requires ev == if mail(entry) then UserCreated(b, entry, id) else TeamCreated(b, entry, id)
    ensures Recorded(p, q, ev) && Explains(mail, p, q, ev)
  {
    forall e, c: Backend | Supported(c.kind) && CachedId(p.cache, e, CacheKey(c)) != CachedId(q.cache, e, CacheKey(c))
      ensures e == entry && c == b
    {
      SameKey(c, b);
    }
  }

  /** A new team, or one handed back, was cached under its name. */
  ghost predicate TeamAdded(p: Platform, q: Platform, b: Backend, name: string, id: string) {
    && IdAdded(p, q, name, b, id)
    && (TeamRef(b, id) in p.teams ==> p.teams[TeamRef(b, id)].name == name)
    && q.teams == p.teams[TeamRef(b, id) := Team(name, MembersOf(p, TeamRef(b, id)))]
    && q.log == p.log + [TeamCreated(b, name, id)]
  }

  lemma TeamAddedKeepsTeams(mail: string -> bool, p: Platform, q: Platform, b: Backend, name: string, id: string)
    requires CreatedAreCached(p) && LiveIds(mail, p) && EventsKnown(mail, p.log)
    requires Supported(b.kind) && !mail(name) && TeamAdded(p, q, b, name, id)
    ensures CreatedAreCached(q) && LiveIds(mail, q)
  {
    forall ref | ref in q.teams && Created(q, ref)
      ensures ref.id != "" && CachedId(q.cache, q.teams[ref].name, CacheKey(ref.b)) == ref.id
    {
      if ref != TeamRef(b, id) {
        assert Created(p, ref);
        var i :| 0 <= i < |p.log| && p.log[i] == TeamCreated(ref.b, p.teams[ref].name, ref.id);
        SameKey(ref.b, b);
      }
    }
    forall e, c: Backend | !mail(e) && Supported(c.kind) && CachedId(q.cache, e, CacheKey(c)) != ""
      ensures TeamRef(c, CachedId(q.cache, e, CacheKey(c))) in q.teams
      ensures q.teams[TeamRef(c, CachedId(q.cache, e, CacheKey(c)))].name == e
    {
      SameKey(c, b);
      if !(e == name && c == b) { assert CachedId(p.cache, e, CacheKey(c)) != ""; }
    }
  }

  lemma TeamAddedKeepsGuard(cfg: Config, groups: Groups, p: Platform, q: Platform, b: Backend, name: string, id: string)
    requires Guarded(cfg, groups, p) && Covered(cfg, groups, b, name) && TeamAdded(p, q, b, name, id)
    ensures Guarded(cfg, groups, q)
  {
    forall ref | ref in q.teams && Created(q, ref)
      ensures Covered(cfg, groups, ref.b, q.teams[ref].name)
    {
      if ref != TeamRef(b, id) { assert Created(p, ref); }
    }
  }

  lemma FetchOrCreateKeeps(cfg: Config, mail: string -> bool, groups: Groups, p: Platform,
                           name: string, b: Backend, env: Env)
    requires Coherent(mail, p) && NonEmptyIds(env)
    requires Supported(b.kind) && !mail(name) && Covered(cfg, groups, b, name)
    ensures Keeps(cfg, mail, groups, p, FetchOrCreate(p, name, b, env).p)
  {
    var q := FetchOrCreate(p, name, b, env).p;
    if |q.log| > |p.log| {
      var ids := ReadIds(p.cache, name).value;
      var id := env.reply(p.tick).id;
      WriteIdLookup(p.cache, name, ids, CacheKey(b), id);
      WriteKeepsWellFormed(p.cache, name, ids, CacheKey(b), id);
      assert TeamAdded(p, q, b, name, id);
      TeamAddedKeepsTeams(mail, p, q, b, name, id);
      AddedIsExplained(mail, p, q, name, b, id, TeamCreated(b, name, id));
      EventKeepsHistory(mail, p, q, TeamCreated(b, name, id));
      if Guarded(cfg, groups, p) { TeamAddedKeepsGuard(cfg, groups, p, q, b, name, id); }
    } else {
      OnlyTick(cfg, mail, groups, p, q);
    }
  }

  /** The teams differ at most in membership, and as many of them count as created. */
  ghost predicate SameTeams(p: Platform, q: Platform) {
    && q.teams.Keys == p.teams.Keys
    && (forall ref :: ref in p.teams ==> q.teams[ref].name == p.teams[ref].name)
    && (forall ref :: ref in q.teams && Created(q, ref) ==> Created(p, ref))
  }

  lemma SameTeamsKeep(cfg: Config, mail: string -> bool, groups: Groups, p: Platform, q: Platform)
    requires CreatedAreCached(p) && LiveIds(mail, p) && EventsKnown(mail, p.log) && SameTeams(p, q)
    requires forall e, k {:trigger CachedId(q.cache, e, k)} ::
      !mail(e) ==> CachedId(q.cache, e, k) == CachedId(p.cache, e, k)
    ensures CreatedAreCached(q) && LiveIds(mail, q)
    ensures Guarded(cfg, groups, p) ==> Guarded(cfg, groups, q)
  {
    forall ref | ref in q.teams && Created(q, ref)
      ensures ref.id != "" && CachedId(q.cache, q.teams[ref].name, CacheKey(ref.b)) == ref.id
    {
      assert Created(p, ref);
      var i :| 0 <= i < |p.log| && p.log[i] == TeamCreated(ref.b, p.teams[ref].name, ref.id);
      assert !mail(p.teams[ref].name);
    }
    forall e, c: Backend | !mail(e) && Supported(c.kind) && CachedId(q.cache, e, CacheKey(c)) != ""
      ensures TeamRef(c, CachedId(q.cache, e, CacheKey(c))) in q.teams
      ensures q.teams[TeamRef(c, CachedId(q.cache, e, CacheKey(c)))].name == e
    {
      assert CachedId(p.cache, e, CacheKey(c)) == CachedId(q.cache, e, CacheKey(c));
    }
  }

  lemma OnlyTick(cfg: Config, mail: string -> bool, groups: Groups, p: Platform, q: Platform)
    requires Coherent(mail, p) && Unchanged(p, q)
    ensures Keeps(cfg, mail, groups, p, q)
  {
    SameTeamsKeep(cfg, mail, groups, p, q);
  }

  lemma EnsureUserKeeps(cfg: Config, mail: string -> bool, groups: Groups, p: Platform,
                        email: string, b: Backend, env: Env)
    requires Coherent(mail, p) && NonEmptyIds(env) && Supported(b.kind) && mail(email)
    ensures Keeps(cfg, mail, groups, p, EnsureUser(p, email, b, env).p)
  {
    var q := EnsureUser(p, email, b, env).p;
    if |q.log| > |p.log| {
      var ids := ReadIds(p.cache, email).value;
      var id := env.reply(p.tick).id;
      WriteIdLookup(p.cache, email, ids, CacheKey(b), id);
      WriteKeepsWellFormed(p.cache, email, ids, CacheKey(b), id);
      assert IdAdded(p, q, email, b, id);
      SameTeamsKeep(cfg, mail, groups, p, q);
      AddedIsExplained(mail, p, q, email, b, id, UserCreated(b, email, id));
      EventKeepsHistory(mail, p, q, UserCreated(b, email, id));
    } else {
      OnlyTick(cfg, mail, groups, p, q);
    }
  }

  /** All emails of the directory are emails to `mail`. */
  ghost predicate MailsOnly(mail: string -> bool, env: Env) {
    forall u :: u in env.ldap ==> mail(env.ldap[u])
  }

  lemma {:induction false} CreateUsersKeeps(cfg: Config, mail: string -> bool, groups: Groups, p: Platform,
                                            users: seq<string>, b: Backend, env: Env)
    requires Coherent(mail, p) && NonEmptyIds(env) && MailsOnly(mail, env) && Supported(b.kind)
    ensures Keeps(cfg, mail, groups, p, CreateUsers(p, users, b, env).p)
    decreases |users|
  {
    if users == [] {
    } else if users[0] !in env.ldap {
      CreateUsersKeeps(cfg, mail, groups, p, users[1..], b, env);
    } else {
      EnsureUserKeeps(cfg, mail, groups, p, env.ldap[users[0]], b, env);
      var step := EnsureUser(p, env.ldap[users[0]], b, env);
      if step.r.Ok? { CreateUsersKeeps(cfg, mail, groups, step.p, users[1..], b, env); }
    }
  }

  // ---------------------------------------------------------------- membership

  lemma MembersEventKeeps(cfg: Config, mail: string -> bool, groups: Groups, p: Platform, q: Platform, ev: Event)
    requires Coherent(mail, p) && SameTeams(p, q) && q.cache == p.cache
    requires q.log == p.log + [ev] && (ev.MembersAdded? || ev.MembersRemoved?)
    ensures Keeps(cfg, mail, groups, p, q)
  {
    SameTeamsKeep(cfg, mail, groups, p, q);
    EventKeepsHistory(mail, p, q, ev);
  }

  lemma AddStageKeeps(cfg: Config, mail: string -> bool, groups: Groups, p: Platform, ref: TeamRef, d: Diff, env: Env)
    requires Coherent(mail, p)
    ensures Keeps(cfg, mail, groups, p, AddStage(p, ref, d, env).p)
  {
    var q := AddStage(p, ref, d, env).p;
    if |q.log| > |p.log| {
      MembersEventKeeps(cfg, mail, groups, p, q, q.log[|p.log|]);
    } else {
      OnlyTick(cfg, mail, groups, p, q);
    }
  }

  lemma RemoveStageKeeps(cfg: Config, mail: string -> bool, groups: Groups, p: Platform,
                         ref: TeamRef, d: Diff, env: Env)
    requires Coherent(mail, p)
    ensures Keeps(cfg, mail, groups, p, RemoveStage(p, ref, d, env).p)
  {
    var q := RemoveStage(p, ref, d, env).p;
    if |q.log| > |p.log| {
      MembersEventKeeps(cfg, mail, groups, p, q, q.log[|p.log|]);
    } else {
      OnlyTick(cfg, mail, groups, p, q);
    }
  }

  lemma SyncMembersKeeps(cfg: Config, mail: string -> bool, groups: Groups, p: Platform,
                         ref: TeamRef, users: seq<string>, env: Env)
    requires Coherent(mail, p)
    ensures Keeps(cfg, mail, groups, p, SyncMembers(p, ref, users, env).p)
  {
    OnlyTick(cfg, mail, groups, p, Tick(p));
    var d := ProcessUsers(p.cache, users, MembersOf(p, ref), ref.b, env.ldap);
    if d.Ok? {
      AddStageKeeps(cfg, mail, groups, Tick(p), ref, d.value, env);
      RemoveStageKeeps(cfg, mail, groups, AddStage(Tick(p), ref, d.value, env).p, ref, d.value, env);
    }
  }

  // ---------------------------------------------------------------- the backend loop

  /** The team names of the CR are no emails. */
  ghost predicate NamesApart(cfg: Config, mail: string -> bool, cr: GroupCR) {
    forall b, name :: b in cr.backends && Transform(cfg.patterns, b.kind, cr.groupName) == Ok(name) ==> !mail(name)
  }

  lemma SyncBackendKeeps(cfg: Config, mail: string -> bool, groups: Groups, p: Platform, n: string,
                         users: seq<string>, b: Backend, env: Env)
    requires Coherent(mail, p) && NonEmptyIds(env) && MailsOnly(mail, env)
    requires n in groups && NamesApart(cfg, mail, groups[n]) && groups[n].finalizer && b in groups[n].backends
    ensures Keeps(cfg, mail, groups, p, SyncBackend(cfg, p, groups[n].groupName, users, b, env).p)
  {
    var name := Transform(cfg.patterns, b.kind, groups[n].groupName);
    if HasClient(cfg, b) && name.Ok? {
      assert Covers(cfg, groups[n], b, name.value);
      FetchOrCreateKeeps(cfg, mail, groups, p, name.value, b, env);
      var t := FetchOrCreate(p, name.value, b, env);
      if t.r.Ok? {
        CreateUsersKeeps(cfg, mail, groups, t.p, users, b, env);
        var u := CreateUsers(t.p, users, b, env);
        SyncMembersKeeps(cfg, mail, groups, u.p, TeamRef(b, t.r.value), users, env);
      }
    }
  }

  lemma {:induction false} SyncAllKeeps(cfg: Config, mail: string -> bool, groups: Groups, p: Platform, n: string,
                                        users: seq<string>, backends: seq<Backend>, env: Env,
                                        errors: map<string, Failure>)
    requires Coherent(mail, p) && NonEmptyIds(env) && MailsOnly(mail, env)
    requires n in groups && NamesApart(cfg, mail, groups[n]) && groups[n].finalizer
    requires forall b :: b in backends ==> b in groups[n].backends
    ensures Keeps(cfg, mail, groups, p, SyncAll(cfg, p, groups[n].groupName, users, backends, env, errors).p)
    decreases |backends|
  {
    if backends != [] {
      SyncBackendKeeps(cfg, mail, groups, p, n, users, backends[0], env);
      var run := SyncBackend(cfg, p, groups[n].groupName, users, backends[0], env);
      var errors' := if run.end.Recorded? then errors[backends[0].kind := run.end.failure] else errors;
      SyncAllKeeps(cfg, mail, groups, run.p, n, users, backends[1..], env, errors');
    }
  }

  // ---------------------------------------------------------------- deletion

  lemma DropKeepsWellFormed(cache: Cache, entry: string, ids: map<string, string>, key: string)
    requires WellFormed(cache) && entry in cache && cache[entry] == Ids(ids)
    ensures WellFormed(DropId(cache, entry, ids, key))
  {
  }

  lemma TeamDroppedKeepsTeams(mail: string -> bool, p: Platform, q: Platform, name: string, b: Backend)
    requires CreatedAreCached(p) && LiveIds(mail, p) && EventsKnown(mail, p.log)
    requires Supported(b.kind) && !mail(name) && TeamDropped(p, q, name, b)
    ensures CreatedAreCached(q) && LiveIds(mail, q)
  {
    var gone := TeamRef(b, CachedId(p.cache, name, CacheKey(b)));
    assert gone in p.teams && p.teams[gone].name == name;
    forall ref | ref in q.teams && Created(q, ref)
      ensures ref.id != "" && CachedId(q.cache, q.teams[ref].name, CacheKey(ref.b)) == ref.id
    {
      assert Created(p, ref);
      var i :| 0 <= i < |p.log| && p.log[i] == TeamCreated(ref.b, p.teams[ref].name, ref.id);
      SameKey(ref.b, b);
    }
    forall e, c: Backend | !mail(e) && Supported(c.kind) && CachedId(q.cache, e, CacheKey(c)) != ""
      ensures TeamRef(c, CachedId(q.cache, e, CacheKey(c))) in q.teams
      ensures q.teams[TeamRef(c, CachedId(q.cache, e, CacheKey(c)))].name == e
    {
      SameKey(c, b);
      assert CachedId(p.cache, e, CacheKey(c)) == CachedId(q.cache, e, CacheKey(c));
    }
  }

  lemma TeamDroppedKeepsGuard(cfg: Config, groups: Groups, p: Platform, q: Platform, name: string, b: Backend)
    requires Guarded(cfg, groups, p) && TeamDropped(p, q, name, b)
    ensures Guarded(cfg, groups, q)
  {
    forall ref | ref in q.teams && Created(q, ref)
      ensures Covered(cfg, groups, ref.b, q.teams[ref].name)
    {
      assert Created(p, ref);
    }
  }

  lemma DroppedKeepsHistory(mail: string -> bool, p: Platform, q: Platform, name: string, b: Backend)
    requires HistoryOk(mail, p.cache, p.log) && Supported(b.kind) && !mail(name) && TeamDropped(p, q, name, b)
    ensures HistoryOk(mail, q.cache, q.log)
  {
    var ev := TeamDeleted(b, name, CachedId(p.cache, name, CacheKey(b)));
    forall e, c: Backend | Supported(c.kind) && CachedId(p.cache, e, CacheKey(c)) != CachedId(q.cache, e, CacheKey(c))
      ensures !mail(e) && IsTeamDeletion(ev, c, e) && CachedId(q.cache, e, CacheKey(c)) == ""
    {
      SameKey(c, b);
    }
    EventKeepsHistory(mail, p, q, ev);
  }

  lemma DeleteCachedKeeps(cfg: Config, mail: string -> bool, groups: Groups, p: Platform,
                          name: string, b: Backend, env: Env)
    requires Coherent(mail, p) && Supported(b.kind) && !mail(name)
    ensures Keeps(cfg, mail, groups, p, DeleteCached(p, name, b, env).p)
  {
    var q := DeleteCached(p, name, b, env).p;
    DeleteCachedEffect(p, name, b, env);
    if q == p || q == Tick(p) {
      OnlyTick(cfg, mail, groups, p, q);
    } else {
      DropKeepsWellFormed(p.cache, name, p.cache[name].ids, CacheKey(b));
      TeamDroppedKeepsTeams(mail, p, q, name, b);
      DroppedKeepsHistory(mail, p, q, name, b);
      if Guarded(cfg, groups, p) { TeamDroppedKeepsGuard(cfg, groups, p, q, name, b); }
    }
  }

  lemma {:induction false} DeleteTeamsKeeps(cfg: Config, mail: string -> bool, groups: Groups, p: Platform,
                                            cr: GroupCR, backends: seq<Backend>, env: Env)
    requires Coherent(mail, p) && NamesApart(cfg, mail, cr)
    requires forall b :: b in backends ==> b in cr.backends
    ensures Keeps(cfg, mail, groups, p, DeleteTeams(cfg, p, cr.groupName, backends, env).p)
    decreases |backends|
  {
    if backends != [] {
      var b := backends[0];
      var name := Transform(cfg.patterns, b.kind, cr.groupName);
      if name.Ok? && HasClient(cfg, b) {
        DeleteCachedKeeps(cfg, mail, groups, p, name.value, b, env);
        var step := DeleteCached(p, name.value, b, env);
        if step.r.Ok? { DeleteTeamsKeeps(cfg, mail, groups, step.p, cr, backends[1..], env); }
      }
    }
  }

  /** Once the team slots of a CR are empty, its finalizer guards no team any more. */
  lemma ReleaseKeepsGuard(cfg: Config, groups: Groups, p: Platform, n: string)
    requires Guarded(cfg, groups, p) && CreatedAreCached(p) && n in groups
    requires forall e, k ::
      IsTeamSlot(cfg, groups[n].groupName, groups[n].backends, e, k) ==> CachedId(p.cache, e, k) == ""
    ensures Guarded(cfg, groups[n := groups[n].(finalizer := false)], p)
  {
    var g' := groups[n := groups[n].(finalizer := false)];
    forall ref | ref in p.teams && Created(p, ref)
      ensures Covered(cfg, g', ref.b, p.teams[ref].name)
    {
      var name := p.teams[ref].name;
      var m :| m in groups && Covers(cfg, groups[m], ref.b, name);
      assert !IsTeamSlot(cfg, groups[n].groupName, groups[n].backends, name, CacheKey(ref.b));
      assert m != n;
      assert m in g' && Covers(cfg, g'[m], ref.b, name);
    }
  }
}
