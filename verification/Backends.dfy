/** The gate `clients.New`, the key under which a backend's IDs are cached, and the
    abstract `Client`: one store of teams per backend whose calls may fail. */
module Backends {
  import opened Common
  import opened Naming

  datatype BackendConfig = BackendConfig(enabled: bool, connects: bool)

  datatype Config = Config(patterns: map<string, seq<Pattern>>, backends: map<Backend, BackendConfig>)

  /** `strings.ToLower` on ASCII text. */
  function Lower(s: string): (r: string)
    ensures |r| == |s| && forall i :: 0 <= i < |s| ==> r[i] == LowerChar(s[i])
  {
    seq(|s|, i requires 0 <= i < |s| => LowerChar(s[i]))
  }

  function LowerChar(c: char): char {
    if 'A' <= c <= 'Z' then (c as int + 32) as char else c
  }

  predicate Supported(kind: string) {
    Lower(kind) == "fivetran" || Lower(kind) == "rover" || Lower(kind) == "snowflake"
  }

  /** `clients.New` hands out a client. */
  predicate HasClient(cfg: Config, b: Backend) {
    && b in cfg.backends
    && cfg.backends[b].enabled
    && Supported(b.kind)
    && cfg.backends[b].connects
  }

  /** Lower-casing leaves no upper-case letter and changes nothing else, and two texts fall
      together exactly when they differ in case only. */
  lemma LowerExact(s: string, t: string)
    ensures forall i :: 0 <= i < |s| ==> !('A' <= Lower(s)[i] <= 'Z')
    ensures forall i :: 0 <= i < |s| && !('A' <= s[i] <= 'Z') ==> Lower(s)[i] == s[i]
    ensures Lower(s) == Lower(t) <==>
      |s| == |t| && forall i :: 0 <= i < |s| ==>
        s[i] == t[i]
        || ('A' <= s[i] <= 'Z' && t[i] as int == s[i] as int + 32)
        || ('A' <= t[i] <= 'Z' && s[i] as int == t[i] as int + 32)
  {
    if Lower(s) == Lower(t) {
      assert forall i :: 0 <= i < |s| ==> Lower(s)[i] == Lower(t)[i];
    }
  }

  /** The case of a type does not matter to the gate, and spelled in lower case it is one of three. */
  lemma SupportedUpToCase(kind: string, kind': string)
    ensures Lower(kind) == Lower(kind') ==> (Supported(kind) <==> Supported(kind'))
    ensures Supported(Lower(kind)) <==> Supported(kind)
    ensures Supported("fivetran") && Supported("rover") && Supported("snowflake")
  {
    assert Lower(Lower(kind)) == Lower(kind);
    assert Lower("fivetran") == "fivetran";
    assert Lower("rover") == "rover";
    assert Lower("snowflake") == "snowflake";
  }

  lemma SupportedHasNoUnderscore(kind: string)
    requires Supported(kind)
    ensures '_' !in kind
  {
    forall i | 0 <= i < |kind|
      ensures kind[i] != '_'
    {
      assert Lower(kind)[i] == LowerChar(kind[i]);
    }
  }

  /** The last underscore of a key separates name and type. */
  lemma NoUnderscoreAfter(n: string, t: string, m: string, u: string)
    requires n + "_" + t == m + "_" + u && '_' !in t
    ensures |m| <= |n|
  {
    var k := n + "_" + t;
    assert forall i :: |n| < i < |k| ==> k[i] == t[i - |n| - 1];
    assert k[|m|] == '_';
  }

  /** On the backends that `clients.New` accepts, the cache key determines the backend. */
  lemma CacheKeyInjective(a: Backend, b: Backend)
    requires Supported(a.kind) && Supported(b.kind) && CacheKey(a) == CacheKey(b)
    ensures a == b
  {
    SupportedHasNoUnderscore(a.kind);
    SupportedHasNoUnderscore(b.kind);
    NoUnderscoreAfter(a.name, a.kind, b.name, b.kind);
    NoUnderscoreAfter(b.name, b.kind, a.name, a.kind);
    var k := CacheKey(a);
    assert a.name == k[..|a.name|] && b.name == k[..|b.name|];
    assert a.kind == k[|a.name| + 1..] && b.kind == k[|b.name| + 1..];
  }

  /** Without that gate the key is ambiguous. */
  lemma CacheKeyAmbiguous(n: string, m: string, t: string)
    ensures CacheKey(Backend(n, m + "_" + t)) == CacheKey(Backend(n + "_" + m, t))
    ensures Backend(n, m + "_" + t) != Backend(n + "_" + m, t)
  {
    assert n + "_" + (m + "_" + t) == (n + "_" + m) + "_" + t;
    assert |n| != |n + "_" + m|;
  }

  // ---------------------------------------------------------------- the platforms

  datatype TeamRef = TeamRef(b: Backend, id: string)

  datatype Team = Team(name: string, members: set<string>)

  /** The calls that changed a backend, in order; membership changes with the number of the call. */
  datatype Event =
    | UserCreated(b: Backend, email: string, id: string)
    | TeamCreated(b: Backend, name: string, id: string)
    | TeamDeleted(b: Backend, name: string, id: string)
    | MembersAdded(b: Backend, team: string, ids: set<string>, call: nat)
    | MembersRemoved(b: Backend, team: string, ids: set<string>, call: nat)

  /** The ID cache, the teams of all backends, the history of backend calls, and the
      number of remote calls made so far. */
  datatype Platform = Platform(cache: Cache, teams: map<TeamRef, Team>, log: seq<Event>, tick: nat)

  /** The outcome of a remote call: failure, with the part of a membership change that
      went through before it, or success, with the ID of what was created. */
  datatype Reply = Fault(applied: set<string>) | Done(id: string)

  /** What the environment decides during one reconcile: the reply to the n-th remote
      call, the LDAP directory (user to email) and the iteration order of Go maps. */
  datatype Env = Env(
    reply: nat -> Reply,
    ldap: map<string, string>,
    arrange: set<OwnerRef> -> seq<OwnerRef>)

  /** No backend hands out the empty string as an ID. */
  ghost predicate NonEmptyIds(env: Env) {
    forall n :: env.reply(n).Done? ==> env.reply(n).id != ""
  }

  datatype After<+T> = After(p: Platform, r: Result<T>)

  function Tick(p: Platform): Platform {
    p.(tick := p.tick + 1)
  }

  function MembersOf(p: Platform, ref: TeamRef): set<string> {
    if ref in p.teams then p.teams[ref].members else {}
  }

  /** A team is created, or an existing team of that name is handed back. IDs of teams
      with different names differ: an ID in use under another name is refused. */
  function CreateTeam(p: Platform, b: Backend, name: string, env: Env): After<string> {
    match env.reply(p.tick)
    case Fault(_) => After(Tick(p), Err(BackendFault))
    case Done(id) =>
      var ref := TeamRef(b, id);
      if ref in p.teams && p.teams[ref].name != name then After(Tick(p), Err(BackendFault))
      else
        After(Tick(p).(teams := p.teams[ref := Team(name, MembersOf(p, ref))],
                       log := p.log + [TeamCreated(b, name, id)]),
              Ok(id))
  }

  function CreateUser(p: Platform, b: Backend, email: string, env: Env): After<string> {
    match env.reply(p.tick)
    case Fault(_) => After(Tick(p), Err(BackendFault))
    case Done(id) => After(Tick(p).(log := p.log + [UserCreated(b, email, id)]), Ok(id))
  }

  /** Deleting a team that is not there is a success. */
  function DeleteTeam(p: Platform, b: Backend, name: string, id: string, env: Env): After<()> {
    match env.reply(p.tick)
    case Fault(_) => After(Tick(p), Err(BackendFault))
    case Done(_) =>
      After(Tick(p).(teams := p.teams - {TeamRef(b, id)}, log := p.log + [TeamDeleted(b, name, id)]), Ok(()))
  }

  function FetchMembers(p: Platform, ref: TeamRef, env: Env): After<set<string>> {
    if env.reply(p.tick).Fault? || ref !in p.teams then After(Tick(p), Err(BackendFault))
    else After(Tick(p), Ok(p.teams[ref].members))
  }

  function AddMembers(p: Platform, ref: TeamRef, ids: set<string>, env: Env): After<()> {
    if ref !in p.teams then After(Tick(p), Err(BackendFault))
    else
      var reply := env.reply(p.tick);
      var added := if reply.Fault? then ids * reply.applied else ids;
      After(Tick(p).(teams := p.teams[ref := p.teams[ref].(members := p.teams[ref].members + added)],
                     log := p.log + [MembersAdded(ref.b, ref.id, added, p.tick)]),
            if reply.Fault? then Err(BackendFault) else Ok(()))
  }

  function RemoveMembers(p: Platform, ref: TeamRef, ids: set<string>, env: Env): After<()> {
    if ref !in p.teams then After(Tick(p), Err(BackendFault))
    else
      var reply := env.reply(p.tick);
      var removed := if reply.Fault? then ids * reply.applied else ids;
      After(Tick(p).(teams := p.teams[ref := p.teams[ref].(members := p.teams[ref].members - removed)],
                     log := p.log + [MembersRemoved(ref.b, ref.id, removed, p.tick)]),
            if reply.Fault? then Err(BackendFault) else Ok(()))
  }
}
