/** Paginated listings: Snowflake's `fetchAllWithPagination` with `processUsersPage`,
    and the cursor loop of Fivetran's `FetchTeamMembersByTeamID`. */
module Pages {
  import opened Common
  import opened Backends

  /** What a request for one page returns; `next` is empty on the last page. */
  datatype Response<+T> = Page(items: seq<T>, next: string) | Unavailable

  type Server<T> = string -> Response<T>

  /** The page at `a` refers to `b` as the next one. */
  predicate Links<T>(server: Server<T>, a: string, b: string) {
    b != "" && server(a).Page? && server(a).next == b
  }

  /** Addresses requested one after the other by following `next` from the first one. */
  ghost predicate IsTrail<T(!new)>(server: Server<T>, first: string, urls: seq<string>) {
    && (urls != [] ==> urls[0] == first)
    && (forall i :: 0 < i < |urls| ==> Links(server, urls[i - 1], urls[i]))
  }

  /** After these requests there is another one to make. */
  predicate GoesOn<T>(server: Server<T>, urls: seq<string>) {
    urls == [] || (server(urls[|urls| - 1]).Page? && server(urls[|urls| - 1]).next != "")
  }

  /** A trail followed until `next` is empty or a request fails. */
  ghost predicate IsChain<T(!new)>(server: Server<T>, first: string, urls: seq<string>) {
    IsTrail(server, first, urls) && !GoesOn(server, urls)
  }

  /** A chain whose every request succeeded. */
  ghost predicate Complete<T(!new)>(server: Server<T>, first: string, urls: seq<string>) {
    IsChain(server, first, urls) && server(urls[|urls| - 1]).Page?
  }

  /** The items of the pages at these addresses, in order. */
  function Items<T>(server: Server<T>, urls: seq<string>): seq<T> {
    if urls == [] then []
    else ItemsAt(server, urls[0]) + Items(server, urls[1..])
  }

  /** A failed request contributes nothing. */
  function ItemsAt<T>(server: Server<T>, url: string): seq<T> {
    if server(url).Page? then server(url).items else []
  }

  lemma {:induction false} ItemsSnoc<T>(server: Server<T>, urls: seq<string>, url: string)
    ensures Items(server, urls + [url]) == Items(server, urls) + ItemsAt(server, url)
  {
    if urls == [] {
      assert (urls + [url])[1..] == [];
    } else {
      assert (urls + [url])[1..] == urls[1..] + [url];
      ItemsSnoc(server, urls[1..], url);
    }
  }

  /** The address requested after a trail that goes on. */
  function Next<T>(server: Server<T>, first: string, urls: seq<string>): string
    requires GoesOn(server, urls)
  {
    if urls == [] then first else server(urls[|urls| - 1]).next
  }

  lemma TrailExtends<T(!new)>(server: Server<T>, first: string, urls: seq<string>)
    requires IsTrail(server, first, urls) && GoesOn(server, urls)
    ensures IsTrail(server, first, urls + [Next(server, first, urls)])
  {
    var longer := urls + [Next(server, first, urls)];
    forall i | 0 < i < |longer|
      ensures Links(server, longer[i - 1], longer[i])
    {
      if i < |urls| { assert Links(server, urls[i - 1], urls[i]); }
    }
  }

  /** The addresses of the first `n` requests, or of all if there are fewer. */
  function Trail<T>(server: Server<T>, first: string, n: nat): seq<string> {
    if n == 0 then []
    else
      var urls := Trail(server, first, n - 1);
      if GoesOn(server, urls) then urls + [Next(server, first, urls)] else urls
  }

  /** They are a trail, as long as allowed unless it is a chain; by `TrailsAgree`, the only one. */
  lemma {:induction false} TrailExact<T(!new)>(server: Server<T>, first: string, n: nat)
    ensures IsTrail(server, first, Trail(server, first, n)) && |Trail(server, first, n)| <= n
    ensures |Trail(server, first, n)| < n ==> IsChain(server, first, Trail(server, first, n))
  {
    if n > 0 {
      TrailExact(server, first, n - 1);
      var urls := Trail(server, first, n - 1);
      if GoesOn(server, urls) { TrailExtends(server, first, urls); }
    }
  }

  lemma {:induction false} TrailEnded<T>(server: Server<T>, first: string, k: nat, n: nat)
    requires k <= n && !GoesOn(server, Trail(server, first, k))
    ensures Trail(server, first, n) == Trail(server, first, k)
    decreases n
  {
    if k < n { TrailEnded(server, first, k, n - 1); }
  }

  /** The server determines the requests: of two trails one continues the other, and a chain is
      never the shorter one. */
  lemma {:induction false} TrailsAgree<T(!new)>(server: Server<T>, first: string, a: seq<string>, b: seq<string>)
    requires IsTrail(server, first, a) && IsTrail(server, first, b) && |a| <= |b|
    ensures a == b[..|a|]
    ensures IsChain(server, first, a) ==> a == b
    decreases |a|
  {
    if a != [] {
      var n := |a| - 1;
      TrailsAgree(server, first, a[..n], b);
      if n > 0 { assert Links(server, a[n - 1], a[n]) && Links(server, b[n - 1], b[n]); }
      assert a[..n] == b[..n] && a[n] == b[n];
      if |a| < |b| { assert Links(server, b[n + 1 - 1], b[n + 1]); }
    }
  }

  /** A listing that ends requests no page twice. */
  lemma {:induction false} NoPageTwice<T(!new)>(server: Server<T>, first: string, urls: seq<string>, i: nat, j: nat)
    requires IsChain(server, first, urls) && i < j < |urls|
    ensures urls[i] != urls[j]
    decreases |urls| - j
  {
    assert Links(server, urls[i + 1 - 1], urls[i + 1]);
    if j < |urls| - 1 {
      assert Links(server, urls[j + 1 - 1], urls[j + 1]);
      NoPageTwice(server, first, urls, i + 1, j + 1);
    } else {
      assert server(urls[i]) != server(urls[j]);
    }
  }

  ghost predicate NoRepeats(urls: seq<string>) {
    forall i, j :: 0 <= i < j < |urls| ==> urls[i] != urls[j]
  }

  /** Distinct addresses that all hold pages are no more than the pages there are. */
  lemma {:induction false} AtMostAllPages(urls: seq<string>, pages: set<string>)
    requires NoRepeats(urls) && forall u :: u in urls ==> u in pages
    ensures |urls| <= |pages|
    decreases |urls|
  {
    if urls != [] {
      assert urls[0] in urls;
      AtMostAllPages(urls[1..], pages - {urls[0]});
    }
  }

  /** With finitely many pages, a trail either meets a page again or comes to its end. */
  lemma {:induction false} FollowToEnd<T(!new)>(server: Server<T>, first: string, pages: set<string>, urls: seq<string>)
    returns (all: seq<string>)
    requires forall u :: server(u).Page? ==> u in pages
    requires IsTrail(server, first, urls)
    ensures IsTrail(server, first, all) && (NoRepeats(all) ==> !GoesOn(server, all))
    decreases |pages| + 1 - |urls|
  {
    all := urls;
    if NoRepeats(urls) && GoesOn(server, urls) {
      forall u | u in urls
        ensures u in pages
      {
        var k :| 0 <= k < |urls| && urls[k] == u;
        if k + 1 < |urls| { assert Links(server, urls[k + 1 - 1], urls[k + 1]); }
      }
      AtMostAllPages(urls, pages);
      TrailExtends(server, first, urls);
      all := FollowToEnd(server, first, pages, urls + [Next(server, first, urls)]);
    }
  }

  /** When the listing of a server with finitely many pages ends: exactly if following it never
      leads back to an address already requested. */
  lemma EndsUnlessRevisiting<T(!new)>(server: Server<T>, first: string, pages: set<string>)
    requires forall u :: server(u).Page? ==> u in pages
    ensures (exists urls :: IsChain(server, first, urls)) <==>
      forall urls :: IsTrail(server, first, urls) ==> NoRepeats(urls)
  {
    if urls :| IsChain(server, first, urls) {
      forall trail | IsTrail(server, first, trail)
        ensures NoRepeats(trail)
      {
        if |trail| <= |urls| {
          TrailsAgree(server, first, trail, urls);
        } else {
          TrailsAgree(server, first, urls, trail);
        }
        forall i, j | 0 <= i < j < |trail|
          ensures trail[i] != trail[j]
        {
          NoPageTwice(server, first, urls, i, j);
        }
      }
    } else {
      var all := FollowToEnd(server, first, pages, []);
      assert !IsChain(server, first, all);
    }
  }

  /** One request more, out of at most `budget`: what it adds, and whether it is the last one. */
  lemma NextRequest<T(!new)>(server: Server<T>, first: string, k: nat, budget: nat)
    requires k < budget && GoesOn(server, Trail(server, first, k))
    ensures
      var urls := Trail(server, first, k);
      var url := Next(server, first, urls);
      && Trail(server, first, k + 1) == urls + [url]
      && Items(server, Trail(server, first, k + 1))
           == (if server(url).Page? then Items(server, urls) + server(url).items else Items(server, urls))
      && (GoesOn(server, Trail(server, first, k + 1)) <==> server(url).Page? && server(url).next != "")
      && (!GoesOn(server, Trail(server, first, k + 1)) ==>
            && Trail(server, first, budget) == Trail(server, first, k + 1)
            && (Complete(server, first, Trail(server, first, budget)) <==> server(url).Page?))
  {
    var urls := Trail(server, first, k);
    ItemsSnoc(server, urls, Next(server, first, urls));
    TrailExact(server, first, k + 1);
    if !GoesOn(server, Trail(server, first, k + 1)) {
      TrailEnded(server, first, k + 1, budget);
    }
  }

  // ---------------------------------------------------------------- Snowflake users

  datatype SnowflakeUser = SnowflakeUser(name: string, email: string, displayName: string)

  datatype User = User(id: string, userName: string, email: string, displayName: string)

  function Convert(u: SnowflakeUser): User {
    User(Lower(u.name), Lower(u.name), Lower(u.email), u.displayName)
  }

  function ById(users: seq<SnowflakeUser>, m: map<string, User>): map<string, User> {
    if users == [] then m else ById(users[1..], m[Lower(users[0].name) := Convert(users[0])])
  }

  function ByEmail(users: seq<SnowflakeUser>, m: map<string, User>): map<string, User> {
    if users == [] then m
    else ByEmail(users[1..], if users[0].email == "" then m else m[Lower(users[0].email) := Convert(users[0])])
  }

  lemma {:induction false} IndexConcat(a: seq<SnowflakeUser>, b: seq<SnowflakeUser>, m: map<string, User>)
    ensures ById(a + b, m) == ById(b, ById(a, m))
    ensures ByEmail(a + b, m) == ByEmail(b, ByEmail(a, m))
  {
    if a == [] {
      assert a + b == b;
    } else {
      assert (a + b)[1..] == a[1..] + b && (a + b)[0] == a[0];
      IndexConcat(a[1..], b, m[Lower(a[0].name) := Convert(a[0])]);
      IndexConcat(a[1..], b, if a[0].email == "" then m else m[Lower(a[0].email) := Convert(a[0])]);
    }
  }

  /** The two result maps of `FetchAllUsers`. */
  class UserIndex {
    var byId: map<string, User>
    var byEmail: map<string, User>

    constructor ()
      ensures byId == map[] && byEmail == map[]
    {
      byId, byEmail := map[], map[];
    }

    method ProcessUsersPage(users: seq<SnowflakeUser>)
      modifies this
      ensures byId == ById(users, old(byId))
      ensures byEmail == ByEmail(users, old(byEmail))
    {
      for i := 0 to |users|
        invariant ById(users[i..], byId) == ById(users, old(byId))
        invariant ByEmail(users[i..], byEmail) == ByEmail(users, old(byEmail))
      {
        assert users[i..][0] == users[i] && users[i..][1..] == users[i + 1..];
        var user := Convert(users[i]);
        byId := byId[Lower(users[i].name) := user];
        if users[i].email != "" {
          byEmail := byEmail[Lower(users[i].email) := user];
        }
      }
      assert users[|users|..] == [];
    }

    /** `fetchAllWithPagination` with `processUsersPage` as its callback, for as long as `budget`
        requests last (None: it is still at work then). The pages met are processed once each,
        in order; it ends where the chain does and fails exactly when a request fails. */
    method FetchAll(server: Server<SnowflakeUser>, endpoint: string, budget: nat) returns (r: Option<Result<()>>)
      modifies this
      ensures
        var urls := Trail(server, endpoint, budget);
        && (r.None? <==> GoesOn(server, urls))
        && (r.Some? ==> (r.value.Ok? <==> Complete(server, endpoint, urls)))
        && byId == ById(Items(server, urls), old(byId))
        && byEmail == ByEmail(Items(server, urls), old(byEmail))
    {
      var url := endpoint;
      for k := 0 to budget
        invariant GoesOn(server, Trail(server, endpoint, k))
        invariant url == Next(server, endpoint, Trail(server, endpoint, k))
        invariant byId == ById(Items(server, Trail(server, endpoint, k)), old(byId))
        invariant byEmail == ByEmail(Items(server, Trail(server, endpoint, k)), old(byEmail))
      {
        var response := server(url);
        ghost var before := Items(server, Trail(server, endpoint, k));
        NextRequest(server, endpoint, k, budget);
        if response.Unavailable? {
          return Some(Err(BackendFault));
        }
        IndexConcat(before, response.items, old(byId));
        IndexConcat(before, response.items, old(byEmail));
        ProcessUsersPage(response.items);
        if response.next == "" {
          return Some(Ok(()));
        }
        url := response.next;
      }
      return None;
    }
  }

  // ---------------------------------------------------------------- the two indexes agree

  ghost predicate UniqueNames(users: seq<SnowflakeUser>) {
    forall i, j :: 0 <= i < j < |users| ==> Lower(users[i].name) != Lower(users[j].name)
  }

  /** No user has this name, up to case. */
  ghost predicate NoName(users: seq<SnowflakeUser>, id: string) {
    forall u :: u in users ==> Lower(u.name) != id
  }

  /** No user has this email, up to case. */
  ghost predicate NoEmail(users: seq<SnowflakeUser>, e: string) {
    forall u :: u in users && u.email != "" ==> Lower(u.email) != e
  }

  /** Entries under other names are left alone. */
  lemma {:induction false} ByIdKeeps(users: seq<SnowflakeUser>, m: map<string, User>, id: string)
    requires NoName(users, id)
    ensures id in ById(users, m) <==> id in m
    ensures id in m ==> ById(users, m)[id] == m[id]
  {
    if users != [] {
      assert users[0] in users;
      ByIdKeeps(users[1..], m[Lower(users[0].name) := Convert(users[0])], id);
    }
  }

  lemma {:induction false} ByIdFinds(users: seq<SnowflakeUser>, m: map<string, User>, u: SnowflakeUser)
    requires UniqueNames(users) && u in users
    ensures Lower(u.name) in ById(users, m) && ById(users, m)[Lower(u.name)] == Convert(u)
  {
    var m' := m[Lower(users[0].name) := Convert(users[0])];
    assert UniqueNames(users[1..]);
    if u == users[0] {
      forall v | v in users[1..]
        ensures Lower(v.name) != Lower(u.name)
      {
        var k :| 0 <= k < |users[1..]| && users[1..][k] == v;
        assert users[k + 1] == v;
      }
      ByIdKeeps(users[1..], m', Lower(u.name));
    } else {
      ByIdFinds(users[1..], m', u);
    }
  }

  /** Entries under other emails are left alone. */
  lemma {:induction false} ByEmailKeeps(users: seq<SnowflakeUser>, m: map<string, User>, e: string)
    requires NoEmail(users, e)
    ensures e in ByEmail(users, m) <==> e in m
    ensures e in m ==> ByEmail(users, m)[e] == m[e]
  {
    if users != [] {
      assert users[0] in users;
      ByEmailKeeps(users[1..], if users[0].email == "" then m else m[Lower(users[0].email) := Convert(users[0])], e);
    }
  }

  /** The user as it is stored. */
  ghost predicate StoredAs(u: SnowflakeUser, v: User) {
    && v.id == Lower(u.name) && v.userName == Lower(u.name)
    && v.email == Lower(u.email) && v.displayName == u.displayName
  }

  /** With or without unique names: of the users that share a name up to case the last one is found
      by ID, and of those that share an email the last one is found by email. */
  lemma LastOneIsIndexed(users: seq<SnowflakeUser>, m: map<string, User>, i: nat)
    requires i < |users|
    ensures
      var name, email := Lower(users[i].name), Lower(users[i].email);
      && (NoName(users[i + 1..], name) ==> name in ById(users, m) && StoredAs(users[i], ById(users, m)[name]))
      && (users[i].email != "" && NoEmail(users[i + 1..], email) ==>
            email in ByEmail(users, m) && StoredAs(users[i], ByEmail(users, m)[email]))
  {
    var u, rest := users[i], users[i + 1..];
    var before := users[..i + 1];
    assert users == before + rest && before == users[..i] + [u];
    IndexConcat(users[..i], [u], m);
    IndexConcat(before, rest, m);
    if NoName(rest, Lower(u.name)) {
      ByIdKeeps(rest, ById(before, m), Lower(u.name));
    }
    if u.email != "" && NoEmail(rest, Lower(u.email)) {
      ByEmailKeeps(rest, ByEmail(before, m), Lower(u.email));
    }
  }

  /** Every entry comes from a listed user of that email, or was there before; and every
      listed email is there. */
  lemma {:induction false} ByEmailOrigin(users: seq<SnowflakeUser>, m: map<string, User>, e: string)
    ensures e in ByEmail(users, m) ==>
      (e in m && ByEmail(users, m)[e] == m[e]) ||
      (exists u :: u in users && u.email != "" && Lower(u.email) == e && ByEmail(users, m)[e] == Convert(u))
    ensures e in m || (exists u :: u in users && u.email != "" && Lower(u.email) == e) ==> e in ByEmail(users, m)
  {
    if users != [] {
      var m' := if users[0].email == "" then m else m[Lower(users[0].email) := Convert(users[0])];
      ByEmailOrigin(users[1..], m', e);
      assert users[0] in users;
      assert forall u :: u in users[1..] ==> u in users;
      assert forall u :: u in users ==> u == users[0] || u in users[1..];
    }
  }

  /** With names unique up to case, every listed user is found by ID, exactly the listed
      non-empty emails are indexed, and an entry by email is the same user as by its ID. */
  lemma IndexesAgree(users: seq<SnowflakeUser>)
    requires UniqueNames(users)
    ensures
      var byId, byEmail := ById(users, map[]), ByEmail(users, map[]);
      && (forall u :: u in users ==> Lower(u.name) in byId && byId[Lower(u.name)] == Convert(u))
      && (forall e :: e in byEmail <==> exists u :: u in users && u.email != "" && Lower(u.email) == e)
      && (forall e :: e in byEmail ==>
            byEmail[e].email == e && byEmail[e].id in byId && byId[byEmail[e].id] == byEmail[e])
  {
    forall u | u in users
      ensures Lower(u.name) in ById(users, map[]) && ById(users, map[])[Lower(u.name)] == Convert(u)
    {
      ByIdFinds(users, map[], u);
    }
    forall e
      ensures e in ByEmail(users, map[]) <==> exists u :: u in users && u.email != "" && Lower(u.email) == e
      ensures e in ByEmail(users, map[]) ==>
        exists u :: u in users && Lower(u.email) == e && ByEmail(users, map[])[e] == Convert(u)
    {
      ByEmailOrigin(users, map[], e);
    }
  }

  // ---------------------------------------------------------------- Fivetran team members

  /** The cursor loop of `FetchTeamMembersByTeamID` for as long as `budget` requests last; the
      first request has no cursor. */
  method FetchTeamMembers(server: Server<string>, budget: nat) returns (r: Option<Result<set<string>>>)
    ensures
      var cursors := Trail(server, "", budget);
      && (r.None? <==> GoesOn(server, cursors))
      && (r.Some? ==> (r.value.Ok? <==> Complete(server, "", cursors)))
      && (r.Some? && r.value.Ok? ==> r.value.value == Elems(Items(server, cursors)))
  {
    var members: set<string> := {};
    var cursor := "";
    for k := 0 to budget
      invariant GoesOn(server, Trail(server, "", k))
      invariant cursor == Next(server, "", Trail(server, "", k))
      invariant members == Elems(Items(server, Trail(server, "", k)))
    {
      var response := server(cursor);
      ghost var before := Items(server, Trail(server, "", k));
      NextRequest(server, "", k, budget);
      if response.Unavailable? {
        return Some(Err(BackendFault));
      }
      ElemsConcat(before, response.items);
      members := members + (set id | id in response.items);
      cursor := response.next;
      if |cursor| == 0 {
        return Some(Ok(members));
      }
    }
    return None;
  }
}
