/**
 * Third-party identity providers (GitHub, Google, a generic OAuth 2.0
 * server): the enabled list in display order, lookup by slug, and the URL
 * that sends the user to the provider's authorization endpoint.
 */
module ProviderModel {
  import opened Wrappers
  import opened PhpStrings
  import opened Json

  /** A provider row; a null scope is the empty string. */
  datatype Provider = Provider(
    id: nat,
    name: string,
    slug: string,
    clientId: string,
    clientSecret: string,
    authorizeUrl: string,
    tokenUrl: string,
    userinfoUrl: string,
    scope: string,
    status: int,
    sortOrder: int)

  /** The attributes a provider serialises to; client_secret is hidden. */
  const VisibleAttributes: set<string> :=
    {"id", "name", "slug", "client_id", "authorize_url", "token_url", "userinfo_url", "scope", "status", "sort_order"}

  function ToArray(p: Provider): (r: map<string, Value>)
    ensures r.Keys == VisibleAttributes && "client_secret" !in r
    ensures r["status"] == Int(p.status) && r["sort_order"] == Int(p.sortOrder)
  {
    map[
      "id" := Int(p.id),
      "name" := Str(p.name),
      "slug" := Str(p.slug),
      "client_id" := Str(p.clientId),
      "authorize_url" := Str(p.authorizeUrl),
      "token_url" := Str(p.tokenUrl),
      "userinfo_url" := Str(p.userinfoUrl),
      "scope" := Str(p.scope),
      "status" := Int(p.status),
      "sort_order" := Int(p.sortOrder)]
  }

  // ------------------------------------------------------------------ queries over the table (rows in id order)

  predicate EnabledWithSlug(p: Provider, slug: string) {
    p.slug == slug && p.status == 1
  }

  /** findBySlug: the first enabled provider with that slug. */
  function FindBySlug(rows: seq<Provider>, slug: string): (r: Option<Provider>)
    ensures r.Some? ==> r.value in rows && EnabledWithSlug(r.value, slug)
    ensures r.None? <==> forall i :: 0 <= i < |rows| ==> !EnabledWithSlug(rows[i], slug)
    ensures r.Some? && rows != [] && EnabledWithSlug(rows[0], slug) ==> r.value == rows[0]
    ensures r.Some? ==> exists i :: 0 <= i < |rows| && rows[i] == r.value
                                    && forall j :: 0 <= j < i ==> !EnabledWithSlug(rows[j], slug)
  {
    if rows == [] then None
    else if EnabledWithSlug(rows[0], slug) then Some(rows[0])
    else
      var rest := FindBySlug(rows[1..], slug);
      assert forall i :: 1 <= i < |rows| ==> rows[i] == rows[1..][i - 1];
      if rest.Some? then
        var i :| 0 <= i < |rows[1..]| && rows[1..][i] == rest.value
                 && forall j :: 0 <= j < i ==> !EnabledWithSlug(rows[1..][j], slug);
        assert rows[i + 1] == rest.value;
        assert forall j :: 0 <= j < i + 1 ==> !EnabledWithSlug(rows[j], slug);
        rest
      else rest
  }

  /** `where('status', 1)`: the enabled rows, in id order. */
  function ActiveRows(rows: seq<Provider>): (r: seq<Provider>)
    ensures |r| <= |rows|
    ensures forall p :: p in r <==> p in rows && p.status == 1
    ensures multiset(r) <= multiset(rows)
  {
    if rows == [] then []
    else
      assert rows == [rows[0]] + rows[1..];
      if rows[0].status == 1 then [rows[0]] + ActiveRows(rows[1..])
      else ActiveRows(rows[1..])
  }

  predicate SortedBySortOrder(xs: seq<Provider>) {
    forall i, j :: 0 <= i < j < |xs| ==> xs[i].sortOrder <= xs[j].sortOrder
  }

  lemma ConsSorted(x: Provider, xs: seq<Provider>)
    requires SortedBySortOrder(xs)
    requires xs != [] ==> x.sortOrder <= xs[0].sortOrder
    ensures SortedBySortOrder([x] + xs)
  {
    var ys := [x] + xs;
    forall i, j | 0 <= i < j < |ys| ensures ys[i].sortOrder <= ys[j].sortOrder {
      if i == 0 && j > 1 {
        assert ys[j] == xs[j - 1] && xs[0].sortOrder <= xs[j - 1].sortOrder;
      }
    }
  }

  /** Places p after every row whose sort_order is not larger. */
  function Insert(p: Provider, xs: seq<Provider>): (r: seq<Provider>)
    requires SortedBySortOrder(xs)
    ensures SortedBySortOrder(r)
    ensures multiset(r) == multiset(xs) + multiset{p}
    ensures |r| == |xs| + 1 && (r[0] == p || (xs != [] && r[0] == xs[0]))
  {
    if xs == [] then [p]
    else if p.sortOrder < xs[0].sortOrder then [p] + xs
    else
      var rest := Insert(p, xs[1..]);
      assert xs == [xs[0]] + xs[1..];
      ConsSorted(xs[0], rest);
      [xs[0]] + rest
  }

  /** `orderBy('sort_order')`, keeping id order among equal sort orders. */
  function SortBySortOrder(xs: seq<Provider>): (r: seq<Provider>)
    ensures SortedBySortOrder(r)
    ensures multiset(r) == multiset(xs)
  {
    if xs == [] then []
    else
      assert xs == [xs[0]] + xs[1..];
      Insert(xs[0], SortBySortOrder(xs[1..]))
  }

  /** getActive: exactly the enabled providers, each once per row, ordered by sort_order. */
  function GetActive(rows: seq<Provider>): (r: seq<Provider>)
    ensures SortedBySortOrder(r)
    ensures multiset(r) == multiset(ActiveRows(rows))
    ensures forall p :: p in r <==> p in rows && p.status == 1
  {
    var r := SortBySortOrder(ActiveRows(rows));
    assert forall p :: p in r <==> p in multiset(ActiveRows(rows));
    r
  }

  // ------------------------------------------------------------------ the authorize URL

  /** The query parameters, in order: client_id, redirect_uri, response_type, state, and scope when it is truthy. */
  function AuthorizeParams(p: Provider, redirectUri: string, state: string): (ps: seq<(string, string)>)
    ensures |ps| == if PhpStrings.Truthy(p.scope) then 5 else 4
    ensures ps[0] == ("client_id", p.clientId) && ps[1] == ("redirect_uri", redirectUri)
    ensures ps[2] == ("response_type", "code") && ps[3] == ("state", state)
    ensures PhpStrings.Truthy(p.scope) ==> ps[4] == ("scope", p.scope)
  {
    var base := [("client_id", p.clientId), ("redirect_uri", redirectUri), ("response_type", "code"), ("state", state)];
    if PhpStrings.Truthy(p.scope) then base + [("scope", p.scope)] else base
  }

  /** buildAuthorizeUrl. */
  function BuildAuthorizeUrl(p: Provider, redirectUri: string, state: string): (url: string)
    ensures StartsWith(url, p.authorizeUrl + "?")
  {
    p.authorizeUrl + "?" + BuildQuery(AuthorizeParams(p, redirectUri, state))
  }

  /**
   * The URL is the authorize URL, "?", and a query that splits back at "&"
   * into one "name=value" field per parameter, in order, each name and value
   * urlencoded.
   */
  lemma AuthorizeUrlFields(p: Provider, redirectUri: string, state: string)
    ensures var url := BuildAuthorizeUrl(p, redirectUri, state);
            var ps := AuthorizeParams(p, redirectUri, state);
            var fields := Explode('&', url[|p.authorizeUrl| + 1..]);
            && url[..|p.authorizeUrl| + 1] == p.authorizeUrl + "?"
            && |fields| == |ps|
            && forall i :: 0 <= i < |ps| ==> SplitOnce('=', fields[i]) == (UrlEncode(ps[i].0), Some(UrlEncode(ps[i].1)))
  {
    var ps := AuthorizeParams(p, redirectUri, state);
    var url := BuildAuthorizeUrl(p, redirectUri, state);
    assert url[|p.authorizeUrl| + 1..] == BuildQuery(ps);
    QueryFields(ps);
  }
}
