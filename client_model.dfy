/** OAuth clients: the registered applications. */
module ClientModel {
  import opened Json

  datatype Client = Client(
    id: nat,
    userId: nat,
    name: string,
    clientId: string,
    clientSecret: string,
    redirectUri: string,
    grantTypes: seq<string>,
    scope: seq<string>,
    status: int)

  /** validateSecret: hash_equals on the stored value, so true exactly when both agree character by character. */
  function ValidateSecret(c: Client, secret: string): (r: bool)
    ensures r <==> |secret| == |c.clientSecret| && forall i :: 0 <= i < |secret| ==> secret[i] == c.clientSecret[i]
  {
    c.clientSecret == secret
  }

  /** validateRedirectUri: exact string equality with the one registered URI. */
  function ValidateRedirectUri(c: Client, uri: string): (r: bool)
    ensures r <==> |uri| == |c.redirectUri| && forall i :: 0 <= i < |uri| ==> uri[i] == c.redirectUri[i]
  {
    uri == c.redirectUri
  }

  /** No prefix, path or query relaxation: anything appended to the registered URI is refused. */
  lemma RedirectAllowsNoExtension(c: Client, extra: string)
    requires extra != []
    ensures !ValidateRedirectUri(c, c.redirectUri + extra)
    ensures |c.redirectUri| > 0 ==> !ValidateRedirectUri(c, c.redirectUri[..|c.redirectUri| - 1])
  {
    assert |c.redirectUri + extra| != |c.redirectUri|;
  }

  /** The attributes a client serialises to; client_secret is hidden. */
  const VisibleAttributes: set<string> :=
    {"id", "user_id", "name", "client_id", "redirect_uri", "grant_types", "scope", "status"}

  /** toArray(): the hidden secret is left out, grant_types and scope are cast to arrays. */
  function ToArray(c: Client): (r: map<string, Value>)
    ensures r.Keys == VisibleAttributes && "client_secret" !in r
    ensures r["grant_types"].List? && r["scope"].List?
    ensures r["client_id"] == Str(c.clientId)
  {
    map[
      "id" := Int(c.id),
      "user_id" := Int(c.userId),
      "name" := Str(c.name),
      "client_id" := Str(c.clientId),
      "redirect_uri" := Str(c.redirectUri),
      "grant_types" := List(StrList(c.grantTypes)),
      "scope" := List(StrList(c.scope)),
      "status" := Int(c.status)]
  }
}
