/**
 * OauthController as the object the router calls: the endpoints that change
 * the tables go through its OAuthService. Each method answers and changes
 * the tables exactly as the matching function of Endpoints says.
 */
module OauthController {
  import opened Wrappers
  import opened PhpStrings
  import opened Http
  import opened GrantEngine
  import opened Endpoints
  import OAuthService

  class Controller {
    const service: OAuthService.Service

    constructor (service: OAuthService.Service)
      ensures this.service == service
    {
      this.service := service;
    }

    method AuthorizeSubmit(session: Session, req: Request, now: int, random: seq<byte>) returns (response: Response)
      requires service.Valid()
      requires |random| == 32 && Bin2Hex(random) !in service.codes
      modifies service
      ensures service.Valid()
      ensures var r := Endpoints.AuthorizeSubmit(old(service.State()), session, req, now, random);
              service.State() == r.db && response == r.out
    {
      if !LoggedIn(session) {
        return JsonError(401, "unauthorized");
      }
      var redirectUri := Post(req, "redirect_uri");
      var state := PostOr(req, "state", "");
      if !Approved(req) {
        return Redirect(OrEmpty(redirectUri) + "?error=access_denied" + StateSuffix(state));
      }
      if !SubmissionComplete(req) {
        return Fatal;
      }
      var code := service.GenerateAuthorizationCode(req.post["client_id"], session.userId.value, redirectUri.value,
                                                    SubmittedScope(req).value, now, random);
      response := Redirect(redirectUri.value + "?code=" + code + StateSuffix(state));
    }

    method Token(req: Request, now: int, accessBytes: seq<byte>, refreshBytes: seq<byte>) returns (response: Response)
      requires service.Valid() && FreshPair(service.State(), accessBytes, refreshBytes)
      modifies service
      ensures service.Valid()
      ensures var r := Endpoints.Token(old(service.State()), req, now, accessBytes, refreshBytes);
              service.State() == r.db && response == r.out
    {
      var grantType := Post(req, "grant_type");
      if grantType == Some("authorization_code") {
        if !CodeGrantComplete(req) {
          return Fatal;
        }
        var token := service.ExchangeCodeForToken(req.post["code"], req.post["client_id"], req.post["client_secret"],
                                                  req.post["redirect_uri"], now, accessBytes, refreshBytes);
        response := GrantAnswer(token);
      } else if grantType == Some("refresh_token") {
        if !RefreshGrantComplete(req) {
          return Fatal;
        }
        var token := service.RefreshToken(req.post["refresh_token"], req.post["client_id"], req.post["client_secret"],
                                          now, accessBytes, refreshBytes);
        response := GrantAnswer(token);
      } else {
        response := JsonError(400, "unsupported_grant_type");
      }
    }

    method Revoke(req: Request, decode: Decoder) returns (response: Response)
      requires service.Valid()
      modifies service
      ensures service.Valid()
      ensures var r := Endpoints.Revoke(old(service.State()), req, decode);
              service.State() == r.db && response == r.out
    {
      var caller := AuthenticateClient(service.State(), req, decode);
      if caller.None? {
        return JsonError(401, "invalid_client");
      }
      var tokenValue := Post(req, "token");
      if !Given(tokenValue) {
        return JsonError(400, "invalid_request");
      }
      var found := FindToken(service.State(), AccessOrRefreshIs(tokenValue.value));
      if found.Some? && service.tokens[found.value].clientId == caller.value.clientId {
        service.DeleteToken(found.value);
      }
      response := Success;
    }
  }
}
