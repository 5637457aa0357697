/**
 * What the grants promise across calls: the tables stay consistent, an
 * issued code can be exchanged once and only by its client, a refresh
 * rotates the pair so the old values stop working, an issued access token
 * validates until it expires, and revocation is idempotent.
 */
module GrantProperties {
  import opened Wrappers
  import opened PhpStrings
  import opened Tables
  import opened UserModel
  import opened ClientModel
  import opened TokenModel
  import opened CodeModel
  import opened GrantEngine

  // ------------------------------------------------------------------ consistency

  lemma IssuePreservesConsistency(db: Db, clientId: string, userId: nat, redirectUri: string,
                                  scope: seq<string>, now: int, random: seq<byte>)
    requires Consistent(db)
    requires |random| == 32 && Bin2Hex(random) !in db.codes
    ensures Consistent(GenerateAuthorizationCode(db, clientId, userId, redirectUri, scope, now, random).db)
  {
  }

  /** A new row whose two values no existing row uses keeps the values distinct. */
  lemma {:induction false} AddTokenKeepsDistinct(tokens: map<nat, Token>, id: nat, t: Token)
    requires TokenValuesDistinct(tokens) && id !in tokens
    requires t.accessToken != t.refreshToken
    requires forall k :: k in tokens ==> tokens[k].accessToken != t.accessToken && tokens[k].refreshToken != t.accessToken
    requires forall k :: k in tokens ==> tokens[k].accessToken != t.refreshToken && tokens[k].refreshToken != t.refreshToken
    ensures TokenValuesDistinct(tokens[id := t])
  {
    var ts := tokens[id := t];
    forall k, l | k in ts && l in ts && k != l
      ensures ts[k].accessToken != ts[l].accessToken
      ensures ts[k].refreshToken != ts[l].refreshToken
      ensures ts[k].accessToken != ts[l].refreshToken
    {
      if k == id {
        assert ts[l] == tokens[l];
      } else if l == id {
        assert ts[k] == tokens[k];
      } else {
        assert ts[k] == tokens[k] && ts[l] == tokens[l];
      }
    }
  }

  lemma ExchangePreservesConsistency(db: Db, code: string, clientId: string, clientSecret: string,
                                     redirectUri: string, now: int, accessBytes: seq<byte>, refreshBytes: seq<byte>)
    requires Consistent(db) && FreshPair(db, accessBytes, refreshBytes)
    ensures Consistent(ExchangeCodeForToken(db, code, clientId, clientSecret, redirectUri, now, accessBytes, refreshBytes).db)
  {
    var r := ExchangeCodeForToken(db, code, clientId, clientSecret, redirectUri, now, accessBytes, refreshBytes);
    if r.out.Some? {
      var t := r.db.tokens[db.nextTokenId];
      assert db.nextTokenId !in db.tokens;
      AddTokenKeepsDistinct(db.tokens, db.nextTokenId, t);
    }
  }

  lemma RefreshPreservesConsistency(db: Db, refreshToken: string, clientId: string, clientSecret: string,
                                    now: int, accessBytes: seq<byte>, refreshBytes: seq<byte>)
    requires Consistent(db) && FreshPair(db, accessBytes, refreshBytes)
    ensures Consistent(RefreshToken(db, refreshToken, clientId, clientSecret, now, accessBytes, refreshBytes).db)
  {
    var r := RefreshToken(db, refreshToken, clientId, clientSecret, now, accessBytes, refreshBytes);
    if r.out.Some? {
      var k := FindToken(db, RefreshFor(refreshToken, clientId)).value;
      var rest := db.tokens - {k};
      assert TokenValuesDistinct(rest) by {
        forall i | i in rest ensures rest[i] == db.tokens[i] { }
      }
      assert r.db.tokens == rest[k := r.db.tokens[k]];
      AddTokenKeepsDistinct(rest, k, r.db.tokens[k]);
    }
  }

  lemma RevokePreservesConsistency(db: Db, token: string)
    requires Consistent(db)
    ensures Consistent(RevokeToken(db, token).db)
  {
    var r := RevokeToken(db, token);
    if r.out {
      var rest := r.db.tokens;
      forall i | i in rest ensures rest[i] == db.tokens[i] { }
    }
  }

  // ------------------------------------------------------------------ the code grant

  /**
   * A code issued to an accepted client is exchanged, within its lifetime and
   * with the same redirect URI, for a pair bound to the code's user and scope.
   */
  lemma IssueThenExchange(db: Db, clientId: string, clientSecret: string, userId: nat, redirectUri: string,
                          scope: seq<string>, now: int, random: seq<byte>, later: int,
                          accessBytes: seq<byte>, refreshBytes: seq<byte>)
    requires |random| == 32 && Bin2Hex(random) !in db.codes
    requires ClientAccepted(db, clientId, clientSecret)
    requires now <= later <= now + CodeLifetime
    requires FreshPair(db, accessBytes, refreshBytes)
    ensures var issued := GenerateAuthorizationCode(db, clientId, userId, redirectUri, scope, now, random);
            var r := ExchangeCodeForToken(issued.db, issued.out, clientId, clientSecret, redirectUri, later,
                                          accessBytes, refreshBytes);
            && r.out == Some(TokenResponse(Bin2Hex(accessBytes), Bin2Hex(refreshBytes), "Bearer", 7200, Join(" ", scope)))
            && r.db.tokens[db.nextTokenId].userId == userId
            && r.db.tokens[db.nextTokenId].clientId == clientId
            && r.db.tokens[db.nextTokenId].scope == scope
            && r.db.codes == db.codes
  {
    var issued := GenerateAuthorizationCode(db, clientId, userId, redirectUri, scope, now, random);
    assert UnusedTokenValue(issued.db, Bin2Hex(accessBytes)) && UnusedTokenValue(issued.db, Bin2Hex(refreshBytes));
    assert ClientAccepted(issued.db, clientId, clientSecret) by {
      assert EnabledClient(issued.db, clientId) == EnabledClient(db, clientId);
    }
    assert issued.db.codes - {issued.out} == db.codes;
  }

  /** Once exchanged, a code is gone: every later exchange of it fails and changes nothing. */
  lemma CodeIsSingleUse(db: Db, code: string, clientId: string, clientSecret: string, redirectUri: string,
                        now: int, accessBytes: seq<byte>, refreshBytes: seq<byte>,
                        clientId2: string, clientSecret2: string, redirectUri2: string, now2: int,
                        accessBytes2: seq<byte>, refreshBytes2: seq<byte>)
    requires FreshPair(db, accessBytes, refreshBytes)
    requires ExchangeCodeForToken(db, code, clientId, clientSecret, redirectUri, now, accessBytes, refreshBytes).out.Some?
    requires FreshPair(ExchangeCodeForToken(db, code, clientId, clientSecret, redirectUri, now, accessBytes, refreshBytes).db,
                       accessBytes2, refreshBytes2)
    ensures var db1 := ExchangeCodeForToken(db, code, clientId, clientSecret, redirectUri, now, accessBytes, refreshBytes).db;
            ExchangeCodeForToken(db1, code, clientId2, clientSecret2, redirectUri2, now2, accessBytes2, refreshBytes2)
              == Step(db1, None)
  {
  }

  /** Only the client a code was issued to can exchange it. */
  lemma OnlyIssuingClientExchanges(db: Db, code: string, clientId: string, clientSecret: string,
                                   redirectUri: string, now: int, accessBytes: seq<byte>, refreshBytes: seq<byte>)
    requires FreshPair(db, accessBytes, refreshBytes)
    requires code in db.codes && db.codes[code].clientId != clientId
    ensures ExchangeCodeForToken(db, code, clientId, clientSecret, redirectUri, now, accessBytes, refreshBytes)
              == Step(db, None)
  {
  }

  // ------------------------------------------------------------------ access tokens

  /** The row holding a value as its access token is the only one, so `first()` finds it. */
  lemma {:induction false} FindUniqueAccess(db: Db, k: nat)
    requires Consistent(db) && k in db.tokens
    ensures FindToken(db, AccessIs(db.tokens[k].accessToken)) == Some(k)
  {
    var p := AccessIs(db.tokens[k].accessToken);
    assert p(db.tokens[k]);
    FirstKeyComplete(db.tokens, p, db.nextTokenId, k);
  }

  /**
   * The access token an exchange returns validates, for the whole of its
   * lifetime, to the code's user and scope as long as that user is enabled.
   */
  lemma ExchangedTokenValidates(db: Db, code: string, clientId: string, clientSecret: string,
                                redirectUri: string, now: int, accessBytes: seq<byte>, refreshBytes: seq<byte>,
                                later: int)
    requires Consistent(db) && FreshPair(db, accessBytes, refreshBytes)
    requires ExchangeCodeForToken(db, code, clientId, clientSecret, redirectUri, now, accessBytes, refreshBytes).out.Some?
    requires now <= later <= now + AccessLifetime
    ensures var ac := db.codes[code];
            var r := ExchangeCodeForToken(db, code, clientId, clientSecret, redirectUri, now, accessBytes, refreshBytes);
            var v := ValidateAccessToken(r.db, Bin2Hex(accessBytes), later);
            && (v.Some? <==> ac.userId in db.users.rows && db.users.rows[ac.userId].status == 1)
            && (v.Some? ==> v.value.userId == ac.userId && v.value.scope == ac.scope)
  {
    var r := ExchangeCodeForToken(db, code, clientId, clientSecret, redirectUri, now, accessBytes, refreshBytes);
    ExchangePreservesConsistency(db, code, clientId, clientSecret, redirectUri, now, accessBytes, refreshBytes);
    FindUniqueAccess(r.db, db.nextTokenId);
  }

  /** An access token is rejected from the first second past its expiry on. */
  lemma ExpiredAccessTokenRejected(db: Db, accessToken: string, now: int, later: int)
    requires now <= later
    requires FindToken(db, AccessIs(accessToken)).Some?
    requires TokenModel.IsExpired(db.tokens[FindToken(db, AccessIs(accessToken)).value], now)
    ensures ValidateAccessToken(db, accessToken, later).None?
  {
  }

  // ------------------------------------------------------------------ refresh

  /**
   * A successful refresh rotates the pair in place: the old refresh and
   * access values no longer match any token, the new refresh value finds the
   * same row, and the user, client and scope of that row are unchanged.
   */
  lemma RefreshRotates(db: Db, refreshToken: string, clientId: string, clientSecret: string, now: int,
                       accessBytes: seq<byte>, refreshBytes: seq<byte>, anyClient: string)
    requires Consistent(db) && FreshPair(db, accessBytes, refreshBytes)
    requires RefreshToken(db, refreshToken, clientId, clientSecret, now, accessBytes, refreshBytes).out.Some?
    ensures var k := FindToken(db, RefreshFor(refreshToken, clientId)).value;
            var db1 := RefreshToken(db, refreshToken, clientId, clientSecret, now, accessBytes, refreshBytes).db;
            && FindToken(db1, RefreshFor(refreshToken, anyClient)).None?
            && FindToken(db1, AccessIs(db.tokens[k].accessToken)).None?
            && FindToken(db1, RefreshFor(Bin2Hex(refreshBytes), clientId)) == Some(k)
            && FindToken(db1, AccessIs(Bin2Hex(accessBytes))) == Some(k)
            && db1.tokens[k].userId == db.tokens[k].userId
            && db1.tokens[k].clientId == db.tokens[k].clientId
            && db1.tokens[k].scope == db.tokens[k].scope
            && db1.tokens.Keys == db.tokens.Keys
  {
    var k := FindToken(db, RefreshFor(refreshToken, clientId)).value;
    var db1 := RefreshToken(db, refreshToken, clientId, clientSecret, now, accessBytes, refreshBytes).db;
    RefreshPreservesConsistency(db, refreshToken, clientId, clientSecret, now, accessBytes, refreshBytes);
    var oldAccess := db.tokens[k].accessToken;
    forall j | j in db1.tokens
      ensures !RefreshFor(refreshToken, anyClient)(db1.tokens[j])
      ensures !AccessIs(oldAccess)(db1.tokens[j])
    {
      if j != k {
        assert db1.tokens[j] == db.tokens[j];
      }
    }
    var newRefresh := RefreshFor(Bin2Hex(refreshBytes), clientId);
    assert newRefresh(db1.tokens[k]);
    FirstKeyComplete(db1.tokens, newRefresh, db1.nextTokenId, k);
    FindUniqueAccess(db1, k);
  }

  /** Presenting the old refresh value again, by any client, fails and changes nothing. */
  lemma OldRefreshValueFails(db: Db, refreshToken: string, clientId: string, clientSecret: string, now: int,
                             accessBytes: seq<byte>, refreshBytes: seq<byte>,
                             clientId2: string, clientSecret2: string, now2: int,
                             accessBytes2: seq<byte>, refreshBytes2: seq<byte>)
    requires Consistent(db) && FreshPair(db, accessBytes, refreshBytes)
    requires RefreshToken(db, refreshToken, clientId, clientSecret, now, accessBytes, refreshBytes).out.Some?
    requires FreshPair(RefreshToken(db, refreshToken, clientId, clientSecret, now, accessBytes, refreshBytes).db,
                       accessBytes2, refreshBytes2)
    ensures var db1 := RefreshToken(db, refreshToken, clientId, clientSecret, now, accessBytes, refreshBytes).db;
            RefreshToken(db1, refreshToken, clientId2, clientSecret2, now2, accessBytes2, refreshBytes2) == Step(db1, None)
  {
    RefreshRotates(db, refreshToken, clientId, clientSecret, now, accessBytes, refreshBytes, clientId2);
  }

  // ------------------------------------------------------------------ revocation

  /** At most one row holds a given value, so one revocation removes every trace of it. */
  lemma RevokeRemovesValue(db: Db, token: string)
    requires Consistent(db)
    ensures var db1 := RevokeToken(db, token).db;
            forall k :: k in db1.tokens ==> db1.tokens[k].accessToken != token && db1.tokens[k].refreshToken != token
  {
    var r := RevokeToken(db, token);
    if r.out {
      var f := FindToken(db, AccessOrRefreshIs(token)).value;
      forall k | k in r.db.tokens
        ensures r.db.tokens[k].accessToken != token && r.db.tokens[k].refreshToken != token
      {
        assert k != f && r.db.tokens[k] == db.tokens[k];
      }
    }
  }

  /** Revoking twice is revoking once: the second call finds nothing and changes nothing. */
  lemma RevokeIdempotent(db: Db, token: string)
    requires Consistent(db)
    ensures var db1 := RevokeToken(db, token).db;
            RevokeToken(db1, token) == Step(db1, false)
  {
    RevokeRemovesValue(db, token);
  }
}
