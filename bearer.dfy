/**
 The bearer-token handling shared by the three directory routes: the token is
 the second space-separated field of the Authorization header, a missing or
 empty token is refused, and a present one is forwarded upstream as
 `Bearer <token>`. The scheme word, the first field, is never looked at.
 */
module Bearer {
  import opened Wrappers
  import opened JsArray
  import opened JsString

  /** `req.headers.authorization?.split(' ')[1]`: `None` stands for `undefined`. */
  function Token(authorization: Option<string>): (t: Option<string>)
    ensures authorization.None? ==> t.None?
    ensures authorization.Some? ==> (t.Some? <==> ' ' in authorization.value)
    ensures t.Some? ==> ' ' !in t.value
  {
    match authorization
    case None => None
    case Some(header) =>
      FieldCount(header, ' ');
      At(Split(header, ' '), 1)
  }

  /** The Authorization header sent to the user directory: `Bearer ${token}`. */
  function ForwardedAuthorization(token: string): string {
    "Bearer " + token
  }

  /** Whatever the scheme word, the field after the first space is the token. */
  lemma TokenAfterScheme(scheme: string, credentials: string)
    requires ' ' !in scheme && ' ' !in credentials
    ensures Token(Some(scheme + " " + credentials)) == Some(credentials)
  {
    SplitAfterField(scheme, ' ', credentials);
    assert FirstIndex(credentials, ' ') == |credentials|;
  }

  /** Fields after the token are ignored. */
  lemma TokenIgnoresRest(scheme: string, credentials: string, rest: string)
    requires ' ' !in scheme && ' ' !in credentials
    ensures Token(Some(scheme + " " + credentials + " " + rest)) == Some(credentials)
  {
    assert scheme + " " + credentials + " " + rest == scheme + [' '] + (credentials + [' '] + rest);
    SplitAfterField(scheme, ' ', credentials + [' '] + rest);
    SplitAfterField(credentials, ' ', rest);
  }

  /**
   The token is what follows the first space of the header, up to the next
   space or the end.
   */
  lemma TokenIsRun(header: string, k: nat, token: string)
    requires ' ' in header && k == FirstIndex(header, ' ')
    requires Token(Some(header)) == Some(token)
    ensures token == header[k + 1..][..FirstIndex(header[k + 1..], ' ')]
  {
    SecondField(header, ' ', k);
  }

  /**
   The request is refused exactly when the header is missing, has no space, or
   has nothing between its first space and the next space (or its end).
   */
  lemma NoTokenCases(authorization: Option<string>)
    ensures !Truthy(Token(authorization)) <==>
      || authorization.None?
      || ' ' !in authorization.value
      || (var k := FirstIndex(authorization.value, ' ');
          k + 1 == |authorization.value| || authorization.value[k + 1] == ' ')
  {
    if authorization.Some? && ' ' in authorization.value {
      var header := authorization.value;
      var k := FirstIndex(header, ' ');
      TokenIsRun(header, k, Token(authorization).value);
      RunAfter(header, ' ', k + 1, Token(authorization).value);
    }
  }

  /** A token extracted from a header survives being forwarded: the directory sees the same token. */
  lemma ForwardedTokenRoundTrip(authorization: Option<string>)
    requires Truthy(Token(authorization))
    ensures Token(Some(ForwardedAuthorization(Token(authorization).value))) == Token(authorization)
  {
    TokenAfterScheme("Bearer", Token(authorization).value);
  }

  /** The scheme word is not checked: `Basic abc` yields the token `abc`. */
  lemma OtherSchemeAccepted()
    ensures Token(Some("Basic abc")) == Some("abc")
  {
    assert "Basic abc" == "Basic" + " " + "abc";
    assert ' ' !in "Basic" && ' ' !in "abc";
    TokenAfterScheme("Basic", "abc");
  }

  /** `Bearer ` has an empty second field: refused. */
  lemma TrailingSpaceRefused()
    ensures !Truthy(Token(Some("Bearer ")))
  {
    assert "Bearer " == "Bearer" + " " + "";
    TokenAfterScheme("Bearer", "");
  }

  /** `Bearer  x` has an empty second field between its two spaces: refused. */
  lemma DoubleSpaceRefused()
    ensures !Truthy(Token(Some("Bearer  x")))
  {
    assert "Bearer  x" == "Bearer" + " " + "" + " " + "x";
    TokenIgnoresRest("Bearer", "", "x");
  }

  /** `Bearer` alone has no second field: refused. */
  lemma SchemeAloneRefused()
    ensures !Truthy(Token(Some("Bearer")))
  {
    assert "Bearer"[6..] == [];
    assert ' ' !in "Bearer";
  }
}
