/**
 * `AuthorizationTokenMiddleware.__call__`: four guards on the `Authorization`
 * header, checked in order, each answering 403 with its own message; a request
 * that passes all four is handed on to the view.
 */
module Middleware {
  import opened Wrappers
  import opened Text

  /** The request is handed on to `get_response`, or refused with `HttpResponseForbidden` (403). */
  datatype AuthOutcome = Forward | Forbidden(message: string)

  const MissingHeader: string := "Missing Authorization header."
  const BadFormat: string := "Invalid Authorization header format."
  const BadScheme: string := "Invalid authorization scheme."
  const BadToken: string := "Invalid token."

  /**
   * The guards: a header must be present and non-empty; `split(' ')` must
   * give exactly a scheme and a token; the scheme must be `Bearer`; the token
   * must equal the configured `API_AUTH_TOKEN` (`validToken`, None when unset).
   */
  function Authorize(header: Option<string>, validToken: Option<string>): AuthOutcome {
    if header.None? || header.value == "" then Forbidden(MissingHeader)
    else
      var parts := Split(header.value);
      if |parts| != 2 then Forbidden(BadFormat)
      else if parts[0] != "Bearer" then Forbidden(BadScheme)
      else if validToken != Some(parts[1]) then Forbidden(BadToken)
      else Forward
  }

  /** The header begins with the scheme `Bearer` and the space after it. */
  predicate HasBearerPrefix(h: string) {
    |h| >= 7 && h[..7] == "Bearer "
  }

  /** The number of spaces in `h`. */
  function Spaces(h: string): nat {
    multiset(h)[' ']
  }

  /** A header with exactly one space is the scheme, that space and the token. */
  lemma OneSpaceParts(h: string)
    requires Spaces(h) == 1
    ensures |Split(h)| == 2 && h == Split(h)[0] + " " + Split(h)[1]
  {
    SplitCount(h);
    JoinSplit(h);
    var parts := Split(h);
    assert JoinWithSpaces(parts[1..]) == parts[1];
  }

  /** The scheme `split(' ')` finds is the text before the first space. */
  lemma SchemeBeforeFirstSpace(h: string)
    requires ' ' in h
    ensures Split(h)[0] == h[..FirstSpace(h)]
  {
  }

  /** A header starting `"Bearer "` has the scheme `Bearer`. */
  lemma PrefixGivesBearer(h: string)
    requires HasBearerPrefix(h)
    ensures ' ' in h && Split(h)[0] == "Bearer"
  {
    assert h[6] == ' ';
    var i := FirstSpace(h);
    assert i == 6 by {
      assert ' ' !in h[..6] by { assert h[..6] == "Bearer"; }
      assert h[..7][6] == ' ';
    }
    SchemeBeforeFirstSpace(h);
  }

  /** A header with the scheme `Bearer` starts `"Bearer "`. */
  lemma BearerGivesPrefix(h: string)
    requires ' ' in h && Split(h)[0] == "Bearer"
    ensures HasBearerPrefix(h)
  {
    SchemeBeforeFirstSpace(h);
    var i := FirstSpace(h);
    assert h[..7] == h[..i] + [h[i]];
  }

  /** For a header with one space: its scheme is `Bearer` exactly when it starts `"Bearer "`, and then the token is the rest. */
  lemma BearerScheme(h: string)
    requires Spaces(h) == 1
    ensures |Split(h)| == 2
    ensures Split(h)[0] == "Bearer" <==> HasBearerPrefix(h)
    ensures Split(h)[0] == "Bearer" ==> Split(h)[1] == h[7..]
  {
    OneSpaceParts(h);
    assert ' ' in h by { assert h[|Split(h)[0]|] == ' '; }
    if HasBearerPrefix(h) {
      PrefixGivesBearer(h);
    }
    if Split(h)[0] == "Bearer" {
      BearerGivesPrefix(h);
    }
  }

  /** Each outcome, described without `split`: by presence, the count of spaces, the prefix and the rest. */
  lemma AuthorizeCases(header: Option<string>, validToken: Option<string>)
    ensures var r := Authorize(header, validToken);
            && (r == Forbidden(MissingHeader) <==> header.None? || header.value == "")
            && (r == Forbidden(BadFormat) <==> header.Some? && header.value != "" && Spaces(header.value) != 1)
            && (r == Forbidden(BadScheme) <==>
                  header.Some? && Spaces(header.value) == 1 && !HasBearerPrefix(header.value))
            && (r == Forbidden(BadToken) <==>
                  header.Some? && Spaces(header.value) == 1 && HasBearerPrefix(header.value)
                  && validToken != Some(header.value[7..]))
            && (r == Forward <==>
                  header.Some? && Spaces(header.value) == 1 && HasBearerPrefix(header.value)
                  && validToken == Some(header.value[7..]))
  {
    if header.Some? && header.value != "" {
      var h := header.value;
      SplitCount(h);
      if Spaces(h) == 1 {
        BearerScheme(h);
      }
    } else if header.Some? {
      assert Spaces(header.value) == 0;
    }
  }

  /** One space, after the scheme `Bearer`: the header is `"Bearer "` and a token without spaces. */
  lemma BearerForm(h: string)
    ensures Spaces(h) == 1 && HasBearerPrefix(h) <==> |h| >= 7 && h == "Bearer " + h[7..] && ' ' !in h[7..]
  {
    if |h| >= 7 {
      assert h == h[..7] + h[7..];
      SpacesConcat(h[..7], h[7..]);
      assert Spaces("Bearer ") == 1 by { assert "Bearer " == "Bearer" + " "; SpacesConcat("Bearer", " "); }
      if h == "Bearer " + h[7..] {
        assert h[..7] == "Bearer ";
      }
    }
  }

  /** A request gets through exactly when the header is `"Bearer "` followed by the configured token, which has no space. */
  lemma ForwardIff(header: Option<string>, validToken: Option<string>)
    ensures Authorize(header, validToken) == Forward <==>
            validToken.Some? && ' ' !in validToken.value && header == Some("Bearer " + validToken.value)
  {
    AuthorizeCases(header, validToken);
    if header.Some? {
      BearerForm(header.value);
    }
    if validToken.Some? && header == Some("Bearer " + validToken.value) {
      assert header.value[7..] == validToken.value;
    }
  }

  /** With `API_AUTH_TOKEN` unset no header gets through. */
  lemma UnsetTokenRejectsAll(header: Option<string>)
    ensures Authorize(header, None).Forbidden?
  {
  }

  /** `"Bearer"` alone has no space and fails the format check. */
  lemma SchemeAloneBadFormat(validToken: Option<string>)
    ensures Authorize(Some("Bearer"), validToken) == Forbidden(BadFormat)
  {
    assert ' ' !in "Bearer";
  }

  /** Spaces in a concatenation are the spaces of its parts. */
  lemma SpacesConcat(a: string, b: string)
    ensures Spaces(a + b) == Spaces(a) + Spaces(b)
  {
    assert multiset(a + b) == multiset(a) + multiset(b);
  }

  /** A header with a second space after the token fails the format check. */
  lemma TwoSpacesBadFormat(token: string, extra: string, validToken: Option<string>)
    ensures Authorize(Some("Bearer " + token + " " + extra), validToken) == Forbidden(BadFormat)
  {
    var front, back := "Bearer " + token, " " + extra;
    SpacesConcat(front, back);
    SpacesConcat("Bearer ", token);
    SpacesConcat(" ", extra);
    assert Spaces("Bearer ") == 1 by { assert "Bearer " == "Bearer" + " "; SpacesConcat("Bearer", " "); }
    assert front + back == "Bearer " + token + " " + extra;
    AuthorizeCases(Some(front + back), validToken);
  }

  /** A scheme other than `Bearer`, even `bearer`, is refused before the token is looked at. */
  lemma SchemeCaseSensitive(token: string, validToken: Option<string>)
    requires ' ' !in token
    ensures Authorize(Some("bearer " + token), validToken) == Forbidden(BadScheme)
  {
    var h := "bearer " + token;
    assert h == "bearer" + " " + token;
    SplitOneSpace(h, 6);
    assert Split(h)[0] == "bearer";
    assert "bearer"[0] != "Bearer"[0];
  }
}
