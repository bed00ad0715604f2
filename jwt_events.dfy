/**
 * The `OnTokenValidated` event of the tool server's JWT bearer
 * authentication: once a token has been accepted, the raw bearer value of
 * the `Authorization` header is attached to the caller's identity as a
 * `raw_token` claim. The header is read in the form of section 2.1 of
 * RFC 6750, with the scheme name matched case-insensitively, as section 2.1
 * of RFC 7235 allows.
 */
module JwtEvents {
  import opened Wrappers
  import opened DotNetText

  /** The scheme prefix the header must start with, separating space included. */
  const BearerPrefix: string := "Bearer "

  /** The type of the claim that carries the raw token. */
  const RawTokenClaimType: string := "raw_token"

  /**
   * The raw token of an `Authorization` header (`None` when the request
   * or the header is absent): what follows the case-insensitive prefix
   * `"Bearer "`, trimmed. `None` when there is no header, the header is
   * empty, or it does not start with the prefix.
   */
  function ExtractBearer(header: Option<string>): (r: Option<string>)
    ensures r.Some? <==> header.Some? && StartsWithIgnoreCase(header.value, BearerPrefix)
    ensures r.Some? ==> IsTrimmed(r.value)
  {
    match header
    case None => None
    case Some(h) =>
      if h != "" && StartsWithIgnoreCase(h, BearerPrefix)
      then Some(Trim(h[|BearerPrefix|..]))
      else None
  }

  /** The seven-character prefixes that are accepted: every case variant of `"Bearer"`, then one space. */
  lemma BearerPrefixVariants(p: string)
    ensures EqualsIgnoreCase(p, BearerPrefix) <==>
              |p| == 7
              && (p[0] == 'B' || p[0] == 'b') && (p[1] == 'E' || p[1] == 'e')
              && (p[2] == 'A' || p[2] == 'a') && (p[3] == 'R' || p[3] == 'r')
              && (p[4] == 'E' || p[4] == 'e') && (p[5] == 'R' || p[5] == 'r')
              && p[6] == ' '
  {
  }

  /**
   * Round trip, in its general form: any case variant of the prefix,
   * followed by white space, a trimmed token and more white space, gives
   * back exactly that token.
   */
  lemma ExtractPadded(prefix: string, w1: string, token: string, w2: string)
    requires EqualsIgnoreCase(prefix, BearerPrefix)
    requires AllWhiteSpace(w1) && AllWhiteSpace(w2) && IsTrimmed(token)
    ensures ExtractBearer(Some(prefix + w1 + token + w2)) == Some(token)
  {
    var h := prefix + w1 + token + w2;
    assert h[..|BearerPrefix|] == prefix;
    assert h[|BearerPrefix|..] == w1 + token + w2;
    TrimPadded(w1, token, w2);
  }

  /** Round trip: a trimmed token after `"Bearer "` is extracted unchanged. */
  lemma ExtractRoundTrip(token: string)
    requires IsTrimmed(token)
    ensures ExtractBearer(Some(BearerPrefix + token)) == Some(token)
  {
  }

  /**
   * An accepted header is an accepted prefix, white space, the token and
   * white space: the token is the header minus its first seven characters,
   * trimmed at both ends.
   */
  lemma ExtractSound(header: string, token: string) returns (i: nat, j: nat)
    requires ExtractBearer(Some(header)) == Some(token)
    ensures EqualsIgnoreCase(header[..|BearerPrefix|], BearerPrefix)
    ensures |BearerPrefix| <= i <= j <= |header| && header[i..j] == token
    ensures AllWhiteSpace(header[|BearerPrefix|..i]) && AllWhiteSpace(header[j..])
  {
    var n := |BearerPrefix|;
    var rest := header[n..];
    var a, b := TrimBounds(rest);
    SliceOfSuffix(header, n, a, b);
    i, j := n + a, n + b;
  }

  /** Slicing a suffix `s[n..]` is slicing `s` with the offsets shifted by `n`. */
  lemma SliceOfSuffix(s: string, n: nat, a: nat, b: nat)
    requires n + a <= n + b <= |s|
    ensures s[n..][a..b] == s[n + a..n + b]
    ensures s[n..][..a] == s[n..n + a]
    ensures s[n..][b..] == s[n + b..]
  {
  }

  /** The prefix is matched without regard to case: only the rest of the header matters. */
  lemma ExtractIgnoresCase(prefix: string, rest: string)
    requires EqualsIgnoreCase(prefix, BearerPrefix)
    ensures ExtractBearer(Some(prefix + rest)) == ExtractBearer(Some(BearerPrefix + rest))
    ensures ExtractBearer(Some(prefix + rest)) == Some(Trim(rest))
  {
  }

  /** An absent or empty header yields no token. */
  lemma ExtractNoHeader()
    ensures ExtractBearer(None) == None
    ensures ExtractBearer(Some("")) == None
  {
  }

  /** Other schemes, the bare scheme name, a missing space, and a tab in place of the space are refused. */
  lemma ExtractRejects()
    ensures ExtractBearer(Some("Basic x")) == None
    ensures ExtractBearer(Some("Bearer")) == None
    ensures ExtractBearer(Some("Bearerx")) == None
    ensures ExtractBearer(Some("Bearer\tabc")) == None
  {
    assert !EqualsIgnoreCase("Basic x"[..7], BearerPrefix) by {
      assert FoldCase("Basic x"[2]) != FoldCase(BearerPrefix[2]);
    }
    assert !EqualsIgnoreCase("Bearer\tabc"[..7], BearerPrefix) by {
      assert FoldCase("Bearer\tabc"[6]) != FoldCase(BearerPrefix[6]);
    }
  }

  /** Lower- and upper-case scheme names are accepted. */
  lemma ExtractCaseVariants()
    ensures ExtractBearer(Some("bearer abc")) == Some("abc")
    ensures ExtractBearer(Some("BEARER abc")) == Some("abc")
    ensures ExtractBearer(Some("Bearer  abc \n")) == Some("abc")
  {
    BearerPrefixVariants("bearer ");
    BearerPrefixVariants("BEARER ");
    ExtractPadded("bearer ", [], "abc", []);
    assert "bearer " + [] + "abc" + [] == "bearer abc";
    ExtractPadded("BEARER ", [], "abc", []);
    assert "BEARER " + [] + "abc" + [] == "BEARER abc";
    ExtractPadded(BearerPrefix, " ", "abc", " \n");
    assert BearerPrefix + " " + "abc" + " \n" == "Bearer  abc \n";
  }

  /** A prefix followed by nothing but white space yields an empty token, not absence. */
  lemma ExtractEmptyToken(w: string)
    requires AllWhiteSpace(w)
    ensures ExtractBearer(Some(BearerPrefix + w)) == Some("")
    ensures ExtractBearer(Some("Bearer ")) == Some("")
    ensures ExtractBearer(Some("Bearer    ")) == Some("")
  {
    ExtractPadded(BearerPrefix, w, [], []);
    assert BearerPrefix + w + [] + [] == BearerPrefix + w;
    ExtractPadded(BearerPrefix, [], [], []);
    assert BearerPrefix + [] + [] + [] == "Bearer ";
    ExtractPadded(BearerPrefix, "   ", [], []);
    assert BearerPrefix + "   " + [] + [] == "Bearer    ";
  }

  /** `System.Security.Claims.Claim`: a claim type and a string value. */
  datatype Claim = Claim(claimType: string, value: string)

  /** The claims `OnTokenValidated` adds for a header: the raw-token claim, or none. */
  function RawTokenClaims(header: Option<string>): (r: seq<Claim>)
    ensures |r| == 1 <==> ExtractBearer(header).Some?
    ensures |r| == 0 <==> ExtractBearer(header).None?
    ensures forall c :: c in r ==> c == Claim(RawTokenClaimType, ExtractBearer(header).value)
  {
    match ExtractBearer(header)
    case None => []
    case Some(raw) => [Claim(RawTokenClaimType, raw)]
  }

  /** The number of claims of type `claimType` in `claims`. */
  function CountOfType(claims: seq<Claim>, claimType: string): (n: nat) {
    if claims == [] then 0
    else (if claims[0].claimType == claimType then 1 else 0) + CountOfType(claims[1..], claimType)
  }

  lemma {:induction false} CountOfTypeAppend(a: seq<Claim>, b: seq<Claim>, claimType: string)
    ensures CountOfType(a + b, claimType) == CountOfType(a, claimType) + CountOfType(b, claimType)
  {
    if a != [] {
      assert (a + b)[1..] == a[1..] + b;
      CountOfTypeAppend(a[1..], b, claimType);
    } else {
      assert a + b == b;
    }
  }

  /**
   * Attaching the raw-token claims adds exactly one `raw_token` claim when
   * a token is extracted and none otherwise, keeps the existing claims in
   * front, and adds no claim of any other type.
   */
  lemma RawTokenClaimsAddOne(claims: seq<Claim>, header: Option<string>, claimType: string)
    ensures (claims + RawTokenClaims(header))[..|claims|] == claims
    ensures CountOfType(claims + RawTokenClaims(header), RawTokenClaimType)
            == CountOfType(claims, RawTokenClaimType) + (if ExtractBearer(header).Some? then 1 else 0)
    ensures claimType != RawTokenClaimType ==>
              CountOfType(claims + RawTokenClaims(header), claimType) == CountOfType(claims, claimType)
  {
    var added := RawTokenClaims(header);
    CountOfTypeAppend(claims, added, RawTokenClaimType);
    CountOfTypeAppend(claims, added, claimType);
    if added != [] {
      assert added[1..] == [];
    }
  }

  /** `System.Security.Claims.ClaimsIdentity`, reduced to its list of claims. */
  class ClaimsIdentity {
    var claims: seq<Claim>

    constructor (initial: seq<Claim>)
      ensures claims == initial
    {
      claims := initial;
    }

    /** `ClaimsIdentity.AddClaim`: appends one claim. */
    method AddClaim(c: Claim)
      modifies this
      ensures claims == old(claims) + [c]
    {
      claims := claims + [c];
    }
  }

  /**
   * The `OnTokenValidated` handler. `identity` is the principal's identity
   * when it is a `ClaimsIdentity`, and `null` when the principal is absent,
   * has no identity, or has an identity of another kind; `header` is the
   * request's `Authorization` header. The raw token, when extracted, is
   * added as a `raw_token` claim; nothing else changes.
   */
  method OnTokenValidated(identity: ClaimsIdentity?, header: Option<string>)
    modifies identity
    ensures identity != null ==> identity.claims == old(identity.claims) + RawTokenClaims(header)
  {
    var raw := ExtractBearer(header);
    if raw.Some? {
      if identity != null {
        identity.AddClaim(Claim(RawTokenClaimType, raw.value));
      }
    }
  }
}
