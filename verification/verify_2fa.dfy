/**
 The verification route: normalises the submitted token, checks that it is
 six digits, and reports whether the authenticator accepts it for the
 secret.
 */
module VerifyTwoFactor {
  import opened Js
  import opened Authenticator

  /** The settings assigned before verifying: one step of tolerance on either
      side, everything else left at the library's defaults. */
  const VerifyOptions: Options := Options(None, Some(1), None)

  // ---------------------------------------------------------------------
  // Token normalisation

  /** `s.replace(/\s/g, '')`: every white-space character removed. */
  function StripWhitespace(s: string): (r: string)
    ensures |r| <= |s|
    ensures forall i | 0 <= i < |r| :: !IsJsWhitespace(r[i])
  {
    if s == [] then []
    else if IsJsWhitespace(s[0]) then StripWhitespace(s[1..])
    else [s[0]] + StripWhitespace(s[1..])
  }

  /** Stripping a concatenation strips each part. */
  lemma {:induction false} StripAppend(a: string, b: string)
    ensures StripWhitespace(a + b) == StripWhitespace(a) + StripWhitespace(b)
  {
    if a != [] {
      assert (a + b)[0] == a[0];
      assert (a + b)[1..] == a[1..] + b;
      StripAppend(a[1..], b);
    } else {
      assert a + b == b;
    }
  }

  /** A string without white space is left as it is. */
  lemma {:induction false} StripKeeps(s: string)
    requires forall i | 0 <= i < |s| :: !IsJsWhitespace(s[i])
    ensures StripWhitespace(s) == s
  {
    if s != [] {
      StripKeeps(s[1..]);
    }
  }

  /** Together with StripAppend and StripKeeps this pins the function down:
      white space disappears. */
  lemma {:induction false} StripDrops(w: string)
    requires forall i | 0 <= i < |w| :: IsJsWhitespace(w[i])
    ensures StripWhitespace(w) == []
  {
    if w != [] {
      StripDrops(w[1..]);
    }
  }

  /** Normalising twice changes nothing. */
  lemma StripIdempotent(s: string)
    ensures StripWhitespace(StripWhitespace(s)) == StripWhitespace(s)
  {
    StripKeeps(StripWhitespace(s));
  }

  /** `/^\d{6}$/`: exactly six ASCII digits. Such a token holds no white
      space, so cleaning it again leaves it as it is. */
  predicate IsSixDigits(s: string)
    ensures IsSixDigits(s) ==> forall i | 0 <= i < |s| :: !IsJsWhitespace(s[i])
  {
    |s| == 6 && forall i | 0 <= i < 6 :: IsAsciiDigit(s[i])
  }

  /** The token as the check sees it. */
  function CleanToken(token: Json): string
  {
    StripWhitespace(ToJsString(token))
  }

  /** A code typed in groups separated by white space is checked as the
      groups written together. */
  lemma {:induction false} GroupedCode(a: string, w: string, b: string)
    requires forall i | 0 <= i < |a| :: !IsJsWhitespace(a[i])
    requires forall i | 0 <= i < |w| :: IsJsWhitespace(w[i])
    requires forall i | 0 <= i < |b| :: !IsJsWhitespace(b[i])
    ensures CleanToken(JStr(a + w + b)) == a + b
  {
    var s := a + w + b;
    assert CleanToken(JStr(s)) == StripWhitespace(s);
    StripThree(a, w, b);
    StripKeeps(a);
    StripKeeps(b);
    StripDrops(w);
    DropMiddle(a, b);
  }

  lemma DropMiddle(a: string, b: string)
    ensures a + [] + b == a + b
  {
    assert a + [] == a;
  }

  lemma {:induction false} StripThree(a: string, w: string, b: string)
    ensures StripWhitespace(a + w + b) == StripWhitespace(a) + StripWhitespace(w) + StripWhitespace(b)
  {
    StripAppend(a + w, b);
    StripAppend(a, w);
  }

  function Pow10(k: nat): (p: nat)
    ensures p >= 1 && (k >= 1 ==> p >= 10)
  {
    if k == 0 then 1 else 10 * Pow10(k - 1)
  }

  /** A number has at most k decimal digits exactly when it is below 10^k. */
  lemma {:induction false} DecimalLength(n: nat, k: nat)
    requires k >= 1
    ensures |NatToDecimal(n)| <= k <==> n < Pow10(k)
  {
    if n >= 10 && k >= 2 {
      DecimalLength(n / 10, k - 1);
    }
  }

  /** A token sent as a JSON number passes the check exactly when it has six
      digits without a leading zero. */
  lemma NumericToken(n: SafeInteger)
    ensures IsSixDigits(CleanToken(JNum(n))) <==> 100000 <= n <= 999999
  {
    var s := ToJsString(JNum(n));
    if n >= 0 {
      StripKeeps(s);
      DecimalLength(n, 6);
      DecimalLength(n, 5);
      assert Pow10(5) == 100000 && Pow10(6) == 1000000;
    } else {
      assert s[0] == '-';
      assert !IsJsWhitespace(s[0]);
      assert StripWhitespace(s)[0] == '-';
    }
  }

  // ---------------------------------------------------------------------
  // The handler

  datatype Response = Response(status: nat, message: string, verified: bool)

  const Required: string := "Token e secret são obrigatórios."
  const BadToken: string := "Token deve conter exatamente 6 dígitos."
  const Verified: string := "Código verificado com sucesso!"
  const Invalid: string := "Código inválido ou expirado."
  const InternalError: string := "Erro interno do servidor."

  /** The handler. `verified` is reported only together with status 200 and
      the success message, and a 500 never claims success. */
  function Post(body: Body, verify: Verifier): (r: Response)
    ensures r.verified <==> r.message == Verified
    ensures r.verified ==> r.status == 200
    ensures r.status == 500 <==> r.message == InternalError
  {
    match body
    case Unparseable => Response(500, InternalError, false)
    case NullBody => Response(500, InternalError, false)
    case Object(fields) =>
      var token, secret := Lookup(fields, "token"), Lookup(fields, "secret");
      if !Truthy(token) || !Truthy(secret) then Response(400, Required, false)
      else
        var clean := CleanToken(token.value);
        if !IsSixDigits(clean) then Response(400, BadToken, false)
        else
          match verify(VerifyOptions, clean, secret.value)
          case None => Response(500, InternalError, false)
          case Some(ok) =>
            if ok then Response(200, Verified, true) else Response(200, Invalid, false)
  }

  /** The outcomes of a request: `verified` is true only with status 200 and
      only when the authenticator accepted the cleaned token; 400 means a
      missing field or a malformed token; 500 means the body was unusable or
      the authenticator threw. */
  lemma PostOutcome(body: Body, verify: Verifier)
    ensures var r := Post(body, verify);
            && r.status in {200, 400, 500}
            && (r.status != 200 ==> !r.verified)
            && (r.status == 400 <==>
                  && body.Object?
                  && var token := Lookup(body.fields, "token");
                  && (!Truthy(token) || !Truthy(Lookup(body.fields, "secret"))
                      || !IsSixDigits(CleanToken(token.value))))
            && (r.status == 200 <==>
                  && body.Object?
                  && var token, secret := Lookup(body.fields, "token"), Lookup(body.fields, "secret");
                  && Truthy(token) && Truthy(secret)
                  && IsSixDigits(CleanToken(token.value))
                  && verify(VerifyOptions, CleanToken(token.value), secret.value).Some?)
            && (r.verified <==>
                  && body.Object?
                  && var token, secret := Lookup(body.fields, "token"), Lookup(body.fields, "secret");
                  && Truthy(token) && Truthy(secret)
                  && IsSixDigits(CleanToken(token.value))
                  && verify(VerifyOptions, CleanToken(token.value), secret.value) == Some(true))
            && r.message == (if r.status == 500 then InternalError
                             else if r.status == 200 then (if r.verified then Verified else Invalid)
                             else if !Truthy(Lookup(body.fields, "token")) || !Truthy(Lookup(body.fields, "secret")) then Required
                             else BadToken)
  {
  }

  /** The authenticator never sees a token that fails the format check: a
      request whose token is not six digits once cleaned is answered without
      consulting it. */
  lemma BadTokenNeverVerified(fields: map<string, Json>, v1: Verifier, v2: Verifier)
    requires Truthy(Lookup(fields, "token")) && Truthy(Lookup(fields, "secret"))
    requires !IsSixDigits(CleanToken(Lookup(fields, "token").value))
    ensures Post(Object(fields), v1) == Post(Object(fields), v2) == Response(400, BadToken, false)
  {
  }

  /** White space in the token does not matter: two non-empty tokens that
      clean to the same string get the same answer. */
  lemma WhitespaceIgnored(fields: map<string, Json>, verify: Verifier, t1: string, t2: string)
    requires t1 != "" && t2 != ""
    requires StripWhitespace(t1) == StripWhitespace(t2)
    ensures Post(Object(fields["token" := JStr(t1)]), verify)
            == Post(Object(fields["token" := JStr(t2)]), verify)
  {
    assert Lookup(fields["token" := JStr(t1)], "token") == Some(JStr(t1));
    assert Lookup(fields["token" := JStr(t2)], "token") == Some(JStr(t2));
    assert Lookup(fields["token" := JStr(t1)], "secret") == Lookup(fields["token" := JStr(t2)], "secret");
  }
}
