/**
 The code route: checks that a secret was sent and looks like a base32 key,
 then returns the current code, a preview of the next one, and how long the
 current code stays valid.
 */
module GenerateCode {
  import opened Js
  import opened Authenticator
  import Base32

  /** The settings assigned before generating: 30-second steps, one step of
      tolerance, six digits. */
  const CodeOptions: Options := Options(Some(30), Some(1), Some(6))

  /** The length of a time step in milliseconds. */
  const StepMs: nat := 30 * 1000

  // ---------------------------------------------------------------------
  // The format check `/^[A-Z2-7]+=*$/i`

  /** The characters `[A-Z2-7]` matches under the `i` flag. Without the `u`
      flag a character matches when its upper-case form does, except that
      no character outside ASCII is folded onto an ASCII one, so exactly the
      lower-case ASCII letters are added. */
  predicate IsSecretLetter(c: char)
  {
    'A' <= c <= 'Z' || 'a' <= c <= 'z' || '2' <= c <= '7'
  }

  /** The first `k` characters are letters and all the others are `=`. */
  predicate LettersThenPadding(s: string, k: nat)
    requires k <= |s|
  {
    && (forall i | 0 <= i < k :: IsSecretLetter(s[i]))
    && (forall i | k <= i < |s| :: s[i] == '=')
  }

  /** The strings the pattern accepts: at least one letter, then only `=`
      up to the end of the string. */
  predicate SecretFormat(s: string)
    ensures SecretFormat(s) ==> s != "" && IsSecretLetter(s[0])
    ensures SecretFormat(s) ==> forall i | 0 <= i < |s| :: IsSecretLetter(s[i]) || s[i] == '='
  {
    exists k | 1 <= k <= |s| :: LettersThenPadding(s, k)
  }

  /** A matcher for the pattern: consumes the letters, then the `=` signs,
      and accepts when it has reached the end after at least one letter. */
  method MatchSecretFormat(s: string) returns (ok: bool)
    ensures ok <==> SecretFormat(s)
  {
    var i := 0;
    while i < |s| && IsSecretLetter(s[i])
      invariant i <= |s|
      invariant forall j | 0 <= j < i :: IsSecretLetter(s[j])
    {
      i := i + 1;
    }
    var letters := i;
    while i < |s| && s[i] == '='
      invariant letters <= i <= |s|
      invariant forall j | letters <= j < i :: s[j] == '='
    {
      i := i + 1;
    }
    if letters == 0 {
      ok := false;
      NoLeadingLetter(s);
    } else if i == |s| {
      ok := true;
      assert LettersThenPadding(s, letters);
    } else {
      ok := false;
      if i == letters {
        Misplaced(s, i, i);
      } else {
        Misplaced(s, letters, i);
      }
    }
  }

  /** A string that does not start with a letter is refused, the empty
      string included. */
  lemma NoLeadingLetter(s: string)
    requires s == "" || !IsSecretLetter(s[0])
    ensures !SecretFormat(s)
  {
    forall k | 1 <= k <= |s|
      ensures !LettersThenPadding(s, k)
    {
      assert !IsSecretLetter(s[0]);
    }
  }

  /** A character that is not a letter, at or before a character that is not
      `=`, makes the string fail the pattern: the letters must end before
      the first and the padding must start after the second. */
  lemma Misplaced(s: string, p: nat, q: nat)
    requires p <= q < |s| && !IsSecretLetter(s[p]) && s[q] != '='
    ensures !SecretFormat(s)
  {
    forall k | 1 <= k <= |s|
      ensures !LettersThenPadding(s, k)
    {
      if p < k {
        assert !IsSecretLetter(s[p]);
      } else {
        assert s[q] != '=';
      }
    }
  }

  /** An `=` before a letter is refused. */
  lemma PaddingBeforeLetter(s: string, i: nat, j: nat)
    requires i < j < |s| && s[i] == '=' && IsSecretLetter(s[j])
    ensures !SecretFormat(s)
  {
    Misplaced(s, i, j);
  }

  /** Every key the migration importer shows passes the check: a base32
      encoding of a non-empty secret is alphabet letters followed by `=`. */
  lemma ExportedSecretsPass(data: seq<byte>)
    requires data != []
    ensures SecretFormat(Base32.Encode(data))
  {
    var n := |data|;
    var c := Base32.CharCount(n);
    Base32.CountsFit(n);
    var digits := Base32.Digits(data, c);
    var s := Base32.Encode(data);
    assert s == digits + Base32.Padding(Base32.EncodedLength(n) - c);
    forall i | 0 <= i < c
      ensures IsSecretLetter(s[i])
    {
      assert s[i] == Base32.Letter(Base32.Group(data, i));
    }
    assert LettersThenPadding(s, c);
  }

  /** The check reads the secret through `String(...)`, so a JSON `true`
      passes it as the letters "true". */
  lemma TrueLooksLikeAKey()
    ensures SecretFormat(ToJsString(JBool(true)))
  {
    assert LettersThenPadding("true", 4);
  }

  // ---------------------------------------------------------------------
  // Time steps

  /** `step - (now % step)`: the milliseconds until the next step boundary. */
  function TimeRemaining(now: nat): (ms: nat)
    ensures 0 < ms <= StepMs
    ensures now + ms == (now / StepMs + 1) * StepMs
  {
    StepMs - now % StepMs
  }

  /** No step boundary lies strictly between `now` and `now + TimeRemaining(now)`,
      so the remaining time runs to the very next boundary. */
  lemma NextBoundary(now: nat, t: nat)
    requires now < t < now + TimeRemaining(now)
    ensures t % StepMs != 0
    ensures t / StepMs == now / StepMs
  {
    var q := now / StepMs;
    assert q * StepMs <= now;
    assert t < (q + 1) * StepMs;
  }

  /** `Math.floor(timeRemaining / 1000)`: whole seconds, 30 only at the very
      start of a step and 0 in its last second. */
  function SecondsRemaining(now: nat): (s: nat)
    ensures s <= 30
    ensures s == 30 <==> now % StepMs == 0
    ensures s == 0 <==> now % StepMs >= StepMs - 999
  {
    TimeRemaining(now) / 1000
  }

  // ---------------------------------------------------------------------
  // The handler

  datatype Response =
    | Rejected(status: nat, message: string)
    | Codes(currentCode: string, nextCode: string, timeRemaining: nat, timestamp: nat, valid: bool)

  function Status(r: Response): nat
  {
    match r
    case Rejected(status, _) => status
    case Codes(_, _, _, _, _) => 200
  }

  const SecretRequired: string := "A chave secreta é obrigatória."
  const BadFormat: string := "Formato de chave inválido. Use uma chave base32 válida."
  const InvalidSecret: string := "Chave secreta inválida. Verifique se a chave está correta."
  const InternalError: string := "Erro interno do servidor."

  /** The handler with the preview code generated at instant `nextAt`.
      A body that does not parse, or is `null`, throws before any check.
      The checks come in the source's order: presence, then format, then
      generation; a success carries both codes, the whole seconds left in
      the current step, the request time, and `valid`. */
  function Respond(body: Body, now: nat, generate: Generator, nextAt: nat): (r: Response)
    ensures Status(r) in {200, 400, 500}
    ensures !body.Object? <==> r == Rejected(500, InternalError)
    ensures body.Object? && !Truthy(Lookup(body.fields, "secret")) ==> r == Rejected(400, SecretRequired)
    ensures body.Object? && Truthy(Lookup(body.fields, "secret"))
            && !SecretFormat(ToJsString(Lookup(body.fields, "secret").value))
            ==> r == Rejected(400, BadFormat)
    ensures r.Codes? <==>
              && body.Object? && Truthy(Lookup(body.fields, "secret"))
              && var secret := Lookup(body.fields, "secret").value;
              && SecretFormat(ToJsString(secret))
              && generate(CodeOptions, secret, now).Some?
              && generate(CodeOptions, secret, nextAt).Some?
    ensures body.Object? && Truthy(Lookup(body.fields, "secret"))
            && SecretFormat(ToJsString(Lookup(body.fields, "secret").value)) && !r.Codes?
            ==> r == Rejected(400, InvalidSecret)
    ensures r.Codes? ==>
              var secret := Lookup(body.fields, "secret").value;
              && r.currentCode == generate(CodeOptions, secret, now).value
              && r.nextCode == generate(CodeOptions, secret, nextAt).value
              && r.timeRemaining == SecondsRemaining(now) && r.timestamp == now && r.valid
  {
    match body
    case Unparseable => Rejected(500, InternalError)
    case NullBody => Rejected(500, InternalError)
    case Object(fields) =>
      var secret := Lookup(fields, "secret");
      if !Truthy(secret) then Rejected(400, SecretRequired)
      else if !SecretFormat(ToJsString(secret.value)) then Rejected(400, BadFormat)
      else
        match generate(CodeOptions, secret.value, now)
        case None => Rejected(400, InvalidSecret)
        case Some(current) =>
          match generate(CodeOptions, secret.value, nextAt)
          case None => Rejected(400, InvalidSecret)
          case Some(next) => Codes(current, next, SecondsRemaining(now), now, true)
  }

  /** The handler as written: `nextTime` is computed but not passed on, so
      the preview is generated at the same instant as the current code and
      is always the current code again. */
  function PostAsWritten(body: Body, now: nat, generate: Generator): (r: Response)
    ensures r.Codes? ==> r.nextCode == r.currentCode
  {
    Respond(body, now, generate, now)
  }

  /** The handler with the preview generated at `nextTime`, the start of the
      next step. */
  function Post(body: Body, now: nat, generate: Generator): Response
  {
    Respond(body, now, generate, now + TimeRemaining(now))
  }

  /** A generator that reports its time step shows the difference: at time
      0 the as-written preview repeats step 0, the corrected one shows
      step 1. */
  lemma PreviewExample()
    ensures var generate: Generator := (o: Options, s: Json, t: nat) => Some(NatToDecimal(t / StepMs));
            var body := Object(map["secret" := JStr("JBSWY3DP")]);
            && PostAsWritten(body, 0, generate).Codes?
            && PostAsWritten(body, 0, generate).nextCode == "0"
            && Post(body, 0, generate) == Codes("0", "1", 30, 0, true)
  {
    var body := Object(map["secret" := JStr("JBSWY3DP")]);
    assert Lookup(body.fields, "secret") == Some(JStr("JBSWY3DP"));
    assert LettersThenPadding("JBSWY3DP", 8);
  }

  /** The status is 500 exactly when the body is unusable, and 400 for a
      missing or malformed secret or a generation failure, checked in that
      order. A success carries both codes, the whole seconds left in the
      current step, the request time, and `valid`. */
  lemma PostOutcome(body: Body, now: nat, generate: Generator)
    ensures var r := Post(body, now, generate);
            && Status(r) in {200, 400, 500}
            && (Status(r) == 500 <==> !body.Object?)
            && (body.Object? && !Truthy(Lookup(body.fields, "secret")) ==> r == Rejected(400, SecretRequired))
            && ((body.Object? && Truthy(Lookup(body.fields, "secret"))
                 && !SecretFormat(ToJsString(Lookup(body.fields, "secret").value)))
                ==> r == Rejected(400, BadFormat))
            && ((body.Object? && Truthy(Lookup(body.fields, "secret"))
                 && SecretFormat(ToJsString(Lookup(body.fields, "secret").value)) && !r.Codes?)
                ==> r == Rejected(400, InvalidSecret))
            && (r.Codes? <==>
                  && body.Object? && Truthy(Lookup(body.fields, "secret"))
                  && var secret := Lookup(body.fields, "secret").value;
                  && SecretFormat(ToJsString(secret))
                  && generate(CodeOptions, secret, now).Some?
                  && generate(CodeOptions, secret, (now / StepMs + 1) * StepMs).Some?)
  {
  }

  /** A success shows the code of the current step and, as the preview, the
      code of the step that starts when the remaining time runs out. */
  lemma CodesOfTwoSteps(body: Body, now: nat, generate: Generator)
    requires Post(body, now, generate).Codes?
    ensures var r := Post(body, now, generate);
            var secret := Lookup(body.fields, "secret").value;
            && r.currentCode == generate(CodeOptions, secret, now).value
            && r.nextCode == generate(CodeOptions, secret, (now / StepMs + 1) * StepMs).value
            && r.timestamp == now && r.valid
            && r.timeRemaining * 1000 <= TimeRemaining(now) < (r.timeRemaining + 1) * 1000
  {
  }
}
