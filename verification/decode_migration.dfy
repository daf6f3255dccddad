/**
 The `POST` handler of the migration importer: the URL gate that cuts the
 `data=` segment out of an `otpauth-migration://offline?data=` link, the
 decoding pipeline, and the presenter that turns each decoded account into
 what the page shows: display names with defaults, the Base32 secret, the
 names of the algorithm and type, and an `otpauth://` URI.

 `decodeURIComponent`, `atob`, `TextDecoder` and `encodeURIComponent` are
 parameters (`Codecs`): the model says where their results go, not what
 they compute.
 */
module DecodeMigration {
  import opened Js
  import Base32
  import opened Migration

  // ---------------------------------------------------------------------
  // Presenter

  /** One account of the response. `digits` is `None` when the decoded value
      was `undefined`, which the JSON response then omits. */
  datatype Account = Account(
    name: string,
    issuer: string,
    secret: string,
    otpauthUri: string,
    algorithm: string,
    digits: Option<byte>,
    otpType: string)

  const NoName: string := "Conta sem nome"
  const NoIssuer: string := "Provedor desconhecido"

  /** The text of a name or issuer. The decoder's own default is the empty
      string; a decoded buffer is text as `TextDecoder` makes it. */
  function Text(bytes: seq<byte>, utf8: seq<byte> -> string): string
  {
    if bytes == [] then "" else utf8(bytes)
  }

  /** `text || fallback` on strings. */
  function OrDefault(text: string, fallback: string): (r: string)
    requires fallback != ""
    ensures r != ""
    ensures r == text || (text == "" && r == fallback)
  {
    if text == "" then fallback else text
  }

  function AlgorithmName(algorithm: Option<byte>): string
  {
    if algorithm == Some(1) then "SHA1"
    else if algorithm == Some(2) then "SHA256"
    else "SHA512"
  }

  function TypeName(otpType: Option<byte>): string
  {
    if otpType == Some(1) then "HOTP" else "TOTP"
  }

  /** `${digits}` in a template literal. */
  function DigitsText(digits: Option<byte>): string
  {
    match digits
    case None => "undefined"
    case Some(d) => NatToDecimal(d as int)
  }

  /** The `otpauth://` URI of an account. The algorithm and period are fixed
      text, whatever the account says. */
  function OtpauthUri(issuer: string, name: string, secret: string, digits: Option<byte>,
                      uriEncode: string -> string): (uri: string)
    ensures |uri| > 25
    ensures uri[..15] == "otpauth://totp/"
    ensures uri[|uri| - 10..] == "&period=30"
  {
    "otpauth://totp/" + uriEncode(issuer) + ":" + uriEncode(name)
    + "?secret=" + secret + "&issuer=" + uriEncode(issuer)
    + "&algorithm=SHA1&digits=" + DigitsText(digits) + "&period=30"
  }

  function Present(p: OtpParameters, utf8: seq<byte> -> string, uriEncode: string -> string): (a: Account)
    ensures a.name != "" && a.issuer != ""
    ensures Text(p.name, utf8) != "" ==> a.name == Text(p.name, utf8)
    ensures Text(p.issuer, utf8) != "" ==> a.issuer == Text(p.issuer, utf8)
    ensures Text(p.name, utf8) == "" ==> a.name == NoName
    ensures Text(p.issuer, utf8) == "" ==> a.issuer == NoIssuer
    ensures a.secret == Base32.Encode(p.secret) && |a.secret| % 8 == 0
    ensures a.digits == p.digits
    ensures a.otpauthUri
            == "otpauth://totp/" + uriEncode(a.issuer) + ":" + uriEncode(a.name)
               + "?secret=" + a.secret + "&issuer=" + uriEncode(a.issuer)
               + "&algorithm=SHA1&digits=" + DigitsText(p.digits) + "&period=30"
  {
    var name := OrDefault(Text(p.name, utf8), NoName);
    var issuer := OrDefault(Text(p.issuer, utf8), NoIssuer);
    var secret := Base32.Encode(p.secret);
    Account(name, issuer, secret, OtpauthUri(issuer, name, secret, p.digits, uriEncode),
            AlgorithmName(p.algorithm), p.digits, TypeName(p.otpType))
  }

  /** Algorithm 1 is SHA1, 2 is SHA256, and every other value, `undefined`
      included, is SHA512; type 1 is HOTP and every other value TOTP. */
  lemma PresentEnumNames(p: OtpParameters, utf8: seq<byte> -> string, uriEncode: string -> string)
    ensures var a := Present(p, utf8, uriEncode);
            && (a.algorithm == "SHA1" <==> p.algorithm == Some(1))
            && (a.algorithm == "SHA256" <==> p.algorithm == Some(2))
            && (a.algorithm == "SHA512" <==> p.algorithm != Some(1) && p.algorithm != Some(2))
            && (a.otpType == "HOTP" <==> p.otpType == Some(1))
            && (a.otpType == "TOTP" <==> p.otpType != Some(1))
  {
  }

  /** The secret the page shows loses nothing: Base32-decoding it gives back
      the bytes of the account. */
  lemma PresentedSecretDecodes(p: OtpParameters, utf8: seq<byte> -> string, uriEncode: string -> string)
    ensures Base32.Decode(Present(p, utf8, uriEncode).secret) == p.secret
  {
    Base32.DecodeEncode(p.secret);
  }

  /** The URI does not depend on the algorithm, the type or the counter: it
      always says SHA1 and a 30-second period, even for a SHA256 or HOTP
      account. */
  lemma UriIgnoresAlgorithmTypeCounter(p: OtpParameters, q: OtpParameters,
                                       utf8: seq<byte> -> string, uriEncode: string -> string)
    requires p.secret == q.secret && p.name == q.name && p.issuer == q.issuer && p.digits == q.digits
    ensures Present(p, utf8, uriEncode).otpauthUri == Present(q, utf8, uriEncode).otpauthUri
  {
  }

  /** The digits in the URI read back as the account's digits, and are
      `undefined` only when the value was missing. */
  lemma UriDigitsReadBack(digits: Option<byte>)
    ensures digits.Some? ==> forall i | 0 <= i < |DigitsText(digits)| :: IsAsciiDigit(DigitsText(digits)[i])
    ensures digits.Some? ==> DecimalValue(DigitsText(digits)) == digits.value as int
    ensures digits.None? <==> DigitsText(digits) == "undefined"
  {
    if digits.Some? {
      DecimalRoundTrip(digits.value as int);
      assert !IsAsciiDigit(DigitsText(None)[0]);
    }
  }

  // ---------------------------------------------------------------------
  // The URL gate

  const MigrationPrefix: string := "otpauth-migration://offline?data="

  const DataMarker: string := "data="

  predicate StartsWith(s: string, prefix: string)
  {
    |prefix| <= |s| && s[..|prefix|] == prefix
  }

  predicate OccursAt(s: string, pat: string, i: nat)
  {
    i + |pat| <= |s| && s[i..i + |pat|] == pat
  }

  /** The first occurrence of `pat` in `s` at or after `from`. */
  function FindFrom(s: string, pat: string, from: nat): (r: Option<nat>)
    requires |pat| > 0
    ensures r.Some? ==> from <= r.value && OccursAt(s, pat, r.value)
    ensures r.Some? ==> forall j | from <= j < r.value :: !OccursAt(s, pat, j)
    ensures r.None? ==> forall j | from <= j :: !OccursAt(s, pat, j)
    decreases |s| - from
  {
    if from + |pat| > |s| then None
    else if OccursAt(s, pat, from) then Some(from)
    else FindFrom(s, pat, from + 1)
  }

  /** `s.split(sep)[1]`: the text after the first `sep` up to the next one or
      to the end, `undefined` when `sep` does not occur. */
  function SplitSecond(s: string, sep: string): Option<string>
    requires |sep| > 0
  {
    match FindFrom(s, sep, 0)
    case None => None
    case Some(i) =>
      match FindFrom(s, sep, i + |sep|)
      case None => Some(s[i + |sep|..])
      case Some(j) => Some(s[i + |sep|..j])
  }

  lemma PrefixHasNoEarlierMarker(url: string, j: nat)
    requires StartsWith(url, MigrationPrefix) && j < 28
    ensures !OccursAt(url, DataMarker, j)
  {
    assert url[j] == MigrationPrefix[j];
  }

  /** For a URL with the migration prefix, the data segment starts right
      after the prefix, holds no `data=`, and ends where the next `data=`
      starts or at the end of the URL. */
  lemma DataSegment(url: string)
    requires StartsWith(url, MigrationPrefix)
    ensures SplitSecond(url, DataMarker).Some?
    ensures var seg := SplitSecond(url, DataMarker).value;
            && 33 + |seg| <= |url|
            && url[33..33 + |seg|] == seg
            && (forall j | 33 <= j < 33 + |seg| :: !OccursAt(url, DataMarker, j))
            && (33 + |seg| == |url| || OccursAt(url, DataMarker, 33 + |seg|))
  {
    forall j | 0 <= j < 28
      ensures !OccursAt(url, DataMarker, j)
    {
      PrefixHasNoEarlierMarker(url, j);
    }
    assert OccursAt(url, DataMarker, 28) by {
      assert url[28..33] == MigrationPrefix[28..33];
    }
    assert FindFrom(url, DataMarker, 0) == Some(28);
    match FindFrom(url, DataMarker, 33)
    case None =>
      assert SplitSecond(url, DataMarker) == Some(url[33..]);
    case Some(j) =>
      assert SplitSecond(url, DataMarker) == Some(url[33..j]);
  }

  /** Why a request is turned away. */
  datatype Rejection = UrlRequired | InvalidPrefix | DataNotFound | ProcessingFailed

  function RejectionStatus(e: Rejection): nat
  {
    if e == ProcessingFailed then 500 else 400
  }

  function RejectionMessage(e: Rejection): string
  {
    match e
    case UrlRequired => "URL de migração é obrigatória"
    case InvalidPrefix => "URL de migração inválida. Deve começar com \"otpauth-migration://offline?data=\""
    case DataNotFound => "Dados de migração não encontrados na URL"
    case ProcessingFailed => "Erro ao processar dados de migração. Verifique se a URL está correta."
  }

  datatype Gate = Rejected(reason: Rejection) | Segment(data: string)

  /** The three checks on `migrationUrl`, in the handler's order. */
  function UrlGate(migrationUrl: Option<Json>): (g: Gate)
    ensures g.Segment? ==> g.data != ""
    ensures g.Rejected? ==> g.reason != ProcessingFailed
  {
    if !Truthy(migrationUrl) || !migrationUrl.value.JStr? then Rejected(UrlRequired)
    else
      var url := migrationUrl.value.s;
      if !StartsWith(url, MigrationPrefix) then Rejected(InvalidPrefix)
      else
        match SplitSecond(url, DataMarker)
        case None => Rejected(DataNotFound)
        case Some(seg) => if seg == "" then Rejected(DataNotFound) else Segment(seg)
  }

  /** A URL passes the gate exactly when it is a non-empty string with the
      migration prefix and a non-empty data segment, and that segment is what
      the gate passes on. */
  lemma UrlGateAccepts(migrationUrl: Option<Json>)
    ensures UrlGate(migrationUrl).Segment? <==>
              && migrationUrl.Some? && migrationUrl.value.JStr?
              && StartsWith(migrationUrl.value.s, MigrationPrefix)
              && |migrationUrl.value.s| > 33
              && !OccursAt(migrationUrl.value.s, DataMarker, 33)
    ensures UrlGate(migrationUrl).Segment? ==>
              UrlGate(migrationUrl).data == SplitSecond(migrationUrl.value.s, DataMarker).value
    ensures (migrationUrl.None? || !migrationUrl.value.JStr? || migrationUrl.value.s == "")
              ==> UrlGate(migrationUrl) == Rejected(UrlRequired)
  {
    if migrationUrl.Some? && migrationUrl.value.JStr? && StartsWith(migrationUrl.value.s, MigrationPrefix) {
      var url := migrationUrl.value.s;
      DataSegment(url);
      var seg := SplitSecond(url, DataMarker).value;
      if |url| > 33 && !OccursAt(url, DataMarker, 33) {
        assert seg != "";
      }
    }
  }

  // ---------------------------------------------------------------------
  // The handler

  /** The foreign functions the handler calls. `None` stands for a thrown
      error. */
  datatype Codecs = Codecs(
    uriDecode: string -> Option<string>,
    atob: string -> Option<seq<byte>>,
    utf8: seq<byte> -> string,
    uriEncode: string -> string)

  datatype Metadata = Metadata(
    version: Option<byte>,
    batchSize: Option<byte>,
    batchIndex: Option<byte>,
    batchId: Option<byte>)

  datatype Response =
    | Failed(reason: Rejection)
    | Decoded(accountsCount: nat, accounts: seq<Account>, metadata: Metadata)

  function Status(r: Response): nat
  {
    match r
    case Failed(e) => RejectionStatus(e)
    case Decoded(_, _, _) => 200
  }

  const SuccessMessage: string := "Migração decodificada com sucesso"

  function Message(r: Response): string
  {
    match r
    case Failed(e) => RejectionMessage(e)
    case Decoded(_, _, _) => SuccessMessage
  }

  /** The response for a decoded export. */
  function Respond(pl: MigrationPayload, c: Codecs): (r: Response)
    ensures r.Decoded? && r.accountsCount == |r.accounts| == |pl.otpParameters|
    ensures forall i | 0 <= i < |r.accounts| ::
              r.accounts[i] == Present(pl.otpParameters[i], c.utf8, c.uriEncode)
    ensures r.metadata == Metadata(pl.version, pl.batchSize, pl.batchIndex, pl.batchId)
  {
    var ps := pl.otpParameters;
    var accounts := seq(|ps|, i requires 0 <= i < |ps| => Present(ps[i], c.utf8, c.uriEncode));
    Decoded(|accounts|, accounts, Metadata(pl.version, pl.batchSize, pl.batchIndex, pl.batchId))
  }

  function Post(body: Body, c: Codecs): (r: Response)
    ensures (body.Unparseable? || body.NullBody?) ==> r == Failed(ProcessingFailed)
  {
    match body
    case Unparseable => Failed(ProcessingFailed)
    case NullBody => Failed(ProcessingFailed)
    case Object(fields) =>
      match UrlGate(Lookup(fields, "migrationUrl"))
      case Rejected(e) => Failed(e)
      case Segment(seg) =>
        match c.uriDecode(seg)
        case None => Failed(ProcessingFailed)
        case Some(base64) =>
          match c.atob(base64)
          case None => Failed(ProcessingFailed)
          case Some(bytes) => Respond(DecodeGoogleMigrationData(bytes), c)
  }

  /** The handler answers 400 exactly when the URL gate turns the request
      away, 500 when the body is not an object or a codec throws, and 200
      with the decoded export otherwise. */
  lemma PostOutcome(body: Body, c: Codecs)
    ensures Status(Post(body, c)) in {200, 400, 500}
    ensures Status(Post(body, c)) == 400 <==>
              body.Object? && UrlGate(Lookup(body.fields, "migrationUrl")).Rejected?
    ensures Status(Post(body, c)) == 200 <==>
              && body.Object?
              && var g := UrlGate(Lookup(body.fields, "migrationUrl"));
              && g.Segment?
              && c.uriDecode(g.data).Some?
              && c.atob(c.uriDecode(g.data).value).Some?
    ensures Post(body, c).Decoded? ==>
              var bytes := c.atob(c.uriDecode(UrlGate(Lookup(body.fields, "migrationUrl")).data).value).value;
              Post(body, c) == Respond(DecodeGoogleMigrationData(bytes), c)
  {
  }

  /** Importing a link whose data segment decodes to the encoding of an
      export shows exactly that export: its accounts, in order, and its
      metadata. */
  lemma ImportShowsExport(c: Codecs, segment: string, base64: string, pl: MigrationPayload)
    requires segment != "" && forall k | 0 <= k < |segment| :: !OccursAt(segment, DataMarker, k)
    requires c.uriDecode(segment) == Some(base64)
    requires PayloadEncodable(pl) && c.atob(base64) == Some(EncodeMigrationPayload(pl))
    ensures var r := Post(Object(map["migrationUrl" := JStr(MigrationPrefix + segment)]), c);
            && r.Decoded? && r.accountsCount == |pl.otpParameters|
            && (forall i | 0 <= i < |pl.otpParameters| ::
                  r.accounts[i] == Present(pl.otpParameters[i], c.utf8, c.uriEncode))
            && r.metadata == Metadata(pl.version, pl.batchSize, pl.batchIndex, pl.batchId)
  {
    var url := MigrationPrefix + segment;
    var body := Object(map["migrationUrl" := JStr(url)]);
    assert UrlGate(Lookup(body.fields, "migrationUrl")) == Segment(segment) by {
      assert Lookup(body.fields, "migrationUrl") == Some(JStr(url));
      GateOfSegment(segment);
    }
    MigrationRoundTrip(pl);
  }

  /** An account with secret "Hello" and the default algorithm, digits and
      type is shown with the Base32 secret JBSWY3DP, SHA1, six digits and
      TOTP, and with the decoded name and issuer. */
  lemma HelloAccountExample(utf8: seq<byte> -> string, uriEncode: string -> string)
    requires utf8([0x61, 0x6C, 0x69, 0x63, 0x65]) == "alice"
    requires utf8([0x45, 0x78, 0x61, 0x6D, 0x70, 0x6C, 0x65]) == "Example"
    ensures var a := Present(OtpParameters([0x48, 0x65, 0x6C, 0x6C, 0x6F], [0x61, 0x6C, 0x69, 0x63, 0x65],
                                           [0x45, 0x78, 0x61, 0x6D, 0x70, 0x6C, 0x65],
                                           Some(1), Some(6), Some(2), Some(0)), utf8, uriEncode);
            && a.name == "alice" && a.issuer == "Example"
            && a.secret == "JBSWY3DP"
            && a.algorithm == "SHA1" && a.otpType == "TOTP" && a.digits == Some(6)
  {
    Base32.HelloVector();
  }

  /** A URL made of the prefix and a segment holding no `data=` passes the
      gate with that segment. */
  lemma GateOfSegment(segment: string)
    requires segment != "" && forall k | 0 <= k < |segment| :: !OccursAt(segment, DataMarker, k)
    ensures UrlGate(Some(JStr(MigrationPrefix + segment))) == Segment(segment)
  {
    var url := MigrationPrefix + segment;
    assert StartsWith(url, MigrationPrefix) by {
      assert url[..33] == MigrationPrefix;
    }
    assert url[33..] == segment;
    NoMarkerInSegment(segment, 33);
    UrlGateAccepts(Some(JStr(url)));
    DataSegment(url);
    var seg := SplitSecond(url, DataMarker).value;
    NoMarkerInSegment(segment, 33 + |seg|);
  }

  lemma NoMarkerInSegment(segment: string, i: nat)
    requires forall k | 0 <= k < |segment| :: !OccursAt(segment, DataMarker, k)
    requires 33 <= i
    ensures !OccursAt(MigrationPrefix + segment, DataMarker, i)
  {
    var url := MigrationPrefix + segment;
    if i + 5 <= |url| {
      assert url[i..i + 5] == segment[i - 33..i - 28];
      assert !OccursAt(segment, DataMarker, i - 33);
    }
  }
}
