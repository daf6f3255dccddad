/**
 The two message decoders of the Google Authenticator migration importer:
 `decodeOtpParameter` for one account (`OtpParameters`) and
 `decodeGoogleMigrationData` for the whole export (`MigrationPayload`).

 Each decoder starts from a record of defaults and walks the fields of its
 buffer with the reader of module Wire, overwriting the field a recognised
 (number, wire type) pair names and skipping everything else. Beside each
 loop stands a declarative reference, stated over the list of fields the
 reader yields: every scalar is the value of the LAST field that carries it,
 or its default, and the accounts are the sub-messages of the field-1
 entries, in buffer order.
 */
module Migration {
  import opened Js
  import opened Wire

  /** One account. The name and issuer are kept as the bytes the buffer holds;
      turning them into text is the presenter's business. An integer field
      is `None` when its value byte lay past the end of the buffer. */
  datatype OtpParameters = OtpParameters(
    secret: seq<byte>,
    name: seq<byte>,
    issuer: seq<byte>,
    algorithm: Option<byte>,
    digits: Option<byte>,
    otpType: Option<byte>,
    counter: Option<byte>)

  /** Empty secret, name and issuer, SHA1, six digits, TOTP, counter 0. */
  const DefaultParameters: OtpParameters :=
    OtpParameters([], [], [], Some(1), Some(6), Some(2), Some(0))

  datatype MigrationPayload = MigrationPayload(
    otpParameters: seq<OtpParameters>,
    version: Option<byte>,
    batchSize: Option<byte>,
    batchIndex: Option<byte>,
    batchId: Option<byte>)

  /** No accounts, version 1, batch size 1, batch index 0, batch id 0. */
  const DefaultPayload: MigrationPayload :=
    MigrationPayload([], Some(1), Some(1), Some(0), Some(0))

  // ---------------------------------------------------------------------
  // The decoding loops

  /** What one field does to the account being decoded. */
  function ApplyOtpField(p: OtpParameters, f: RawField): OtpParameters
  {
    match f
    case Delimited(n, bytes) =>
      if n == 1 then p.(secret := bytes)
      else if n == 2 then p.(name := bytes)
      else if n == 3 then p.(issuer := bytes)
      else p
    case Varint(n, v) =>
      if n == 4 then p.(algorithm := v)
      else if n == 5 then p.(digits := v)
      else if n == 6 then p.(otpType := v)
      else if n == 7 then p.(counter := v)
      else p
  }

  /** The loop of `decodeOtpParameter` from offset `off` on. The secret,
      name and issuer it sets are slices of the buffer. */
  function DecodeOtpFrom(data: seq<byte>, off: nat, p: OtpParameters): (r: OtpParameters)
    ensures |p.secret| <= |data| ==> |r.secret| <= |data|
    ensures |p.name| <= |data| ==> |r.name| <= |data|
    ensures |p.issuer| <= |data| ==> |r.issuer| <= |data|
    decreases |data| - off
  {
    if off >= |data| then p
    else
      match Next(data, off)
      case Stop => p
      case Read(f, None) => ApplyOtpField(p, f)
      case Read(f, Some(n)) => DecodeOtpFrom(data, n, ApplyOtpField(p, f))
  }

  /** `decodeOtpParameter`. The secret, name and issuer are never longer
      than the buffer they come from. */
  function DecodeOtpParameter(data: seq<byte>): (p: OtpParameters)
    ensures |p.secret| <= |data| && |p.name| <= |data| && |p.issuer| <= |data|
  {
    DecodeOtpFrom(data, 0, DefaultParameters)
  }

  /** What one field does to the payload being decoded. */
  function ApplyPayloadField(pl: MigrationPayload, f: RawField): MigrationPayload
  {
    match f
    case Delimited(n, bytes) =>
      if n == 1 then pl.(otpParameters := pl.otpParameters + [DecodeOtpParameter(bytes)])
      else pl
    case Varint(n, v) =>
      if n == 2 then pl.(version := v)
      else if n == 3 then pl.(batchSize := v)
      else if n == 4 then pl.(batchIndex := v)
      else if n == 5 then pl.(batchId := v)
      else pl
  }

  /** The loop of `decodeGoogleMigrationData` from offset `off` on. It only
      appends accounts, at most one for every two bytes left, rounded up. */
  function DecodeMigrationFrom(data: seq<byte>, off: nat, pl: MigrationPayload): (r: MigrationPayload)
    ensures |pl.otpParameters| <= |r.otpParameters|
    ensures r.otpParameters[..|pl.otpParameters|] == pl.otpParameters
    ensures off >= |data| ==> r == pl
    ensures off < |data| ==> 2 * (|r.otpParameters| - |pl.otpParameters|) <= |data| - off + 1
    decreases |data| - off
  {
    if off >= |data| then pl
    else
      match Next(data, off)
      case Stop => pl
      case Read(f, None) => ApplyPayloadField(pl, f)
      case Read(f, Some(n)) => DecodeMigrationFrom(data, n, ApplyPayloadField(pl, f))
  }

  /** `decodeGoogleMigrationData`. An export of n bytes holds at most
      (n + 1) / 2 accounts. */
  function DecodeGoogleMigrationData(data: seq<byte>): (pl: MigrationPayload)
    ensures 2 * |pl.otpParameters| <= |data| + 1
  {
    DecodeMigrationFrom(data, 0, DefaultPayload)
  }

  // ---------------------------------------------------------------------
  // The reference: last field wins

  /** What the last field that `pick` selects carries, or `default`. */
  function Latest<T>(fs: seq<RawField>, pick: RawField -> Option<T>, default: T): T
  {
    if fs == [] then default
    else
      match pick(fs[|fs| - 1])
      case Some(v) => v
      case None => Latest(fs[..|fs| - 1], pick, default)
  }

  /** Selects the payload of a length-delimited field numbered n. */
  function PayloadOf(n: byte): RawField -> Option<seq<byte>>
  {
    (f: RawField) => if f.Delimited? && f.number == n then Some(f.payload) else None
  }

  /** Selects the value of a varint field numbered n. */
  function ValueOf(n: byte): RawField -> Option<Option<byte>>
  {
    (f: RawField) => if f.Varint? && f.number == n then Some(f.value) else None
  }

  /** `p` with every field that `fs` carries replaced by its last value there. */
  function OtpOverlay(p: OtpParameters, fs: seq<RawField>): OtpParameters
  {
    OtpParameters(
      Latest(fs, PayloadOf(1), p.secret),
      Latest(fs, PayloadOf(2), p.name),
      Latest(fs, PayloadOf(3), p.issuer),
      Latest(fs, ValueOf(4), p.algorithm),
      Latest(fs, ValueOf(5), p.digits),
      Latest(fs, ValueOf(6), p.otpType),
      Latest(fs, ValueOf(7), p.counter))
  }

  /** The payloads of the field-1 entries, in order. */
  function AccountPayloads(fs: seq<RawField>): seq<seq<byte>>
  {
    if fs == [] then []
    else
      (match PayloadOf(1)(fs[0]) case Some(b) => [b] case None => [])
      + AccountPayloads(fs[1..])
  }

  /** Decodes each account payload. */
  function DecodeAll(payloads: seq<seq<byte>>): (ps: seq<OtpParameters>)
    ensures |ps| == |payloads|
  {
    if payloads == [] then [] else [DecodeOtpParameter(payloads[0])] + DecodeAll(payloads[1..])
  }

  lemma {:induction false} DecodeAllAt(payloads: seq<seq<byte>>, i: nat)
    requires i < |payloads|
    ensures DecodeAll(payloads)[i] == DecodeOtpParameter(payloads[i])
  {
    if i > 0 {
      DecodeAllAt(payloads[1..], i - 1);
    }
  }

  function PayloadOverlay(pl: MigrationPayload, fs: seq<RawField>): MigrationPayload
  {
    MigrationPayload(
      pl.otpParameters + DecodeAll(AccountPayloads(fs)),
      Latest(fs, ValueOf(2), pl.version),
      Latest(fs, ValueOf(3), pl.batchSize),
      Latest(fs, ValueOf(4), pl.batchIndex),
      Latest(fs, ValueOf(5), pl.batchId))
  }

  // ---------------------------------------------------------------------
  // The loops agree with the reference

  lemma {:induction false} LatestCons<T>(f: RawField, rest: seq<RawField>, pick: RawField -> Option<T>, default: T)
    ensures Latest([f] + rest, pick, default) == Latest(rest, pick, Latest([f], pick, default))
    decreases |rest|
  {
    if rest != [] {
      var fs := [f] + rest;
      assert fs[|fs| - 1] == rest[|rest| - 1];
      assert fs[..|fs| - 1] == [f] + rest[..|rest| - 1];
      LatestCons(f, rest[..|rest| - 1], pick, default);
    } else {
      assert [f] + rest == [f];
    }
  }

  /** A single field overrides a default exactly when it is selected. */
  lemma LatestOne<T>(f: RawField, pick: RawField -> Option<T>, default: T)
    ensures Latest([f], pick, default) == (match pick(f) case Some(v) => v case None => default)
  {
    assert [f][..0] == [];
  }

  lemma ApplyOtpFieldIsOverlay(p: OtpParameters, f: RawField)
    ensures ApplyOtpField(p, f) == OtpOverlay(p, [f])
  {
    LatestOne(f, PayloadOf(1), p.secret);
    LatestOne(f, PayloadOf(2), p.name);
    LatestOne(f, PayloadOf(3), p.issuer);
    LatestOne(f, ValueOf(4), p.algorithm);
    LatestOne(f, ValueOf(5), p.digits);
    LatestOne(f, ValueOf(6), p.otpType);
    LatestOne(f, ValueOf(7), p.counter);
  }

  lemma OtpOverlayCons(p: OtpParameters, f: RawField, rest: seq<RawField>)
    ensures OtpOverlay(p, [f] + rest) == OtpOverlay(ApplyOtpField(p, f), rest)
  {
    ApplyOtpFieldIsOverlay(p, f);
    LatestCons(f, rest, PayloadOf(1), p.secret);
    LatestCons(f, rest, PayloadOf(2), p.name);
    LatestCons(f, rest, PayloadOf(3), p.issuer);
    LatestCons(f, rest, ValueOf(4), p.algorithm);
    LatestCons(f, rest, ValueOf(5), p.digits);
    LatestCons(f, rest, ValueOf(6), p.otpType);
    LatestCons(f, rest, ValueOf(7), p.counter);
  }

  lemma {:induction false} DecodeOtpFromIsOverlay(data: seq<byte>, off: nat, p: OtpParameters)
    ensures DecodeOtpFrom(data, off, p) == OtpOverlay(p, Fields(data, off))
    decreases |data| - off
  {
    if off < |data| {
      match Next(data, off)
      case Stop =>
      case Read(f, None) =>
        OtpOverlayCons(p, f, []);
        assert [f] + [] == [f];
      case Read(f, Some(n)) =>
        DecodeOtpFromIsOverlay(data, n, ApplyOtpField(p, f));
        OtpOverlayCons(p, f, Fields(data, n));
    }
  }

  /** `decodeOtpParameter` returns the defaults overlaid with the last value
      of every field the buffer carries. */
  lemma DecodeOtpMatchesFields(data: seq<byte>)
    ensures DecodeOtpParameter(data) == OtpOverlay(DefaultParameters, Fields(data, 0))
  {
    DecodeOtpFromIsOverlay(data, 0, DefaultParameters);
  }

  lemma AccountPayloadsOne(f: RawField)
    ensures AccountPayloads([f]) == (match PayloadOf(1)(f) case Some(b) => [b] case None => [])
  {
    assert [f][1..] == [];
  }

  lemma AccountPayloadsCons(f: RawField, rest: seq<RawField>)
    ensures AccountPayloads([f] + rest) == AccountPayloads([f]) + AccountPayloads(rest)
  {
    AccountPayloadsOne(f);
    assert ([f] + rest)[1..] == rest;
  }

  lemma ApplyPayloadFieldAccounts(pl: MigrationPayload, f: RawField)
    ensures ApplyPayloadField(pl, f).otpParameters == pl.otpParameters + DecodeAll(AccountPayloads([f]))
  {
    AccountPayloadsOne(f);
    if f.Delimited? && f.number == 1 {
      assert DecodeAll([f.payload]) == [DecodeOtpParameter(f.payload)];
    } else {
      assert pl.otpParameters + [] == pl.otpParameters;
    }
  }

  lemma ApplyPayloadFieldIsOverlay(pl: MigrationPayload, f: RawField)
    ensures ApplyPayloadField(pl, f) == PayloadOverlay(pl, [f])
  {
    ApplyPayloadFieldAccounts(pl, f);
    LatestOne(f, ValueOf(2), pl.version);
    LatestOne(f, ValueOf(3), pl.batchSize);
    LatestOne(f, ValueOf(4), pl.batchIndex);
    LatestOne(f, ValueOf(5), pl.batchId);
  }

  lemma OverlayAccountsCons(pl: MigrationPayload, f: RawField, rest: seq<RawField>)
    ensures pl.otpParameters + DecodeAll(AccountPayloads([f] + rest))
         == ApplyPayloadField(pl, f).otpParameters + DecodeAll(AccountPayloads(rest))
  {
    var a := DecodeAll(AccountPayloads([f]));
    var b := DecodeAll(AccountPayloads(rest));
    assert DecodeAll(AccountPayloads([f] + rest)) == a + b by {
      AccountPayloadsCons(f, rest);
      DecodeAllAppend(AccountPayloads([f]), AccountPayloads(rest));
    }
    assert ApplyPayloadField(pl, f).otpParameters == pl.otpParameters + a by {
      ApplyPayloadFieldAccounts(pl, f);
    }
    assert pl.otpParameters + (a + b) == (pl.otpParameters + a) + b;
  }

  lemma PayloadOverlayCons(pl: MigrationPayload, f: RawField, rest: seq<RawField>)
    ensures PayloadOverlay(pl, [f] + rest) == PayloadOverlay(ApplyPayloadField(pl, f), rest)
  {
    OverlayAccountsCons(pl, f, rest);
    ApplyPayloadFieldIsOverlay(pl, f);
    LatestCons(f, rest, ValueOf(2), pl.version);
    LatestCons(f, rest, ValueOf(3), pl.batchSize);
    LatestCons(f, rest, ValueOf(4), pl.batchIndex);
    LatestCons(f, rest, ValueOf(5), pl.batchId);
  }

  lemma {:induction false} DecodeAllAppend(a: seq<seq<byte>>, b: seq<seq<byte>>)
    ensures DecodeAll(a + b) == DecodeAll(a) + DecodeAll(b)
  {
    if a == [] {
      assert a + b == b;
    } else {
      assert (a + b)[1..] == a[1..] + b;
      DecodeAllAppend(a[1..], b);
    }
  }

  lemma {:induction false} DecodeMigrationFromIsOverlay(data: seq<byte>, off: nat, pl: MigrationPayload)
    ensures DecodeMigrationFrom(data, off, pl) == PayloadOverlay(pl, Fields(data, off))
    decreases |data| - off
  {
    if off >= |data| {
      assert pl.otpParameters + [] == pl.otpParameters;
    } else {
      match Next(data, off)
      case Stop =>
        assert pl.otpParameters + [] == pl.otpParameters;
      case Read(f, None) =>
        PayloadOverlayCons(pl, f, []);
        assert [f] + [] == [f];
        assert ApplyPayloadField(pl, f).otpParameters + [] == ApplyPayloadField(pl, f).otpParameters;
      case Read(f, Some(n)) =>
        DecodeMigrationFromIsOverlay(data, n, ApplyPayloadField(pl, f));
        PayloadOverlayCons(pl, f, Fields(data, n));
    }
  }

  /** `decodeGoogleMigrationData` returns one account per field-1 entry, in
      buffer order, and the last value of every metadata field, or its
      default. */
  lemma DecodeMigrationMatchesFields(data: seq<byte>)
    ensures DecodeGoogleMigrationData(data) == PayloadOverlay(DefaultPayload, Fields(data, 0))
  {
    DecodeMigrationFromIsOverlay(data, 0, DefaultPayload);
  }

  // ---------------------------------------------------------------------
  // What "last field wins" means

  /** When no field is selected, the default stays. */
  lemma {:induction false} LatestAbsent<T>(fs: seq<RawField>, pick: RawField -> Option<T>, default: T)
    requires forall i | 0 <= i < |fs| :: pick(fs[i]).None?
    ensures Latest(fs, pick, default) == default
  {
    if fs != [] {
      assert pick(fs[|fs| - 1]).None?;
      LatestAbsent(fs[..|fs| - 1], pick, default);
    }
  }

  /** The last selected field decides, whatever came before it. */
  lemma {:induction false} LatestIsLast<T>(fs: seq<RawField>, pick: RawField -> Option<T>, default: T, i: nat)
    requires i < |fs| && pick(fs[i]).Some?
    requires forall j | i < j < |fs| :: pick(fs[j]).None?
    ensures Latest(fs, pick, default) == pick(fs[i]).value
  {
    if i < |fs| - 1 {
      assert pick(fs[|fs| - 1]).None?;
      LatestIsLast(fs[..|fs| - 1], pick, default, i);
    }
  }

  lemma OtpOverlayEmpty(p: OtpParameters)
    ensures OtpOverlay(p, []) == p
  {
  }

  lemma PayloadOverlayEmpty(pl: MigrationPayload)
    ensures PayloadOverlay(pl, []) == pl
  {
    assert pl.otpParameters + [] == pl.otpParameters;
  }

  /** Overlaying two runs of fields is overlaying one after the other. */
  lemma {:induction false} OtpOverlayAppend(p: OtpParameters, a: seq<RawField>, b: seq<RawField>)
    ensures OtpOverlay(p, a + b) == OtpOverlay(OtpOverlay(p, a), b)
    decreases |a|
  {
    if a == [] {
      assert a + b == b;
      OtpOverlayEmpty(p);
    } else {
      assert a + b == [a[0]] + (a[1..] + b);
      assert a == [a[0]] + a[1..];
      OtpOverlayCons(p, a[0], a[1..] + b);
      OtpOverlayCons(p, a[0], a[1..]);
      OtpOverlayAppend(ApplyOtpField(p, a[0]), a[1..], b);
    }
  }

  lemma {:induction false} PayloadOverlayAppend(pl: MigrationPayload, a: seq<RawField>, b: seq<RawField>)
    ensures PayloadOverlay(pl, a + b) == PayloadOverlay(PayloadOverlay(pl, a), b)
    decreases |a|
  {
    if a == [] {
      assert a + b == b;
      PayloadOverlayEmpty(pl);
    } else {
      assert a + b == [a[0]] + (a[1..] + b);
      assert a == [a[0]] + a[1..];
      PayloadOverlayCons(pl, a[0], a[1..] + b);
      PayloadOverlayCons(pl, a[0], a[1..]);
      PayloadOverlayAppend(ApplyPayloadField(pl, a[0]), a[1..], b);
    }
  }

  // ---------------------------------------------------------------------
  // Decoding a buffer that starts with well-formed fields

  /** Decoding an account whose buffer starts with the encoding of `fs`. */
  lemma DecodeOtpAfter(fs: seq<RawField>, d: seq<byte>)
    requires AllEncodable(fs)
    ensures DecodeOtpParameter(EncodeFields(fs) + d)
         == OtpOverlay(OtpOverlay(DefaultParameters, fs), Fields(d, 0))
  {
    DecodeOtpMatchesFields(EncodeFields(fs) + d);
    FieldsOfEncoding(fs, d);
    OtpOverlayAppend(DefaultParameters, fs, Fields(d, 0));
  }

  /** Decoding an export whose buffer starts with the encoding of `fs`. */
  lemma DecodeMigrationAfter(fs: seq<RawField>, d: seq<byte>)
    requires AllEncodable(fs)
    ensures DecodeGoogleMigrationData(EncodeFields(fs) + d)
         == PayloadOverlay(PayloadOverlay(DefaultPayload, fs), Fields(d, 0))
  {
    DecodeMigrationMatchesFields(EncodeFields(fs) + d);
    FieldsOfEncoding(fs, d);
    PayloadOverlayAppend(DefaultPayload, fs, Fields(d, 0));
  }

  /** A field the account decoder does not know. */
  predicate UnknownOtpField(f: RawField)
  {
    match f
    case Delimited(n, _) => n != 1 && n != 2 && n != 3
    case Varint(n, _) => n != 4 && n != 5 && n != 6 && n != 7
  }

  /** A field the export decoder does not know. */
  predicate UnknownPayloadField(f: RawField)
  {
    match f
    case Delimited(n, _) => n != 1
    case Varint(n, _) => n != 2 && n != 3 && n != 4 && n != 5
  }

  lemma SkipOtpField(p: OtpParameters, u: RawField, rest: seq<RawField>)
    requires UnknownOtpField(u)
    ensures OtpOverlay(p, [u] + rest) == OtpOverlay(p, rest)
  {
    OtpOverlayCons(p, u, rest);
  }

  lemma SkipPayloadField(pl: MigrationPayload, u: RawField, rest: seq<RawField>)
    requires UnknownPayloadField(u)
    ensures PayloadOverlay(pl, [u] + rest) == PayloadOverlay(pl, rest)
  {
    PayloadOverlayCons(pl, u, rest);
  }

  // ---------------------------------------------------------------------
  // Properties of decodeOtpParameter

  /** An unknown varint field is skipped: inserting one changes nothing. */
  lemma OtpSkipsUnknownVarint(fs: seq<RawField>, key: byte, v: byte, rest: seq<byte>)
    requires AllEncodable(fs)
    requires WireType(key) == 0 && UnknownOtpField(Varint(FieldNumber(key), Some(v)))
    ensures DecodeOtpParameter(EncodeFields(fs) + [key, v] + rest)
         == DecodeOtpParameter(EncodeFields(fs) + rest)
  {
    var q := OtpOverlay(DefaultParameters, fs);
    AppendAssoc(EncodeFields(fs), [key, v], rest);
    DecodeOtpAfter(fs, [key, v] + rest);
    DecodeOtpAfter(fs, rest);
    FieldsOfVarintBytes(key, v, rest);
    SkipOtpField(q, Varint(FieldNumber(key), Some(v)), Fields(rest, 0));
  }

  /** An unknown length-delimited field is skipped over its full length. */
  lemma OtpSkipsUnknownDelimited(fs: seq<RawField>, key: byte, body: seq<byte>, rest: seq<byte>)
    requires AllEncodable(fs) && |body| < 256
    requires WireType(key) == 2 && UnknownOtpField(Delimited(FieldNumber(key), body))
    ensures DecodeOtpParameter(EncodeFields(fs) + [key, |body| as bv8] + body + rest)
         == DecodeOtpParameter(EncodeFields(fs) + rest)
  {
    var q := OtpOverlay(DefaultParameters, fs);
    var skipped := [key, |body| as bv8] + body + rest;
    AppendAssoc(EncodeFields(fs), [key, |body| as bv8], body);
    AppendAssoc(EncodeFields(fs), [key, |body| as bv8] + body, rest);
    DecodeOtpAfter(fs, skipped);
    DecodeOtpAfter(fs, rest);
    FieldsOfDelimitedBytes(key, body, rest);
    SkipOtpField(q, Delimited(FieldNumber(key), body), Fields(rest, 0));
  }

  /** A key of an unknown wire type ends the account: what follows is ignored. */
  lemma OtpStopsAtUnknownWireType(fs: seq<RawField>, key: byte, rest: seq<byte>)
    requires AllEncodable(fs)
    requires WireType(key) != 0 && WireType(key) != 2
    ensures DecodeOtpParameter(EncodeFields(fs) + [key] + rest) == DecodeOtpParameter(EncodeFields(fs))
  {
    AppendAssoc(EncodeFields(fs), [key], rest);
    assert EncodeFields(fs) == EncodeFields(fs) + [];
    DecodeOtpAfter(fs, [key] + rest);
    DecodeOtpAfter(fs, []);
    FieldsOfUnknownWireType(key, rest);
  }

  /** A varint key in the last byte sets its field to `undefined`. */
  lemma OtpTrailingVarintKey(fs: seq<RawField>, n: byte)
    requires AllEncodable(fs) && 4 <= n <= 7
    ensures var before := DecodeOtpParameter(EncodeFields(fs));
            var after := DecodeOtpParameter(EncodeFields(fs) + [Key(n, 0)]);
            && (n == 4 ==> after == before.(algorithm := None))
            && (n == 5 ==> after == before.(digits := None))
            && (n == 6 ==> after == before.(otpType := None))
            && (n == 7 ==> after == before.(counter := None))
  {
    var q := OtpOverlay(DefaultParameters, fs);
    assert EncodeFields(fs) == EncodeFields(fs) + [];
    DecodeOtpAfter(fs, [Key(n, 0)]);
    DecodeOtpAfter(fs, []);
    FieldsOfTrailingKey(Key(n, 0));
    OtpOverlayCons(q, Varint(n, None), []);
    assert [Varint(n, None)] + [] == [Varint(n, None)];
  }

  /** A payload whose declared length overruns the buffer takes what is left
      and ends the account. */
  lemma OtpOverrunningPayload(fs: seq<RawField>, n: byte, len: byte, tail: seq<byte>)
    requires AllEncodable(fs) && 1 <= n <= 3 && |tail| < len as int
    ensures var before := DecodeOtpParameter(EncodeFields(fs));
            var after := DecodeOtpParameter(EncodeFields(fs) + [Key(n, 2), len] + tail);
            && (n == 1 ==> after == before.(secret := tail))
            && (n == 2 ==> after == before.(name := tail))
            && (n == 3 ==> after == before.(issuer := tail))
  {
    var q := OtpOverlay(DefaultParameters, fs);
    assert EncodeFields(fs) + [Key(n, 2), len] + tail == EncodeFields(fs) + ([Key(n, 2), len] + tail);
    assert EncodeFields(fs) == EncodeFields(fs) + [];
    DecodeOtpAfter(fs, [Key(n, 2), len] + tail);
    DecodeOtpAfter(fs, []);
    FieldsOfOverrun(Key(n, 2), len, tail);
    OtpOverlayCons(q, Delimited(n, tail), []);
    assert [Delimited(n, tail)] + [] == [Delimited(n, tail)];
  }

  // ---------------------------------------------------------------------
  // Properties of decodeGoogleMigrationData

  /** An unknown varint field is skipped: inserting one changes nothing. */
  lemma MigrationSkipsUnknownVarint(fs: seq<RawField>, key: byte, v: byte, rest: seq<byte>)
    requires AllEncodable(fs)
    requires WireType(key) == 0 && UnknownPayloadField(Varint(FieldNumber(key), Some(v)))
    ensures DecodeGoogleMigrationData(EncodeFields(fs) + [key, v] + rest)
         == DecodeGoogleMigrationData(EncodeFields(fs) + rest)
  {
    var q := PayloadOverlay(DefaultPayload, fs);
    AppendAssoc(EncodeFields(fs), [key, v], rest);
    DecodeMigrationAfter(fs, [key, v] + rest);
    DecodeMigrationAfter(fs, rest);
    FieldsOfVarintBytes(key, v, rest);
    SkipPayloadField(q, Varint(FieldNumber(key), Some(v)), Fields(rest, 0));
  }

  /** An unknown length-delimited field is skipped over its full length. */
  lemma MigrationSkipsUnknownDelimited(fs: seq<RawField>, key: byte, body: seq<byte>, rest: seq<byte>)
    requires AllEncodable(fs) && |body| < 256
    requires WireType(key) == 2 && UnknownPayloadField(Delimited(FieldNumber(key), body))
    ensures DecodeGoogleMigrationData(EncodeFields(fs) + [key, |body| as bv8] + body + rest)
         == DecodeGoogleMigrationData(EncodeFields(fs) + rest)
  {
    var q := PayloadOverlay(DefaultPayload, fs);
    var skipped := [key, |body| as bv8] + body + rest;
    AppendAssoc(EncodeFields(fs), [key, |body| as bv8], body);
    AppendAssoc(EncodeFields(fs), [key, |body| as bv8] + body, rest);
    DecodeMigrationAfter(fs, skipped);
    DecodeMigrationAfter(fs, rest);
    FieldsOfDelimitedBytes(key, body, rest);
    SkipPayloadField(q, Delimited(FieldNumber(key), body), Fields(rest, 0));
  }

  /** A key of an unknown wire type ends the export: what follows is ignored. */
  lemma MigrationStopsAtUnknownWireType(fs: seq<RawField>, key: byte, rest: seq<byte>)
    requires AllEncodable(fs)
    requires WireType(key) != 0 && WireType(key) != 2
    ensures DecodeGoogleMigrationData(EncodeFields(fs) + [key] + rest)
         == DecodeGoogleMigrationData(EncodeFields(fs))
  {
    AppendAssoc(EncodeFields(fs), [key], rest);
    assert EncodeFields(fs) == EncodeFields(fs) + [];
    DecodeMigrationAfter(fs, [key] + rest);
    DecodeMigrationAfter(fs, []);
    FieldsOfUnknownWireType(key, rest);
  }

  /** An account key in the last byte adds one account with every default. */
  lemma MigrationTrailingAccountKey(fs: seq<RawField>)
    requires AllEncodable(fs)
    ensures var before := DecodeGoogleMigrationData(EncodeFields(fs));
            DecodeGoogleMigrationData(EncodeFields(fs) + [0x0A])
              == before.(otpParameters := before.otpParameters + [DefaultParameters])
  {
    var q := PayloadOverlay(DefaultPayload, fs);
    assert Key(1, 2) == 0x0A;
    assert EncodeFields(fs) == EncodeFields(fs) + [];
    DecodeMigrationAfter(fs, [0x0A]);
    DecodeMigrationAfter(fs, []);
    FieldsOfTrailingKey(0x0A);
    PayloadOverlayCons(q, Delimited(1, []), []);
    assert [Delimited(1, [])] + [] == [Delimited(1, [])];
    assert DecodeOtpParameter([]) == DefaultParameters;
  }

  /** A metadata varint key in the last byte sets that field to `undefined`. */
  lemma MigrationTrailingVarintKey(fs: seq<RawField>, n: byte)
    requires AllEncodable(fs) && 2 <= n <= 5
    ensures var before := DecodeGoogleMigrationData(EncodeFields(fs));
            var after := DecodeGoogleMigrationData(EncodeFields(fs) + [Key(n, 0)]);
            && (n == 2 ==> after == before.(version := None))
            && (n == 3 ==> after == before.(batchSize := None))
            && (n == 4 ==> after == before.(batchIndex := None))
            && (n == 5 ==> after == before.(batchId := None))
  {
    var q := PayloadOverlay(DefaultPayload, fs);
    assert EncodeFields(fs) == EncodeFields(fs) + [];
    DecodeMigrationAfter(fs, [Key(n, 0)]);
    DecodeMigrationAfter(fs, []);
    FieldsOfTrailingKey(Key(n, 0));
    PayloadOverlayCons(q, Varint(n, None), []);
    assert [Varint(n, None)] + [] == [Varint(n, None)];
  }

  /** An account whose declared length overruns the buffer is decoded from
      whatever is left, and it is the last account. */
  lemma MigrationOverrunningAccount(fs: seq<RawField>, len: byte, tail: seq<byte>)
    requires AllEncodable(fs) && |tail| < len as int
    ensures var before := DecodeGoogleMigrationData(EncodeFields(fs));
            DecodeGoogleMigrationData(EncodeFields(fs) + [0x0A, len] + tail)
              == before.(otpParameters := before.otpParameters + [DecodeOtpParameter(tail)])
  {
    var q := PayloadOverlay(DefaultPayload, fs);
    assert Key(1, 2) == 0x0A;
    assert EncodeFields(fs) + [0x0A, len] + tail == EncodeFields(fs) + ([0x0A, len] + tail);
    assert EncodeFields(fs) == EncodeFields(fs) + [];
    DecodeMigrationAfter(fs, [0x0A, len] + tail);
    DecodeMigrationAfter(fs, []);
    FieldsOfOverrun(0x0A, len, tail);
    PayloadOverlayCons(q, Delimited(1, tail), []);
    assert [Delimited(1, tail)] + [] == [Delimited(1, tail)];
  }

  // ---------------------------------------------------------------------
  // Absent fields keep their defaults

  /** No field of `fs` is selected by `pick`. */
  predicate Absent<T>(fs: seq<RawField>, pick: RawField -> Option<T>)
  {
    forall i | 0 <= i < |fs| :: pick(fs[i]).None?
  }

  /** Every field an account buffer does not carry keeps its default. */
  lemma OtpDefaultsWhenAbsent(data: seq<byte>)
    ensures var fs := Fields(data, 0);
            var p := DecodeOtpParameter(data);
            && (Absent(fs, PayloadOf(1)) ==> p.secret == [])
            && (Absent(fs, PayloadOf(2)) ==> p.name == [])
            && (Absent(fs, PayloadOf(3)) ==> p.issuer == [])
            && (Absent(fs, ValueOf(4)) ==> p.algorithm == Some(1))
            && (Absent(fs, ValueOf(5)) ==> p.digits == Some(6))
            && (Absent(fs, ValueOf(6)) ==> p.otpType == Some(2))
            && (Absent(fs, ValueOf(7)) ==> p.counter == Some(0))
  {
    var fs := Fields(data, 0);
    DecodeOtpMatchesFields(data);
    if Absent(fs, PayloadOf(1)) { LatestAbsent(fs, PayloadOf(1), DefaultParameters.secret); }
    if Absent(fs, PayloadOf(2)) { LatestAbsent(fs, PayloadOf(2), DefaultParameters.name); }
    if Absent(fs, PayloadOf(3)) { LatestAbsent(fs, PayloadOf(3), DefaultParameters.issuer); }
    if Absent(fs, ValueOf(4)) { LatestAbsent(fs, ValueOf(4), DefaultParameters.algorithm); }
    if Absent(fs, ValueOf(5)) { LatestAbsent(fs, ValueOf(5), DefaultParameters.digits); }
    if Absent(fs, ValueOf(6)) { LatestAbsent(fs, ValueOf(6), DefaultParameters.otpType); }
    if Absent(fs, ValueOf(7)) { LatestAbsent(fs, ValueOf(7), DefaultParameters.counter); }
  }

  /** Every metadata field an export does not carry keeps its default, and an
      export with no field-1 entry has no accounts. */
  lemma MigrationDefaultsWhenAbsent(data: seq<byte>)
    ensures var fs := Fields(data, 0);
            var pl := DecodeGoogleMigrationData(data);
            && (Absent(fs, PayloadOf(1)) ==> pl.otpParameters == [])
            && (Absent(fs, ValueOf(2)) ==> pl.version == Some(1))
            && (Absent(fs, ValueOf(3)) ==> pl.batchSize == Some(1))
            && (Absent(fs, ValueOf(4)) ==> pl.batchIndex == Some(0))
            && (Absent(fs, ValueOf(5)) ==> pl.batchId == Some(0))
  {
    var fs := Fields(data, 0);
    DecodeMigrationMatchesFields(data);
    if Absent(fs, PayloadOf(1)) { NoAccountPayloads(fs); }
    if Absent(fs, ValueOf(2)) { LatestAbsent(fs, ValueOf(2), DefaultPayload.version); }
    if Absent(fs, ValueOf(3)) { LatestAbsent(fs, ValueOf(3), DefaultPayload.batchSize); }
    if Absent(fs, ValueOf(4)) { LatestAbsent(fs, ValueOf(4), DefaultPayload.batchIndex); }
    if Absent(fs, ValueOf(5)) { LatestAbsent(fs, ValueOf(5), DefaultPayload.batchId); }
  }

  lemma {:induction false} NoAccountPayloads(fs: seq<RawField>)
    requires Absent(fs, PayloadOf(1))
    ensures AccountPayloads(fs) == []
  {
    if fs != [] {
      assert PayloadOf(1)(fs[0]).None?;
      NoAccountPayloads(fs[1..]);
    }
  }

  // ---------------------------------------------------------------------
  // Encoding: the writer whose output the decoders read back

  /** An account the single-byte format can express: every integer present and
      every string shorter than 256 bytes. */
  predicate OtpEncodable(p: OtpParameters)
  {
    && |p.secret| < 256 && |p.name| < 256 && |p.issuer| < 256
    && p.algorithm.Some? && p.digits.Some? && p.otpType.Some? && p.counter.Some?
  }

  /** The fields of an account, in field-number order. */
  function OtpFields(p: OtpParameters): seq<RawField>
  {
    [ Delimited(1, p.secret), Delimited(2, p.name), Delimited(3, p.issuer),
      Varint(4, p.algorithm), Varint(5, p.digits), Varint(6, p.otpType), Varint(7, p.counter) ]
  }

  function EncodeOtpParameters(p: OtpParameters): (b: seq<byte>)
    requires OtpEncodable(p)
  {
    EncodeFields(OtpFields(p))
  }

  lemma OtpOverlayOfFields(p: OtpParameters, d: OtpParameters)
    ensures OtpOverlay(d, OtpFields(p)) == p
  {
    var fs := OtpFields(p);
    LatestIsLast(fs, PayloadOf(1), d.secret, 0);
    LatestIsLast(fs, PayloadOf(2), d.name, 1);
    LatestIsLast(fs, PayloadOf(3), d.issuer, 2);
    LatestIsLast(fs, ValueOf(4), d.algorithm, 3);
    LatestIsLast(fs, ValueOf(5), d.digits, 4);
    LatestIsLast(fs, ValueOf(6), d.otpType, 5);
    LatestIsLast(fs, ValueOf(7), d.counter, 6);
  }

  /** Decoding an encoded account gives it back. */
  lemma OtpRoundTrip(p: OtpParameters)
    requires OtpEncodable(p)
    ensures DecodeOtpParameter(EncodeOtpParameters(p)) == p
  {
    FieldsRoundTrip(OtpFields(p));
    DecodeOtpMatchesFields(EncodeOtpParameters(p));
    OtpOverlayOfFields(p, DefaultParameters);
  }

  /** An export the single-byte format can express: every metadata field
      present and every account encodable in fewer than 256 bytes. */
  predicate PayloadEncodable(pl: MigrationPayload)
  {
    && pl.version.Some? && pl.batchSize.Some? && pl.batchIndex.Some? && pl.batchId.Some?
    && forall i | 0 <= i < |pl.otpParameters| ::
         OtpEncodable(pl.otpParameters[i]) && |EncodeOtpParameters(pl.otpParameters[i])| < 256
  }

  /** One field-1 entry per account, in order. */
  function AccountFields(accounts: seq<OtpParameters>): (fs: seq<RawField>)
    requires forall i | 0 <= i < |accounts| ::
               OtpEncodable(accounts[i]) && |EncodeOtpParameters(accounts[i])| < 256
    ensures AllEncodable(fs)
    ensures forall i | 0 <= i < |fs| :: fs[i].Delimited? && fs[i].number == 1
  {
    if accounts == [] then []
    else [Delimited(1, EncodeOtpParameters(accounts[0]))] + AccountFields(accounts[1..])
  }

  function MetadataFields(pl: MigrationPayload): seq<RawField>
  {
    [Varint(2, pl.version), Varint(3, pl.batchSize), Varint(4, pl.batchIndex), Varint(5, pl.batchId)]
  }

  function EncodeMigrationPayload(pl: MigrationPayload): seq<byte>
    requires PayloadEncodable(pl)
  {
    EncodeFields(AccountFields(pl.otpParameters)) + EncodeFields(MetadataFields(pl))
  }

  lemma {:induction false} AccountsRoundTrip(accounts: seq<OtpParameters>)
    requires forall i | 0 <= i < |accounts| ::
               OtpEncodable(accounts[i]) && |EncodeOtpParameters(accounts[i])| < 256
    ensures DecodeAll(AccountPayloads(AccountFields(accounts))) == accounts
  {
    if accounts != [] {
      var fs := AccountFields(accounts);
      assert fs[1..] == AccountFields(accounts[1..]);
      AccountsRoundTrip(accounts[1..]);
      var e := EncodeOtpParameters(accounts[0]);
      OtpRoundTrip(accounts[0]);
      var rest := AccountPayloads(fs[1..]);
      assert AccountPayloads(fs) == [e] + rest;
      DecodeAllAppend([e], rest);
      assert DecodeAll([e]) == [accounts[0]];
      assert accounts == [accounts[0]] + accounts[1..];
    }
  }

  lemma AccountsOverlay(accounts: seq<OtpParameters>)
    requires forall i | 0 <= i < |accounts| ::
               OtpEncodable(accounts[i]) && |EncodeOtpParameters(accounts[i])| < 256
    ensures PayloadOverlay(DefaultPayload, AccountFields(accounts)) == DefaultPayload.(otpParameters := accounts)
  {
    var fs := AccountFields(accounts);
    AccountsRoundTrip(accounts);
    assert [] + accounts == accounts;
    LatestAbsent(fs, ValueOf(2), DefaultPayload.version);
    LatestAbsent(fs, ValueOf(3), DefaultPayload.batchSize);
    LatestAbsent(fs, ValueOf(4), DefaultPayload.batchIndex);
    LatestAbsent(fs, ValueOf(5), DefaultPayload.batchId);
  }

  lemma MetadataOverlay(q: MigrationPayload, pl: MigrationPayload)
    ensures PayloadOverlay(q, MetadataFields(pl))
         == MigrationPayload(q.otpParameters, pl.version, pl.batchSize, pl.batchIndex, pl.batchId)
  {
    var fs := MetadataFields(pl);
    NoAccountPayloads(fs);
    assert q.otpParameters + [] == q.otpParameters;
    LatestIsLast(fs, ValueOf(2), q.version, 0);
    LatestIsLast(fs, ValueOf(3), q.batchSize, 1);
    LatestIsLast(fs, ValueOf(4), q.batchIndex, 2);
    LatestIsLast(fs, ValueOf(5), q.batchId, 3);
  }

  /** Decoding an encoded export gives it back: every account, in order, and
      every metadata field. */
  lemma MigrationRoundTrip(pl: MigrationPayload)
    requires PayloadEncodable(pl)
    ensures DecodeGoogleMigrationData(EncodeMigrationPayload(pl)) == pl
  {
    var afs := AccountFields(pl.otpParameters);
    var mfs := MetadataFields(pl);
    DecodeMigrationAfter(afs, EncodeFields(mfs));
    FieldsRoundTrip(mfs);
    AccountsOverlay(pl.otpParameters);
    MetadataOverlay(DefaultPayload.(otpParameters := pl.otpParameters), pl);
  }
}
