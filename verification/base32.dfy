/**
 Base32 as section 6 of RFC 4648 defines it, and the bit-accumulator loop
 the migration importer uses to produce it (`base32Encode`).

 The input is read as one bit stream, most significant bit of each byte
 first. Every 5-bit group of the stream selects one character of the
 32-letter alphabet; the final partial group is filled with zero bits, and
 the output is padded with `=` to a whole number of 8-character quanta.
 */
module Base32 {
  import opened Js

  const Alphabet: string := "ABCDEFGHIJKLMNOPQRSTUVWXYZ234567"

  predicate IsAlphabetChar(c: char) { 'A' <= c <= 'Z' || '2' <= c <= '7' }

  /** The character that stands for a 5-bit group. */
  function Letter(g: bv32): (c: char)
    requires g < 32
    ensures IsAlphabetChar(c) && c != '='
  {
    AlphabetChars();
    Alphabet[g as int]
  }

  /** Byte `j` of the input as a 32-bit word, zero outside the input. */
  function ByteOrZero(data: seq<byte>, j: int): (w: bv32)
    ensures w < 256
  {
    if 0 <= j < |data| then data[j] as bv32 else 0
  }

  /** Bits 8j .. 8j+15 of the zero-extended bit stream. */
  function Window(data: seq<byte>, j: int): bv32
  {
    (ByteOrZero(data, j) << 8) | ByteOrZero(data, j + 1)
  }

  /** How far a window must be shifted right to bring the five bits that
      start at bit `o` of its first byte down to the low end. */
  function GroupShift(o: int): bv32
    requires 0 <= o < 8
  {
    if o == 0 then 11 else if o == 1 then 10 else if o == 2 then 9
    else if o == 3 then 8 else if o == 4 then 7 else if o == 5 then 6
    else if o == 6 then 5 else 4
  }

  /** The k-th 5-bit group of the stream: bits 5k .. 5k+4. */
  function Group(data: seq<byte>, k: nat): (g: bv32)
    ensures g < 32
  {
    (Window(data, 5 * k / 8) >> GroupShift(5 * k % 8)) & 31
  }

  /** Number of alphabet characters for n bytes: one per started 5-bit group. */
  function CharCount(n: nat): nat { (8 * n + 4) / 5 }

  /** Output length for n bytes: eight characters per started 5-byte quantum. */
  function EncodedLength(n: nat): nat { 8 * ((n + 4) / 5) }

  /** The first `count` characters selected by the groups of the stream. */
  function Digits(data: seq<byte>, count: nat): (s: string)
    ensures |s| == count
    ensures forall i | 0 <= i < count :: s[i] == Letter(Group(data, i))
  {
    seq(count, k requires 0 <= k < count => Letter(Group(data, k)))
  }

  function Padding(count: nat): (s: string)
    ensures |s| == count
    ensures forall i | 0 <= i < count :: s[i] == '='
  {
    seq(count, _ => '=')
  }

  lemma CountsFit(n: nat)
    ensures CharCount(n) <= EncodedLength(n) < CharCount(n) + 8
    ensures n > 0 ==> CharCount(n) > EncodedLength(n) - 8
    ensures EncodedLength(n) % 8 == 0
  {
    QuantumSplit(n);
  }

  /** Both counts split into whole quanta plus the leftover bytes. */
  lemma QuantumSplit(n: nat)
    ensures CharCount(n) == 8 * (n / 5) + [0, 2, 4, 5, 7][n % 5]
    ensures EncodedLength(n) == 8 * (n / 5) + (if n % 5 == 0 then 0 else 8)
  {
    var q, r := n / 5, n % 5;
    assert 8 * n + 4 == 40 * q + (8 * r + 4);
    assert n + 4 == 5 * q + (r + 4);
  }

  lemma AlphabetChars()
    ensures forall i | 0 <= i < |Alphabet| :: IsAlphabetChar(Alphabet[i]) && Alphabet[i] != '='
  {
  }

  /** The RFC 4648 section 6 encoding of `data`. */
  function Encode(data: seq<byte>): (s: string)
    ensures |s| == EncodedLength(|data|)
    ensures |s| % 8 == 0
    ensures forall i | 0 <= i < |s| :: IsAlphabetChar(s[i]) || s[i] == '='
    ensures data == [] <==> s == ""
  {
    CountsFit(|data|);
    AlphabetChars();
    Digits(data, CharCount(|data|)) + Padding(EncodedLength(|data|) - CharCount(|data|))
  }

  /** The final quantum: 0, 6, 4, 3 or 1 `=` signs after 0, 1, 2, 3 or 4
      leftover bytes (section 6 of RFC 4648, cases (1) to (5)). */
  lemma PaddingByLeftover(data: seq<byte>)
    ensures var n := |data|;
            EncodedLength(n) - CharCount(n)
            == [0, 6, 4, 3, 1][n % 5]
  {
    QuantumSplit(|data|);
  }

  // ---------------------------------------------------------------------
  // Decoding, the inverse used to check that nothing of the secret is lost

  /** Position of a character in the alphabet. */
  function CharValue(c: char): (v: bv32)
    ensures v < 32
  {
    if 'A' <= c <= 'Z' then (c as int - 'A' as int) as bv32
    else if '2' <= c <= '7' then (c as int - '2' as int + 26) as bv32
    else 0
  }

  lemma CharValueOfAlphabet(g: bv32)
    requires g < 32
    ensures CharValue(Letter(g)) == g
  {
  }

  /** Drops the trailing `=` signs. */
  function Unpad(s: string): (u: string)
    ensures |u| <= |s| && u == s[..|u|]
  {
    if |s| > 0 && s[|s| - 1] == '=' then Unpad(s[..|s| - 1]) else s
  }

  function ValueAt(u: string, k: int): bv32
  {
    if 0 <= k < |u| then CharValue(u[k]) else 0
  }

  /** How far the 15 bits of three groups must be shifted right to bring the
      byte starting at bit `o` of the first group down to the low end. */
  function ByteShift(o: int): bv32
    requires 0 <= o < 5
  {
    if o == 0 then 7 else if o == 1 then 6 else if o == 2 then 5 else if o == 3 then 4 else 3
  }

  /** The byte that starts at bit `o` of group g0 and runs on into g1 and g2. */
  function ByteOfGroups(g0: bv32, g1: bv32, g2: bv32, o: int): bv32
    requires 0 <= o < 5
  {
    (((g0 << 10) | (g1 << 5) | g2) >> ByteShift(o)) & 0xFF
  }

  /** Byte j of the group stream: bits 8j .. 8j+7, drawn from groups k .. k+2. */
  function DecodedByte(u: string, j: nat): byte
  {
    var k := 8 * j / 5;
    ByteOfGroups(ValueAt(u, k), ValueAt(u, k + 1), ValueAt(u, k + 2), 8 * j % 5) as bv8
  }

  /** Base32 decoding of a padded string of alphabet characters. */
  function Decode(s: string): (data: seq<byte>)
  {
    var u := Unpad(s);
    seq(5 * |u| / 8, j requires 0 <= j < 5 * |u| / 8 => DecodedByte(u, j))
  }

  /** Decoding inverts encoding: every byte of the input comes back. */
  lemma {:induction false} DecodeEncode(data: seq<byte>)
    ensures Decode(Encode(data)) == data
  {
    var n := |data|;
    var c := CharCount(n);
    var d := Digits(data, c);
    AlphabetChars();
    UnpadPadding(d, EncodedLength(n) - c);
    assert Unpad(Encode(data)) == d;
    QuantumSplit(n);
    assert 5 * c / 8 == n;
    forall j | 0 <= j < n
      ensures DecodedByte(d, j) == data[j]
    {
      DecodedByteOfDigits(data, j);
    }
  }

  lemma DecodedByteOfDigits(data: seq<byte>, j: nat)
    requires j < |data|
    ensures DecodedByte(Digits(data, CharCount(|data|)), j) == data[j]
  {
    var u := Digits(data, CharCount(|data|));
    var k := 8 * j / 5;
    ValueAtDigits(data, k);
    ValueAtDigits(data, k + 1);
    ValueAtDigits(data, k + 2);
    DecodedByteOfGroups(data, u, j);
  }

  lemma DecodedByteOfGroups(data: seq<byte>, u: string, j: nat)
    requires j < |data|
    requires var k := 8 * j / 5;
             ValueAt(u, k) == Group(data, k) && ValueAt(u, k + 1) == Group(data, k + 1)
             && ValueAt(u, k + 2) == Group(data, k + 2)
    ensures DecodedByte(u, j) == data[j]
  {
    var k := 8 * j / 5;
    StreamByte(data, j);
    Narrow(ByteOfGroups(Group(data, k), Group(data, k + 1), Group(data, k + 2), 8 * j % 5), data[j]);
  }

  lemma Narrow(x: bv32, b: byte)
    requires x == b as bv32
    ensures x as bv8 == b
  {
  }

  lemma {:induction false} UnpadPadding(d: string, p: nat)
    requires forall i | 0 <= i < |d| :: d[i] != '='
    ensures Unpad(d + Padding(p)) == d
    decreases p
  {
    if p == 0 {
      assert d + Padding(0) == d;
      if |d| > 0 {
        assert d[|d| - 1] != '=';
      }
    } else {
      var s := d + Padding(p);
      assert s[|s| - 1] == '=';
      assert s[..|s| - 1] == d + Padding(p - 1);
      UnpadPadding(d, p - 1);
    }
  }

  /** The characters of the encoding carry the groups of the stream, and past
      the last character every group is zero. */
  lemma ValueAtDigits(data: seq<byte>, k: nat)
    ensures ValueAt(Digits(data, CharCount(|data|)), k) == Group(data, k)
  {
    var n := |data|;
    if k < CharCount(n) {
      CharValueOfAlphabet(Group(data, k));
    } else {
      QuantumSplit(n);
      assert 5 * k >= 8 * n;
      assert 5 * k / 8 >= n;
    }
  }

  /** Byte j of the input is bits 8j .. 8j+7 of the group stream. */
  lemma StreamByte(data: seq<byte>, j: nat)
    ensures var k := 8 * j / 5;
            ByteOfGroups(Group(data, k), Group(data, k + 1), Group(data, k + 2), 8 * j % 5)
            == ByteOrZero(data, j)
  {
    var k, o := 8 * j / 5, 8 * j % 5;
    assert 5 * k + o == 8 * j;
    if o == 0 {
      StreamByteAt0(data, j, k);
    } else if o == 1 {
      StreamByteAt1(data, j, k);
    } else if o == 2 {
      StreamByteAt2(data, j, k);
    } else if o == 3 {
      StreamByteAt3(data, j, k);
    } else {
      StreamByteAt4(data, j, k);
    }
  }

  lemma StreamByteAt0(data: seq<byte>, j: nat, k: nat)
    requires 5 * k + 0 == 8 * j
    ensures ByteOfGroups(Group(data, k), Group(data, k + 1), Group(data, k + 2), 0) == ByteOrZero(data, j)
  {
    assert 5 * k / 8 == j && 5 * k % 8 == 0;
    assert (5 * k + 5) / 8 == j && (5 * k + 5) % 8 == 5;
    assert (5 * k + 10) / 8 == j + 1 && (5 * k + 10) % 8 == 2;
    BitsOfByte(0, ByteOrZero(data, j - 1), ByteOrZero(data, j), ByteOrZero(data, j + 1), ByteOrZero(data, j + 2));
  }

  lemma StreamByteAt1(data: seq<byte>, j: nat, k: nat)
    requires 5 * k + 1 == 8 * j
    ensures ByteOfGroups(Group(data, k), Group(data, k + 1), Group(data, k + 2), 1) == ByteOrZero(data, j)
  {
    assert 5 * k / 8 == j - 1 && 5 * k % 8 == 7;
    assert (5 * k + 5) / 8 == j && (5 * k + 5) % 8 == 4;
    assert (5 * k + 10) / 8 == j + 1 && (5 * k + 10) % 8 == 1;
    BitsOfByte(1, ByteOrZero(data, j - 1), ByteOrZero(data, j), ByteOrZero(data, j + 1), ByteOrZero(data, j + 2));
  }

  lemma StreamByteAt2(data: seq<byte>, j: nat, k: nat)
    requires 5 * k + 2 == 8 * j
    ensures ByteOfGroups(Group(data, k), Group(data, k + 1), Group(data, k + 2), 2) == ByteOrZero(data, j)
  {
    assert 5 * k / 8 == j - 1 && 5 * k % 8 == 6;
    assert (5 * k + 5) / 8 == j && (5 * k + 5) % 8 == 3;
    assert (5 * k + 10) / 8 == j + 1 && (5 * k + 10) % 8 == 0;
    BitsOfByte(2, ByteOrZero(data, j - 1), ByteOrZero(data, j), ByteOrZero(data, j + 1), ByteOrZero(data, j + 2));
  }

  lemma StreamByteAt3(data: seq<byte>, j: nat, k: nat)
    requires 5 * k + 3 == 8 * j
    ensures ByteOfGroups(Group(data, k), Group(data, k + 1), Group(data, k + 2), 3) == ByteOrZero(data, j)
  {
    assert 5 * k / 8 == j - 1 && 5 * k % 8 == 5;
    assert (5 * k + 5) / 8 == j && (5 * k + 5) % 8 == 2;
    assert (5 * k + 10) / 8 == j && (5 * k + 10) % 8 == 7;
    BitsOfByte(3, ByteOrZero(data, j - 1), ByteOrZero(data, j), ByteOrZero(data, j + 1), ByteOrZero(data, j + 2));
  }

  lemma StreamByteAt4(data: seq<byte>, j: nat, k: nat)
    requires 5 * k + 4 == 8 * j
    ensures ByteOfGroups(Group(data, k), Group(data, k + 1), Group(data, k + 2), 4) == ByteOrZero(data, j)
  {
    assert 5 * k / 8 == j - 1 && 5 * k % 8 == 4;
    assert (5 * k + 5) / 8 == j && (5 * k + 5) % 8 == 1;
    assert (5 * k + 10) / 8 == j && (5 * k + 10) % 8 == 6;
    BitsOfByte(4, ByteOrZero(data, j - 1), ByteOrZero(data, j), ByteOrZero(data, j + 1), ByteOrZero(data, j + 2));
  }

  /** The bit-level identity behind StreamByte, one case per offset of the
      byte inside its first group. */
  lemma BitsOfByte(o: int, a: bv32, b: bv32, c: bv32, e: bv32)
    requires 0 <= o < 5
    requires a < 256 && b < 256 && c < 256 && e < 256
    ensures o == 0 ==>
      var w := (((((b << 8) | c) >> 11) & 31) << 10) | (((((b << 8) | c) >> 6) & 31) << 5) | ((((c << 8) | e) >> 9) & 31);
      (w >> 7) & 0xFF == b
    ensures o == 1 ==>
      var w := (((((a << 8) | b) >> 4) & 31) << 10) | (((((b << 8) | c) >> 7) & 31) << 5) | ((((c << 8) | e) >> 10) & 31);
      (w >> 6) & 0xFF == b
    ensures o == 2 ==>
      var w := (((((a << 8) | b) >> 5) & 31) << 10) | (((((b << 8) | c) >> 8) & 31) << 5) | ((((c << 8) | e) >> 11) & 31);
      (w >> 5) & 0xFF == b
    ensures o == 3 ==>
      var w := (((((a << 8) | b) >> 6) & 31) << 10) | (((((b << 8) | c) >> 9) & 31) << 5) | ((((b << 8) | c) >> 4) & 31);
      (w >> 4) & 0xFF == b
    ensures o == 4 ==>
      var w := (((((a << 8) | b) >> 7) & 31) << 10) | (((((b << 8) | c) >> 10) & 31) << 5) | ((((b << 8) | c) >> 5) & 31);
      (w >> 3) & 0xFF == b
  {
  }

  // ---------------------------------------------------------------------
  // The importer's bit-accumulator loop

  /** The number of pending bits, which never exceeds twelve: `bits as int`,
      spelled out case by case so that the invariant's arithmetic on the
      count stays linear integer arithmetic instead of a bit-vector-to-integer
      conversion, which the solver handles poorly. */
  function Pending(bits: bv32): nat
    requires bits <= 12
  {
    if bits == 0 then 0 else if bits == 1 then 1 else if bits == 2 then 2
    else if bits == 3 then 3 else if bits == 4 then 4 else if bits == 5 then 5
    else if bits == 6 then 6 else if bits == 7 then 7 else if bits == 8 then 8
    else if bits == 9 then 9 else if bits == 10 then 10 else if bits == 11 then 11 else 12
  }

  ghost predicate Accumulated(data: seq<byte>, n: nat, out: string, bits: bv32, value: bv32)
  {
    && n <= |data|
    && bits <= 12
    && 8 * n == 5 * |out| + Pending(bits)
    && out == Digits(data, |out|)
    && value & 0xFFFF == Window(data, n - 2)
  }

  /** `base32Encode`: shifts each byte into a 32-bit accumulator, emits a
      character whenever five or more bits are pending, flushes the remaining
      bits padded with zeros, and pads with `=` to a multiple of eight. The
      accumulator is a 32-bit word, as JavaScript's shift operators make it;
      the bits shifted out at the top are never read again. */
  method EncodeAccumulating(data: seq<byte>) returns (output: string)
    ensures output == Encode(data)
  {
    var bits, value;
    output, bits, value := AbsorbAll(data);
    output := FlushPending(data, output, bits, value);
    CountsFit(|data|);
    output := PadWithEquals(output);
    assert |output| == EncodedLength(|data|) by {
      OnlyMultipleInRange(|output|, CharCount(|data|), EncodedLength(|data|));
    }
  }

  /** The outer loop: absorbs every byte, emitting characters as it goes. */
  method AbsorbAll(data: seq<byte>) returns (output: string, bits: bv32, value: bv32)
    ensures bits < 5 && Accumulated(data, |data|, output, bits, value)
  {
    bits, value, output := 0, 0, "";
    var i := 0;
    while i < |data|
      invariant i <= |data|
      invariant bits < 5 && Accumulated(data, i, output, bits, value)
    {
      AbsorbStep(data, i, output, bits, value);
      value := (value << 8) | data[i] as bv32;
      bits := bits + 8;
      output, bits := EmitGroups(data, i + 1, output, bits, value);
      i := i + 1;
    }
  }

  /** Emits the bits still pending after the last byte, filled with zeros. */
  method FlushPending(data: seq<byte>, out: string, bits: bv32, value: bv32) returns (digits: string)
    requires bits < 5 && Accumulated(data, |data|, out, bits, value)
    ensures digits == Digits(data, CharCount(|data|))
  {
    digits := out;
    if bits > 0 {
      FlushStep(data, out, bits, value);
      var ch := Letter((value << (5 - bits)) & 31);
      digits := out + [ch];
    } else {
      assert 8 * |data| == 5 * |out|;
      assert CharCount(|data|) == |out|;
    }
  }

  /** The inner loop: emits one character per five pending bits. */
  method EmitGroups(data: seq<byte>, n: nat, out: string, bits: bv32, value: bv32)
    returns (out': string, bits': bv32)
    requires Accumulated(data, n, out, bits, value)
    ensures bits' < 5 && Accumulated(data, n, out', bits', value)
  {
    out', bits' := out, bits;
    while bits' >= 5
      invariant Accumulated(data, n, out', bits', value)
      decreases Pending(bits')
    {
      EmitStep(data, n, out', bits', value);
      SubtractFive(bits');
      var ch := Letter((value >> (bits' - 5)) & 31);
      out' := out' + [ch];
      bits' := bits' - 5;
    }
  }

  /** Appends `=` until the length is a multiple of eight. */
  method PadWithEquals(s: string) returns (r: string)
    ensures |r| % 8 == 0 && |s| <= |r| < |s| + 8
    ensures r == s + Padding(|r| - |s|)
  {
    r := s;
    assert r == s + Padding(0);
    while |r| % 8 != 0
      invariant |s| <= |r| <= |s| + 7 - (|s| + 7) % 8
      invariant r == s + Padding(|r| - |s|)
      decreases |s| + 8 - |r|
    {
      PaddingSnoc(s, |r| - |s|);
      r := r + "=";
    }
  }

  lemma PaddingSnoc(s: string, k: nat)
    ensures s + Padding(k) + "=" == s + Padding(k + 1)
  {
  }

  /** The only multiple of eight in (total - 8, total] is total itself. */
  lemma OnlyMultipleInRange(m: nat, count: nat, total: nat)
    requires m % 8 == 0 && total % 8 == 0
    requires count <= m <= total < count + 8
    ensures m == total
  {
  }

  /** Absorbing byte n keeps the pending bits equal to the tail of the stream. */
  lemma AbsorbStep(data: seq<byte>, n: nat, out: string, bits: bv32, value: bv32)
    requires n < |data| && bits < 5 && Accumulated(data, n, out, bits, value)
    ensures Accumulated(data, n + 1, out, bits + 8, (value << 8) | data[n] as bv32)
  {
    assert Pending(bits + 8) == Pending(bits) + 8;
    AbsorbBits(value, ByteOrZero(data, n - 2), ByteOrZero(data, n - 1), data[n] as bv32);
  }

  lemma AbsorbBits(value: bv32, a: bv32, b: bv32, c: bv32)
    requires a < 256 && b < 256 && c < 256
    requires value & 0xFFFF == (a << 8) | b
    ensures ((value << 8) | c) & 0xFFFF == (b << 8) | c
  {
  }

  /** The character emitted while five or more bits are pending is the next
      group of the stream. */
  lemma EmitStep(data: seq<byte>, n: nat, out: string, bits: bv32, value: bv32)
    requires 5 <= bits && Accumulated(data, n, out, bits, value)
    ensures (value >> (bits - 5)) & 31 == Group(data, |out|)
    ensures Accumulated(data, n, out + [Letter(Group(data, |out|))], bits - 5, value)
  {
    var e := |out|;
    EmitChar(data, n, e, bits, value);
    SubtractFive(bits);
    DigitsSnoc(data, e);
  }

  lemma SubtractFive(bits: bv32)
    requires 5 <= bits <= 12
    ensures Pending(bits - 5) == Pending(bits) - 5
  {
  }

  lemma DigitsSnoc(data: seq<byte>, e: nat)
    ensures Digits(data, e) + [Letter(Group(data, e))] == Digits(data, e + 1)
  {
  }

  lemma EmitChar(data: seq<byte>, n: nat, e: nat, bits: bv32, value: bv32)
    requires n <= |data| && 5 <= bits <= 12 && 8 * n == 5 * e + Pending(bits)
    requires value & 0xFFFF == Window(data, n - 2)
    ensures (value >> (bits - 5)) & 31 == Group(data, e)
  {
    PendingGroup(n, e, bits);
    if bits <= 8 {
      EmitCharLow(data, n, e, bits, value);
    } else {
      GroupAt(data, e, n - 2, bits - 5);
      EmitBitsHigh(value, ByteOrZero(data, n - 2), ByteOrZero(data, n - 1), bits);
    }
  }

  lemma EmitCharLow(data: seq<byte>, n: nat, e: nat, bits: bv32, value: bv32)
    requires 5 <= bits <= 8 && 5 * e / 8 == n - 1 && GroupShift(5 * e % 8) == bits + 3
    requires value & 0xFFFF == Window(data, n - 2)
    ensures (value >> (bits - 5)) & 31 == Group(data, e)
  {
    GroupAt(data, e, n - 1, bits + 3);
    EmitBitsLow(value, ByteOrZero(data, n - 2), ByteOrZero(data, n - 1), ByteOrZero(data, n), bits);
  }

  lemma GroupAt(data: seq<byte>, e: nat, j: int, shift: bv32)
    requires 5 * e / 8 == j && GroupShift(5 * e % 8) == shift
    ensures Group(data, e) == (Window(data, j) >> shift) & 31
  {
  }

  /** Where the next group starts, given how many bits are pending. */
  lemma PendingGroup(n: nat, e: nat, bits: bv32)
    requires 5 <= bits <= 12 && 8 * n == 5 * e + Pending(bits)
    ensures bits <= 8 ==> 5 * e / 8 == n - 1 && GroupShift(5 * e % 8) == bits + 3
    ensures bits > 8 ==> 5 * e / 8 == n - 2 && GroupShift(5 * e % 8) == bits - 5
  {
    if bits == 5 {
      assert 5 * e == 8 * (n - 1) + 3;
    } else if bits == 6 {
      assert 5 * e == 8 * (n - 1) + 2;
    } else if bits == 7 {
      assert 5 * e == 8 * (n - 1) + 1;
    } else if bits == 8 {
      assert 5 * e == 8 * (n - 1);
    } else if bits == 9 {
      assert 5 * e == 8 * (n - 2) + 7;
    } else if bits == 10 {
      assert 5 * e == 8 * (n - 2) + 6;
    } else if bits == 11 {
      assert 5 * e == 8 * (n - 2) + 5;
    } else {
      assert bits == 12;
      assert 5 * e == 8 * (n - 2) + 4;
    }
  }

  /** With at most eight bits pending, they are the low bits of the last byte. */
  lemma EmitBitsLow(value: bv32, a: bv32, b: bv32, c: bv32, bits: bv32)
    requires a < 256 && b < 256 && c < 256 && 5 <= bits <= 8
    requires value & 0xFFFF == (a << 8) | b
    ensures (value >> (bits - 5)) & 31 == (((b << 8) | c) >> (bits + 3)) & 31
  {
    if bits == 5 {
    } else if bits == 6 {
    } else if bits == 7 {
    } else {
    }
  }

  /** With more than eight bits pending, they run from the byte before the
      last one into the last one. */
  lemma EmitBitsHigh(value: bv32, a: bv32, b: bv32, bits: bv32)
    requires a < 256 && b < 256 && 8 < bits <= 12
    requires value & 0xFFFF == (a << 8) | b
    ensures (value >> (bits - 5)) & 31 == (((a << 8) | b) >> (bits - 5)) & 31
  {
    if bits == 9 {
    } else if bits == 10 {
    } else if bits == 11 {
    } else {
    }
  }

  /** The final partial group, filled with zero bits, is the last group of the
      stream, and after it every group has been emitted. */
  lemma FlushStep(data: seq<byte>, out: string, bits: bv32, value: bv32)
    requires 0 < bits < 5 && Accumulated(data, |data|, out, bits, value)
    ensures (value << (5 - bits)) & 31 == Group(data, |out|)
    ensures out + [Letter(Group(data, |out|))] == Digits(data, CharCount(|data|))
  {
    var n, e := |data|, |out|;
    FlushGroup(n, e, bits);
    FlushBits(value, ByteOrZero(data, n - 2), ByteOrZero(data, n - 1), bits);
    assert ByteOrZero(data, n) == 0;
  }

  lemma FlushGroup(n: nat, e: nat, bits: bv32)
    requires 0 < bits < 5 && 8 * n == 5 * e + Pending(bits)
    ensures 5 * e / 8 == n - 1 && GroupShift(5 * e % 8) == bits + 3
    ensures e + 1 == CharCount(n)
  {
    if bits == 1 {
      assert 5 * e == 8 * (n - 1) + 7;
    } else if bits == 2 {
      assert 5 * e == 8 * (n - 1) + 6;
    } else if bits == 3 {
      assert 5 * e == 8 * (n - 1) + 5;
    } else {
      assert bits == 4;
      assert 5 * e == 8 * (n - 1) + 4;
    }
  }

  lemma FlushBits(value: bv32, a: bv32, b: bv32, bits: bv32)
    requires a < 256 && b < 256 && 0 < bits < 5
    requires value & 0xFFFF == (a << 8) | b
    ensures (value << (5 - bits)) & 31 == ((b << 8) >> (bits + 3)) & 31
  {
  }

  // ---------------------------------------------------------------------
  // Known answers

  /** "Hello" encodes to the secret an authenticator shows for it. */
  lemma HelloVector()
    ensures Encode([0x48, 0x65, 0x6C, 0x6C, 0x6F]) == "JBSWY3DP"
  {
    HelloDigits();
    assert Padding(0) == "";
  }

  lemma HelloDigits()
    ensures Digits([0x48, 0x65, 0x6C, 0x6C, 0x6F], 8) == "JBSWY3DP"
  {
  }

  /** The test vectors of section 10 of RFC 4648, one per length of the final
      quantum. */
  lemma Rfc4648Vectors()
    ensures Encode([]) == ""
    ensures Encode([0x66]) == "MY======"
    ensures Encode([0x66, 0x6F]) == "MZXQ===="
    ensures Encode([0x66, 0x6F, 0x6F]) == "MZXW6==="
    ensures Encode([0x66, 0x6F, 0x6F, 0x62]) == "MZXW6YQ="
    ensures Encode([0x66, 0x6F, 0x6F, 0x62, 0x61]) == "MZXW6YTB"
    ensures Encode([0x66, 0x6F, 0x6F, 0x62, 0x61, 0x72]) == "MZXW6YTBOI======"
  {
    VectorF();
    VectorFo();
    VectorFoo();
    VectorFoob();
    VectorFooba();
    VectorFoobar();
  }

  lemma VectorF()
    ensures Encode([0x66]) == "MY======"
  {
    DigitsF();
    assert Padding(6) == "======";
  }

  lemma DigitsF()
    ensures Digits([0x66], 2) == "MY"
  {
  }

  lemma VectorFo()
    ensures Encode([0x66, 0x6F]) == "MZXQ===="
  {
    DigitsFo();
    assert Padding(4) == "====";
  }

  lemma DigitsFo()
    ensures Digits([0x66, 0x6F], 4) == "MZXQ"
  {
  }

  lemma VectorFoo()
    ensures Encode([0x66, 0x6F, 0x6F]) == "MZXW6==="
  {
    DigitsFoo();
    assert Padding(3) == "===";
  }

  lemma DigitsFoo()
    ensures Digits([0x66, 0x6F, 0x6F], 5) == "MZXW6"
  {
  }

  lemma VectorFoob()
    ensures Encode([0x66, 0x6F, 0x6F, 0x62]) == "MZXW6YQ="
  {
    DigitsFoob();
    assert Padding(1) == "=";
  }

  lemma DigitsFoob()
    ensures Digits([0x66, 0x6F, 0x6F, 0x62], 7) == "MZXW6YQ"
  {
  }

  lemma VectorFooba()
    ensures Encode([0x66, 0x6F, 0x6F, 0x62, 0x61]) == "MZXW6YTB"
  {
    DigitsFooba();
    assert Padding(0) == "";
  }

  lemma DigitsFooba()
    ensures Digits([0x66, 0x6F, 0x6F, 0x62, 0x61], 8) == "MZXW6YTB"
  {
  }

  lemma VectorFoobar()
    ensures Encode([0x66, 0x6F, 0x6F, 0x62, 0x61, 0x72]) == "MZXW6YTBOI======"
  {
    DigitsFoobar();
    assert Padding(6) == "======";
  }

  lemma DigitsFoobar()
    ensures Digits([0x66, 0x6F, 0x6F, 0x62, 0x61, 0x72], 10) == "MZXW6YTBOI"
  {
  }
}
