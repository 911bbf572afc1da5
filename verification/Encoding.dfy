/** The frozen canonical encoding of values, rows and keys. */
module Encoding {
  import opened Wrappers
  import opened Core

  const UINT32: int := 0x1_0000_0000
  const UINT64: int := 0x1_0000_0000_0000_0000

  // ----- fixed-width big-endian numbers -----

  function Power(w: nat): (p: nat)
    ensures p >= 1
  {
    if w == 0 then 1 else 0x100 * Power(w - 1)
  }

  /** The low w bytes of a number, most significant first. */
  function BigEndian(n: nat, w: nat): (bs: Bytes)
    ensures |bs| == w
  {
    if w == 0 then [] else BigEndian(n / 0x100, w - 1) + [(n % 0x100) as Byte]
  }

  function FromBigEndian(bs: Bytes): nat {
    if bs == [] then 0 else FromBigEndian(bs[..|bs| - 1]) * 0x100 + bs[|bs| - 1] as nat
  }

  lemma {:induction false} BigEndianRoundTrip(n: nat, w: nat)
    requires n < Power(w)
    ensures FromBigEndian(BigEndian(n, w)) == n
    decreases w
  {
    if w > 0 {
      assert BigEndian(n, w)[..w - 1] == BigEndian(n / 0x100, w - 1);
      BigEndianRoundTrip(n / 0x100, w - 1);
    }
  }

  lemma {:induction false} MultipleAtLeast(d: nat, k: int)
    ensures k >= 1 ==> d * k >= d
    ensures k <= -1 ==> d * k <= 0 - d
  {
  }

  lemma {:induction false} QuotientIs(n: nat, d: nat, q: nat, r: nat)
    requires n == d * q + r && r < d
    ensures n / d == q
  {
    MultipleAtLeast(d, n / d - q);
    assert d * (n / d - q) == d * (n / d) - d * q;
  }

  /** Dividing twice is dividing by the product. */
  lemma {:induction false} DivideTwice(n: nat, d: nat)
    requires d >= 1
    ensures n / 0x100 / d == n / (0x100 * d)
  {
    var a := n / 0x100;
    var q, s := a / d, a % d;
    assert n == 0x100 * a + n % 0x100 && a == d * q + s;
    assert 0x100 * (d * q) == (0x100 * d) * q;
    QuotientIs(n, 0x100 * d, q, 0x100 * s + n % 0x100);
  }

  /** The bytes are the digits to base 256, the most significant first. */
  lemma {:induction false} BigEndianAt(n: nat, w: nat, i: nat)
    requires i < w
    ensures BigEndian(n, w)[i] as nat == n / Power(w - 1 - i) % 0x100
    decreases w
  {
    if i < w - 1 {
      BigEndianAt(n / 0x100, w - 1, i);
      DivideTwice(n, Power(w - 2 - i));
    }
  }

  /** Any bytes are the big-endian form of the number they stand for. */
  lemma {:induction false} DigitsRoundTrip(bs: Bytes)
    ensures BigEndian(FromBigEndian(bs), |bs|) == bs
    decreases |bs|
  {
    if bs != [] {
      var n := |bs| - 1;
      DigitsRoundTrip(bs[..n]);
      assert bs == bs[..n] + [bs[n]];
    }
  }

  lemma {:induction false} Widths()
    ensures Power(4) == UINT32 && Power(8) == UINT64
  {
    assert Power(1) == 0x100 && Power(2) == 0x1_0000 && Power(3) == 0x100_0000;
    assert Power(5) == 0x100_0000_0000 && Power(6) == 0x1_0000_0000_0000 && Power(7) == 0x100_0000_0000_0000;
  }

  /** binary.BigEndian.PutUint32(uint32(n)): the length truncates. */
  function U32(n: nat): (bs: Bytes)
    ensures |bs| == 4
  {
    BigEndian(n % UINT32, 4)
  }

  function U64(n: Word): (bs: Bytes)
    ensures |bs| == 8
  {
    BigEndian(n as nat, 8)
  }

  /** The bits of a signed 64-bit integer, in two's complement. */
  function Unsigned(i: Long): Word {
    if i < 0 then (i as int + UINT64) as Word else i as int as Word
  }

  function Signed(w: Word): Long {
    if w as int >= UINT64 / 2 then (w as int - UINT64) as Long else w as int as Long
  }

  lemma {:induction false} U32RoundTrip(n: nat)
    ensures FromBigEndian(U32(n)) == n % UINT32
  {
    Widths();
    BigEndianRoundTrip(n % UINT32, 4);
  }

  /** A length that fits is not cut. */
  lemma {:induction false} LengthFits(n: nat)
    requires n < UINT32
    ensures FromBigEndian(U32(n)) == n
  {
    U32RoundTrip(n);
  }

  lemma {:induction false} U64RoundTrip(w: Word)
    ensures FromBigEndian(U64(w)) == w as nat
  {
    Widths();
    BigEndianRoundTrip(w as nat, 8);
  }

  lemma {:induction false} FromBigEndianBound(bs: Bytes)
    ensures FromBigEndian(bs) < Power(|bs|)
    decreases |bs|
  {
    if bs != [] {
      FromBigEndianBound(bs[..|bs| - 1]);
    }
  }

  // ----- values -----

  function Kind(v: RawValue): Byte {
    match v
    case Null => 0
    case Bool(_) => 1
    case Int(_) => 2
    case Float(_) => 3
    case Numeric(_) => 4
    case Text(_) => 5
    case Blob(_) => 6
    case Time(_) => 7
  }

  function LengthPrefixed(payload: Bytes): Bytes {
    U32(|payload|) + payload
  }

  /** -0.0 and +0.0 are the same number. */
  function Collapsed(bits: Word): Word {
    if IsZero(bits) then 0 else bits
  }

  function Body(v: RawValue): Bytes {
    match v
    case Null => []
    case Bool(b) => [if b then 1 else 0]
    case Int(i) => U64(Unsigned(i))
    case Float(bits) => U64(Collapsed(bits))
    case Numeric(d) => LengthPrefixed(d)
    case Text(t) => LengthPrefixed(t)
    case Blob(x) => LengthPrefixed(x)
    case Time(m) => U64(Unsigned(m))
  }

  // ----- the bytes that are pinned -----

  /** Eight bytes, read as a number, are written as they were. */
  lemma {:induction false} WordIs(bs: Bytes)
    requires |bs| == 8
    ensures FromBigEndian(bs) < UINT64 && U64(FromBigEndian(bs) as Word) == bs
  {
    Widths();
    FromBigEndianBound(bs);
    DigitsRoundTrip(bs);
  }

  lemma {:induction false} LengthIs(n: Byte)
    ensures U32(n as nat) == [0, 0, 0, n]
  {
    Leading(0, [0, 0, n]);
    Leading(0, [0, n]);
    Leading(0, [n]);
    assert [0, 0, 0, n] == [0] + [0, 0, n] && [0, 0, n] == [0] + [0, n] && [0, n] == [0] + [n];
    assert FromBigEndian([n]) == n as nat;
    DigitsRoundTrip([0, 0, 0, n]);
  }

  /** The first byte counts most. */
  lemma {:induction false} Leading(x: Byte, bs: Bytes)
    ensures FromBigEndian([x] + bs) == x as nat * Power(|bs|) + FromBigEndian(bs)
    decreases |bs|
  {
    if bs == [] {
      assert [x] + bs == [x];
    } else {
      var n := |bs| - 1;
      assert ([x] + bs)[..n + 1] == [x] + bs[..n];
      Leading(x, bs[..n]);
      assert 0x100 * (x as nat * Power(n)) == x as nat * (0x100 * Power(n));
    }
  }

  const HALVES: Word := 0x3FF8_0000_0000_0000
  const ALL_ONES: Word := 0xFFFF_FFFF_FFFF_FFFF
  const PRICE: Bytes := [0x32, 0x36, 0x38, 0x2E, 0x39, 0x32]
  const ABC: Bytes := [0x61, 0x62, 0x63]

  lemma {:induction false} EightBytes(a: Byte, b: Byte, c: Byte, d: Byte, e: Byte, f: Byte, g: Byte, h: Byte)
    ensures FromBigEndian([a, b, c, d, e, f, g, h]) ==
      ((((((a as nat * 0x100 + b as nat) * 0x100 + c as nat) * 0x100 + d as nat) * 0x100 + e as nat) * 0x100 + f as nat) * 0x100 + g as nat) * 0x100 + h as nat
  {
    assert [a, b, c, d, e, f, g, h][..7] == [a, b, c, d, e, f, g] && [a, b, c, d, e, f, g][..6] == [a, b, c, d, e, f];
    assert [a, b, c, d, e, f][..5] == [a, b, c, d, e] && [a, b, c, d, e][..4] == [a, b, c, d];
    assert [a, b, c, d][..3] == [a, b, c] && [a, b, c][..2] == [a, b] && [a, b][..1] == [a];
    assert FromBigEndian([a]) == a as nat && FromBigEndian([a, b]) == a as nat * 0x100 + b as nat;
    assert FromBigEndian([a, b, c, d]) == FromBigEndian([a, b, c]) * 0x100 + d as nat;
    assert FromBigEndian([a, b, c, d, e, f]) == FromBigEndian([a, b, c, d, e]) * 0x100 + f as nat;
    assert FromBigEndian([a, b, c, d, e, f, g, h]) == FromBigEndian([a, b, c, d, e, f, g]) * 0x100 + h as nat;
  }

  lemma {:induction false} PinnedBits()
    ensures U64(0) == [0, 0, 0, 0, 0, 0, 0, 0] && U64(1) == [0, 0, 0, 0, 0, 0, 0, 1]
    ensures U64(ALL_ONES) == [0xFF, 0xFF, 0xFF, 0xFF, 0xFF, 0xFF, 0xFF, 0xFF] && U64(HALVES) == [0x3F, 0xF8, 0, 0, 0, 0, 0, 0]
  {
    EightBytes(0, 0, 0, 0, 0, 0, 0, 0);
    WordIs([0, 0, 0, 0, 0, 0, 0, 0]);
    EightBytes(0, 0, 0, 0, 0, 0, 0, 1);
    WordIs([0, 0, 0, 0, 0, 0, 0, 1]);
    EightBytes(0xFF, 0xFF, 0xFF, 0xFF, 0xFF, 0xFF, 0xFF, 0xFF);
    WordIs([0xFF, 0xFF, 0xFF, 0xFF, 0xFF, 0xFF, 0xFF, 0xFF]);
    EightBytes(0x3F, 0xF8, 0, 0, 0, 0, 0, 0);
    WordIs([0x3F, 0xF8, 0, 0, 0, 0, 0, 0]);
  }

  /** The encodings of numbers and times the repository pins for good: the kind, then eight
      bytes; 1.5 is its bit pattern, and -0.0 is +0.0. */
  lemma {:induction false} PinnedWords()
    ensures Encode(Int(0)) == Some([2] + [0, 0, 0, 0, 0, 0, 0, 0])
    ensures Encode(Int(1)) == Some([2] + [0, 0, 0, 0, 0, 0, 0, 1])
    ensures Encode(Int(-1)) == Some([2] + [0xFF, 0xFF, 0xFF, 0xFF, 0xFF, 0xFF, 0xFF, 0xFF])
    ensures Encode(Float(HALVES)) == Some([3] + [0x3F, 0xF8, 0, 0, 0, 0, 0, 0])
    ensures Encode(Float(NEGATIVE_ZERO)) == Some([3] + [0, 0, 0, 0, 0, 0, 0, 0])
    ensures Encode(Time(0)) == Some([7] + [0, 0, 0, 0, 0, 0, 0, 0])
  {
    PinnedBits();
  }

  /** And those of the others: nothing, one byte, or a length in four bytes and the payload. */
  lemma {:induction false} PinnedPayloads()
    ensures Encode(Null) == Some([0] + [])
    ensures Encode(Bool(false)) == Some([1] + [0]) && Encode(Bool(true)) == Some([1] + [1])
    ensures Encode(Numeric(PRICE)) == Some([4] + ([0, 0, 0, 6] + PRICE))
    ensures Encode(Text(ABC)) == Some([5] + ([0, 0, 0, 3] + ABC))
    ensures Encode(Text([])) == Some([5] + ([0, 0, 0, 0] + []))
    ensures Encode(Blob([0xDE, 0xAD])) == Some([6] + ([0, 0, 0, 2] + [0xDE, 0xAD]))
  {
    LengthIs(0);
    LengthIs(2);
    LengthIs(3);
    LengthIs(6);
  }

  // ----- encoding and collapsing -----

  predicate Encodable(v: RawValue) {
    v.Float? ==> !IsNaN(v.bits)
  }

  /** Value.Encode: the kind, then the body; NaN is refused. */
  function Encode(v: RawValue): Option<Bytes> {
    if Encodable(v) then Some([Kind(v)] + Body(v)) else None
  }

  /** What the database considers the same value: the two zeros collapse. */
  function Collapse(v: RawValue): RawValue {
    if v.Float? then Float(Collapsed(v.bits)) else v
  }

  function PayloadLength(v: RawValue): nat {
    match v
    case Numeric(d) => |d|
    case Text(t) => |t|
    case Blob(x) => |x|
    case _ => 0
  }

  // ----- decoding -----

  /** A payload behind its length, and what follows it. */
  function DecodeFramed(b: Bytes): Option<(Bytes, Bytes)> {
    if |b| < 4 then None
    else
      var n := FromBigEndian(b[..4]);
      if |b| - 4 < n then None else Some((b[4..4 + n], b[4 + n..]))
  }

  function DecodeWord(b: Bytes): Option<(Word, Bytes)> {
    if |b| < 8 then None
    else
      FromBigEndianBound(b[..8]);
      Widths();
      Some((FromBigEndian(b[..8]) as Word, b[8..]))
  }

  /** The body of a value of a given kind. */
  function DecodeBody(k: Byte, r: Bytes): Option<(RawValue, Bytes)> {
    if k == 0 then Some((Null, r))
    else if k == 1 then if r == [] then None else Some((Bool(r[0] == 1), r[1..]))
    else if k == 2 || k == 7 then
      match DecodeWord(r)
      case None => None
      case Some((w, rest)) => Some((if k == 7 then Time(Signed(w)) else Int(Signed(w)), rest))
    else if k == 3 then
      match DecodeWord(r)
      case None => None
      case Some((w, rest)) => Some((Float(w), rest))
    else if k == 4 || k == 5 || k == 6 then
      match DecodeFramed(r)
      case None => None
      case Some((p, rest)) => Some((if k == 5 then Text(p) else if k == 4 then Numeric(p) else Blob(p), rest))
    else None
  }

  /** A value and the bytes after it, or None when truncated or of an unknown kind. */
  function Decode(b: Bytes): Option<(RawValue, Bytes)> {
    if b == [] then None else DecodeBody(b[0], b[1..])
  }

  /** decodeValue. It compares the declared length of a payload with the number of bytes
      left cut to 32 bits, so it also calls truncated what is followed by too much. */
  function DecodeValue(b: Bytes): Option<(RawValue, Bytes)> {
    if |b| >= 5 && 4 <= b[0] <= 6 && (|b| - 5) % UINT32 < FromBigEndian(b[1..5]) then None
    else Decode(b)
  }

  lemma {:induction false} FramedRoundTrip(p: Bytes, rest: Bytes)
    requires |p| < UINT32
    ensures DecodeFramed(LengthPrefixed(p) + rest) == Some((p, rest))
  {
    var b := LengthPrefixed(p) + rest;
    assert b[..4] == U32(|p|);
    U32RoundTrip(|p|);
    assert b[4..4 + |p|] == p && b[4 + |p|..] == rest;
  }

  lemma {:induction false} WordRoundTrip(w: Word, rest: Bytes)
    ensures DecodeWord(U64(w) + rest) == Some((w, rest))
  {
    var b := U64(w) + rest;
    assert b[..8] == U64(w) && b[8..] == rest;
    U64RoundTrip(w);
  }

  lemma {:induction false} BodyRoundTrip(v: RawValue, rest: Bytes)
    requires Encodable(v) && PayloadLength(v) < UINT32
    ensures DecodeBody(Kind(v), Body(v) + rest) == Some((Collapse(v), rest))
  {
    match v
    case Null => assert [] + rest == rest;
    case Bool(x) => assert (Body(v) + rest)[1..] == rest;
    case Int(i) => WordRoundTrip(Unsigned(i), rest);
    case Time(i) => WordRoundTrip(Unsigned(i), rest);
    case Float(bits) => WordRoundTrip(Collapsed(bits), rest);
    case Numeric(d) => FramedRoundTrip(d, rest);
    case Text(t) => FramedRoundTrip(t, rest);
    case Blob(x) => FramedRoundTrip(x, rest);
  }

  /** Encoding round trip: what Encode wrote, Decode reads back, and stops exactly where
      the value ends, whatever follows. */
  lemma {:induction false} RoundTrip(v: RawValue, rest: Bytes)
    requires Encodable(v) && PayloadLength(v) < UINT32
    ensures Decode(Encode(v).value + rest) == Some((Collapse(v), rest))
  {
    BodyRoundTrip(v, rest);
    var b := Encode(v).value + rest;
    assert b[0] == Kind(v) && b[1..] == Body(v) + rest;
  }

  /** Encode is prefix-free: an encoding is never the beginning of another value's. */
  lemma {:induction false} PrefixFree(v: RawValue, w: RawValue, x: Bytes, y: Bytes)
    requires Encodable(v) && Encodable(w) && PayloadLength(v) < UINT32 && PayloadLength(w) < UINT32
    requires Encode(v).value + x == Encode(w).value + y
    ensures ValueEqual(v, w) && x == y
  {
    RoundTrip(v, x);
    RoundTrip(w, y);
  }

  /** Equal values encode to equal bytes, and only they do. */
  lemma {:induction false} EqualBytesIffEqual(v: RawValue, w: RawValue)
    requires Encodable(v) && Encodable(w) && PayloadLength(v) < UINT32 && PayloadLength(w) < UINT32
    ensures Encode(v) == Encode(w) <==> ValueEqual(v, w)
  {
    if Encode(v) == Encode(w) {
      PrefixFree(v, w, [], []);
    }
    if ValueEqual(v, w) {
      assert Collapse(v) == Collapse(w);
      assert Body(v) == Body(w);
    }
  }

  /** The bytes after the length field, cut to 32 bits, still cover the payload. */
  predicate Fits(v: RawValue, after: nat) {
    (PayloadLength(v) + after) % UINT32 >= PayloadLength(v)
  }

  function Payload(v: RawValue): Bytes {
    match v
    case Numeric(d) => d
    case Text(t) => t
    case Blob(x) => x
    case _ => []
  }

  /** What decodeValue makes of a length-prefixed payload. */
  lemma {:induction false} FramedLength(k: Byte, p: Bytes, rest: Bytes)
    requires 4 <= k <= 6
    ensures var b := [k] + (LengthPrefixed(p) + rest);
      && b[1..] == LengthPrefixed(p) + rest && b[0] == k
      && DecodeValue(b) == if (|p| + |rest|) % UINT32 < |p| % UINT32 then None else DecodeBody(k, LengthPrefixed(p) + rest)
  {
    var b := [k] + (LengthPrefixed(p) + rest);
    assert b[1..] == LengthPrefixed(p) + rest;
    assert b[1..5] == U32(|p|) && |b| - 5 == |p| + |rest|;
    U32RoundTrip(|p|);
  }

  lemma {:induction false} LongIsMisread(k: Byte, p: Bytes, rest: Bytes, v: RawValue)
    requires 4 <= k <= 6 && |p| >= UINT32 && Payload(v) == p
    ensures DecodeBody(k, LengthPrefixed(p) + rest) != Some((v, rest))
  {
    var r := LengthPrefixed(p) + rest;
    assert r[..4] == U32(|p|);
    U32RoundTrip(|p|);
    assert DecodeFramed(r) == Some((r[4..4 + |p| % UINT32], r[4 + |p| % UINT32..]));
  }

  lemma {:induction false} ShortIsRead(k: Byte, p: Bytes, rest: Bytes, v: RawValue)
    requires 4 <= k <= 6 && |p| < UINT32 && DecodeBody(k, LengthPrefixed(p) + rest) == Some((v, rest))
    ensures DecodeValue([k] + (LengthPrefixed(p) + rest)) == if (|p| + |rest|) % UINT32 >= |p| then Some((v, rest)) else None
  {
    FramedLength(k, p, rest);
  }

  lemma {:induction false} FramedReadBack(v: RawValue, rest: Bytes)
    requires v.Numeric? || v.Text? || v.Blob?
    ensures DecodeValue(Encode(v).value + rest) == Some((v, rest)) <==> Fits(v, |rest|)
    ensures PayloadLength(v) < UINT32 && !Fits(v, |rest|) ==> DecodeValue(Encode(v).value + rest) == None
  {
    var p := Payload(v);
    Joined([Kind(v)], LengthPrefixed(p), rest);
    if |p| < UINT32 {
      BodyRoundTrip(v, rest);
      ShortIsRead(Kind(v), p, rest, v);
    } else {
      LongNeverFits(v, |rest|);
      FramedLength(Kind(v), p, rest);
      LongIsMisread(Kind(v), p, rest, v);
    }
  }

  lemma {:induction false} LongNeverFits(v: RawValue, after: nat)
    requires PayloadLength(v) >= UINT32
    ensures !Fits(v, after)
  {
  }

  /** The bound is exact: the length field wraps at 2^32 and so does the count of what is
      left, so a value is read back, whatever follows, exactly when both fit. */
  lemma {:induction false} ReadBackIffFits(v: RawValue, rest: Bytes)
    requires Encodable(v)
    ensures DecodeValue(Encode(v).value + rest) == Some((Collapse(v), rest)) <==> Fits(v, |rest|)
    ensures PayloadLength(v) < UINT32 && !Fits(v, |rest|) ==> DecodeValue(Encode(v).value + rest) == None
  {
    if v.Numeric? || v.Text? || v.Blob? {
      FramedReadBack(v, rest);
    } else {
      RoundTrip(v, rest);
      assert (Encode(v).value + rest)[0] == Kind(v);
    }
  }

  /** The round trip does fail on some inputs: a one-byte text with 2^32 - 1 bytes after it
      is reported as truncated. */
  lemma {:induction false} TooMuchFollows(rest: Bytes)
    requires |rest| == UINT32 - 1
    ensures DecodeValue(Encode(Text([97])).value + rest) == None
  {
    ReadBackIffFits(Text([97]), rest);
  }

  // ----- writing into a buffer -----

  lemma {:induction false} Joined(a: Bytes, b: Bytes, c: Bytes)
    ensures (a + b) + c == a + (b + c)
  {
  }

  /** Value.Encode, as the source appends to a buffer. */
  method AppendValue(dst: Bytes, v: RawValue) returns (out: Option<Bytes>)
    ensures out == if Encodable(v) then Some(dst + Encode(v).value) else None
  {
    var buf := dst + [Kind(v)];
    if v.Float? && IsNaN(v.bits) {
      return None;
    }
    buf := AppendBody(buf, v);
    Joined(dst, [Kind(v)], Body(v));
    return Some(buf);
  }

  method AppendBody(dst: Bytes, v: RawValue) returns (buf: Bytes)
    requires Encodable(v)
    ensures buf == dst + Body(v)
  {
    match v {
      case Null =>
        buf := dst;
      case Bool(b) =>
        buf := if b then dst + [1] else dst + [0];
      case Int(i) =>
        buf := dst + U64(Unsigned(i));
      case Time(i) =>
        buf := dst + U64(Unsigned(i));
      case Float(bits) =>
        var f := if IsZero(bits) then 0 else bits;
        buf := dst + U64(f);
      case Numeric(d) =>
        buf := AppendLenPrefixed(dst, d);
      case Text(t) =>
        buf := AppendLenPrefixed(dst, t);
      case Blob(x) =>
        buf := AppendLenPrefixed(dst, x);
    }
  }

  method AppendLenPrefixed(dst: Bytes, payload: Bytes) returns (out: Bytes)
    ensures out == dst + LengthPrefixed(payload)
  {
    out := dst + U32(|payload|);
    out := out + payload;
    Joined(dst, U32(|payload|), payload);
  }

  // ----- primary keys -----

  type RawRow = map<ColID, RawValue>

  function GetRaw(r: RawRow, c: ColID): RawValue {
    if c in r then r[c] else Null
  }

  /** A list of values, one after another; None when one of them is NaN. */
  function EncodeAll(vs: seq<RawValue>): Option<Bytes>
    decreases |vs|
  {
    if vs == [] then Some([])
    else
      match (EncodeAll(vs[..|vs| - 1]), Encode(vs[|vs| - 1]))
      case (Some(x), Some(y)) => Some(x + y)
      case _ => None
  }

  function KeyValues(r: RawRow, pkCols: seq<ColID>): (vs: seq<RawValue>)
    ensures |vs| == |pkCols|
  {
    seq(|pkCols|, i requires 0 <= i < |pkCols| => GetRaw(r, pkCols[i]))
  }

  /** MakePK: the number of parts, then each part; None stands for its panic on NaN. */
  method MakePK(r: RawRow, pkCols: seq<ColID>) returns (pk: Option<Bytes>)
    ensures pk == match EncodeAll(KeyValues(r, pkCols)) case Some(x) => Some(U32(|pkCols|) + x) case None => None
  {
    var vs := KeyValues(r, pkCols);
    var buf := U32(|pkCols|);
    var i := 0;
    assert vs[..0] == [] && buf + [] == buf;
    while i < |pkCols|
      invariant 0 <= i <= |pkCols|
      invariant EncodeAll(vs[..i]).Some? && buf == U32(|pkCols|) + EncodeAll(vs[..i]).value
    {
      var next := AppendValue(buf, GetRaw(r, pkCols[i]));
      if next.None? {
        UnencodableStays(vs, i);
        return None;
      }
      NextPart(U32(|pkCols|), vs, i);
      buf := next.value;
      i := i + 1;
    }
    assert vs[..i] == vs;
    return Some(buf);
  }

  lemma {:induction false} NextPart(head: Bytes, vs: seq<RawValue>, i: nat)
    requires i < |vs| && EncodeAll(vs[..i]).Some? && Encodable(vs[i])
    ensures EncodeAll(vs[..i + 1]).Some?
    ensures (head + EncodeAll(vs[..i]).value) + Encode(vs[i]).value == head + EncodeAll(vs[..i + 1]).value
  {
    EncodeAllSnoc(vs[..i], vs[i]);
    assert vs[..i + 1] == vs[..i] + [vs[i]];
    Joined(head, EncodeAll(vs[..i]).value, Encode(vs[i]).value);
  }

  lemma {:induction false} UnencodableStays(vs: seq<RawValue>, i: nat)
    requires i < |vs| && !Encodable(vs[i])
    ensures EncodeAll(vs) == None
    decreases |vs|
  {
    if i < |vs| - 1 {
      UnencodableStays(vs[..|vs| - 1], i);
    }
  }

  type Decoder = Bytes -> Option<(RawValue, Bytes)>

  /** Decoding n values in a row, and what follows them. */
  function DecodeMany(one: Decoder, b: Bytes, n: nat): Option<(seq<RawValue>, Bytes)>
    decreases n
  {
    if n == 0 then Some(([], b))
    else
      match one(b)
      case None => None
      case Some((v, rest)) =>
        match DecodeMany(one, rest, n - 1)
        case None => None
        case Some((vs, last)) => Some(([v] + vs, last))
  }

  /** decodePK: the declared number of values, which must be the table's. */
  function DecodePK(pk: Bytes, parts: nat): Option<seq<RawValue>> {
    if |pk| < 4 then None
    else
      match DecodeMany(DecodeValue, pk[4..], FromBigEndian(pk[..4]))
      case None => None
      case Some((vs, _)) => if |vs| == parts then Some(vs) else None
  }

  lemma {:induction false} DecodeManySnoc(one: Decoder, b: Bytes, n: nat)
    requires DecodeMany(one, b, n).Some?
    ensures DecodeMany(one, b, n + 1) ==
            (match one(DecodeMany(one, b, n).value.1)
             case None => None
             case Some((v, rest)) => Some((DecodeMany(one, b, n).value.0 + [v], rest)))
    decreases n
  {
    if n == 0 {
      if one(b).Some? {
        assert [one(b).value.0] + [] == [] + [one(b).value.0];
      }
    } else {
      var rest, v := one(b).value.1, one(b).value.0;
      DecodeManySnoc(one, rest, n - 1);
      var vs := DecodeMany(one, rest, n - 1).value.0;
      if one(DecodeMany(one, rest, n - 1).value.1).Some? {
        var w := one(DecodeMany(one, rest, n - 1).value.1).value.0;
        assert [v] + (vs + [w]) == ([v] + vs) + [w];
      }
    }
  }

  lemma {:induction false} DecodeManyFails(one: Decoder, b: Bytes, n: nat, m: nat)
    requires DecodeMany(one, b, n) == None && n <= m
    ensures DecodeMany(one, b, m) == None
    decreases n
  {
    if n > 0 && one(b).Some? {
      DecodeManyFails(one, one(b).value.1, n - 1, m - 1);
    }
  }

  /** decodePK as the source loops. */
  method ParsePK(pk: Bytes, parts: nat) returns (out: Option<seq<RawValue>>)
    ensures out == DecodePK(pk, parts)
  {
    if |pk| < 4 {
      return None;
    }
    var n := FromBigEndian(pk[..4]);
    var b := pk[4..];
    var vs: seq<RawValue> := [];
    var i: nat := 0;
    while i < n
      invariant i <= n
      invariant DecodeMany(DecodeValue, pk[4..], i) == Some((vs, b))
    {
      DecodeManySnoc(DecodeValue, pk[4..], i);
      match DecodeValue(b) {
        case None =>
          DecodeManyFails(DecodeValue, pk[4..], i + 1, n);
          return None;
        case Some((v, rest)) =>
          vs := vs + [v];
          b := rest;
      }
      i := i + 1;
    }
    return if |vs| == parts then Some(vs) else None;
  }

  predicate Framable(v: RawValue) {
    Encodable(v) && PayloadLength(v) < UINT32
  }

  function CollapseAll(vs: seq<RawValue>): (r: seq<RawValue>)
    ensures |r| == |vs|
  {
    seq(|vs|, i requires 0 <= i < |vs| => Collapse(vs[i]))
  }

  lemma {:induction false} EncodeAllSnoc(init: seq<RawValue>, v: RawValue)
    requires EncodeAll(init).Some? && Encodable(v)
    ensures EncodeAll(init + [v]) == Some(EncodeAll(init).value + Encode(v).value)
    ensures CollapseAll(init + [v]) == CollapseAll(init) + [Collapse(v)]
  {
    assert (init + [v])[..|init|] == init;
  }

  /** A decoder that reads back exactly the values that fit with what follows them. */
  ghost predicate ReadsBack(one: Decoder, fits: (RawValue, nat) -> bool, v: RawValue, rest: Bytes)
    requires Framable(v)
  {
    one(Encode(v).value + rest) == if fits(v, |rest|) then Some((Collapse(v), rest)) else None
  }

  ghost predicate Reader(one: Decoder, fits: (RawValue, nat) -> bool) {
    forall v, rest :: Framable(v) ==> ReadsBack(one, fits, v, rest)
  }

  /** Every part fits, counting the parts after it. */
  predicate AllFit(fits: (RawValue, nat) -> bool, vs: seq<RawValue>, after: nat)
    decreases |vs|
  {
    vs == []
    || (fits(vs[|vs| - 1], after) && AllFit(fits, vs[..|vs| - 1], 1 + |Body(vs[|vs| - 1])| + after))
  }

  /** Reading a list of encoded parts back gives the parts when they fit, and fails
      when they do not. */
  lemma {:induction false} ManyReadBack(one: Decoder, fits: (RawValue, nat) -> bool, vs: seq<RawValue>, rest: Bytes)
    requires Reader(one, fits) && forall i :: 0 <= i < |vs| ==> Framable(vs[i])
    ensures EncodeAll(vs).Some?
    ensures DecodeMany(one, EncodeAll(vs).value + rest, |vs|) == if AllFit(fits, vs, |rest|) then Some((CollapseAll(vs), rest)) else None
    decreases |vs|
  {
    if vs == [] {
      assert [] + rest == rest;
    } else {
      var init, v := vs[..|vs| - 1], vs[|vs| - 1];
      assert ReadsBack(one, fits, v, rest);
      ManyReadBack(one, fits, init, Encode(v).value + rest);
      assert init + [v] == vs;
      PartReadBack(one, fits, init, v, Encode(v).value, rest);
    }
  }

  lemma {:induction false} PartReadBack(one: Decoder, fits: (RawValue, nat) -> bool, init: seq<RawValue>, v: RawValue, z: Bytes, rest: Bytes)
    requires EncodeAll(init).Some? && Encode(v) == Some(z)
    requires one(z + rest) == if fits(v, |rest|) then Some((Collapse(v), rest)) else None
    requires DecodeMany(one, EncodeAll(init).value + (z + rest), |init|) ==
      if AllFit(fits, init, |z + rest|) then Some((CollapseAll(init), z + rest)) else None
    ensures EncodeAll(init + [v]).Some?
    ensures DecodeMany(one, EncodeAll(init + [v]).value + rest, |init| + 1) ==
      if AllFit(fits, init + [v], |rest|) then Some((CollapseAll(init + [v]), rest)) else None
  {
    var all := init + [v];
    EncodeAllSnoc(init, v);
    AllFitSnoc(fits, init, v, |rest|);
    assert |z + rest| == |Encode(v).value| + |rest|;
    ReadBackJoined(one, EncodeAll(init).value, |init|, AllFit(fits, init, |z + rest|), CollapseAll(init), z, rest, fits(v, |rest|), Collapse(v),
      EncodeAll(all).value, AllFit(fits, all, |rest|), CollapseAll(all));
  }

  /** The step, its results named. */
  lemma {:induction false} ReadBackJoined(one: Decoder, x: Bytes, n: nat, fit: bool, vs: seq<RawValue>, z: Bytes, rest: Bytes, fits: bool, v: RawValue,
      x': Bytes, fit': bool, vs': seq<RawValue>)
    requires DecodeMany(one, x + (z + rest), n) == if fit then Some((vs, z + rest)) else None
    requires one(z + rest) == if fits then Some((v, rest)) else None
    requires x' == x + z && (fit' <==> fits && fit) && vs' == vs + [v]
    ensures DecodeMany(one, x' + rest, n + 1) == if fit' then Some((vs', rest)) else None
  {
    ReadBackStep(one, x, n, fit, vs, z, rest, fits, v);
  }

  lemma {:induction false} AllFitSnoc(fits: (RawValue, nat) -> bool, init: seq<RawValue>, v: RawValue, after: nat)
    requires Encodable(v)
    ensures AllFit(fits, init + [v], after) <==> fits(v, after) && AllFit(fits, init, |Encode(v).value| + after)
  {
    assert (init + [v])[..|init|] == init;
    assert |Encode(v).value| == 1 + |Body(v)|;
  }

  /** One more value after n that were read back, or were refused. */
  lemma {:induction false} ReadBackStep(one: Decoder, x: Bytes, n: nat, fit: bool, vs: seq<RawValue>, z: Bytes, rest: Bytes, fits: bool, v: RawValue)
    requires DecodeMany(one, x + (z + rest), n) == if fit then Some((vs, z + rest)) else None
    requires one(z + rest) == if fits then Some((v, rest)) else None
    ensures DecodeMany(one, (x + z) + rest, n + 1) == if fit && fits then Some((vs + [v], rest)) else None
  {
    Joined(x, z, rest);
    if fit {
      DecodeManySnoc(one, x + (z + rest), n);
    } else {
      DecodeManyFails(one, x + (z + rest), n, n + 1);
    }
  }

  lemma {:induction false} SourceReader()
    ensures Reader(DecodeValue, Fits)
  {
    forall v, rest | Framable(v)
      ensures ReadsBack(DecodeValue, Fits, v, rest)
    {
      ReadBackIffFits(v, rest);
    }
  }

  predicate Always(v: RawValue, after: nat) {
    true
  }

  lemma {:induction false} FullReader()
    ensures Reader(Decode, Always)
  {
    forall v, rest | Framable(v)
      ensures ReadsBack(Decode, Always, v, rest)
    {
      RoundTrip(v, rest);
    }
  }

  lemma {:induction false} AlwaysFits(vs: seq<RawValue>, after: nat)
    ensures AllFit(Always, vs, after)
    decreases |vs|
  {
    if vs != [] {
      AlwaysFits(vs[..|vs| - 1], 1 + |Body(vs[|vs| - 1])| + after);
    }
  }

  lemma {:induction false} ManyRoundTrip(vs: seq<RawValue>, rest: Bytes)
    requires forall i :: 0 <= i < |vs| ==> Framable(vs[i])
    ensures EncodeAll(vs).Some?
    ensures DecodeMany(Decode, EncodeAll(vs).value + rest, |vs|) == Some((CollapseAll(vs), rest))
  {
    FullReader();
    ManyReadBack(Decode, Always, vs, rest);
    AlwaysFits(vs, |rest|);
  }

  lemma {:induction false} FitsShort(v: RawValue, after: nat)
    requires |Body(v)| + after < UINT32
    ensures Fits(v, after)
  {
  }

  /** Keys shorter than 2^32 bytes always fit. */
  lemma {:induction false} ShortFits(vs: seq<RawValue>, after: nat)
    requires EncodeAll(vs).Some? && |EncodeAll(vs).value| + after < UINT32
    ensures AllFit(Fits, vs, after)
    decreases |vs|
  {
    if vs != [] {
      var init, v := vs[..|vs| - 1], vs[|vs| - 1];
      assert EncodeAll(init).Some? && EncodeAll(vs).value == EncodeAll(init).value + Encode(v).value;
      FitsShort(v, after);
      ShortFits(init, 1 + |Body(v)| + after);
    }
  }

  /** What decoding a key comes down to: its count, then that many values. */
  lemma {:induction false} KeyFrames(n: nat, x: Bytes, parts: nat)
    requires n < UINT32
    ensures DecodePK(U32(n) + x, parts) ==
            (match DecodeMany(DecodeValue, x, n) case None => None case Some((vs, _)) => if |vs| == parts then Some(vs) else None)
  {
    var pk := U32(n) + x;
    assert pk[..4] == U32(n) && pk[4..] == x;
    U32RoundTrip(n);
  }

  /** Key round trip: for any number of parts, a key decodes to its parts, in order,
      exactly when each part fits with what follows it; otherwise it is refused. */
  lemma {:induction false} KeyReadBack(vs: seq<RawValue>)
    requires |vs| < UINT32 && forall i :: 0 <= i < |vs| ==> Framable(vs[i])
    ensures EncodeAll(vs).Some?
    ensures DecodePK(U32(|vs|) + EncodeAll(vs).value, |vs|) == if AllFit(Fits, vs, 0) then Some(CollapseAll(vs)) else None
  {
    SourceReader();
    ManyReadBack(DecodeValue, Fits, vs, []);
    assert EncodeAll(vs).value + [] == EncodeAll(vs).value;
    KeyFrames(|vs|, EncodeAll(vs).value, |vs|);
  }

  /** So every key shorter than 2^32 bytes comes back. */
  lemma {:induction false} KeyRoundTrip(vs: seq<RawValue>)
    requires |vs| < UINT32 && forall i :: 0 <= i < |vs| ==> Framable(vs[i])
    requires EncodeAll(vs).Some? && |EncodeAll(vs).value| < UINT32
    ensures DecodePK(U32(|vs|) + EncodeAll(vs).value, |vs|) == Some(CollapseAll(vs))
  {
    KeyReadBack(vs);
    ShortFits(vs, 0);
  }

  lemma {:induction false} CountsAgree(n: nat, x: Bytes, m: nat, y: Bytes)
    requires n < UINT32 && m < UINT32 && U32(n) + x == U32(m) + y
    ensures n == m && x == y
  {
    U32RoundTrip(n);
    U32RoundTrip(m);
    FourAndRest(U32(n), x);
    FourAndRest(U32(m), y);
  }

  lemma {:induction false} FourAndRest(u: Bytes, x: Bytes)
    requires |u| == 4
    ensures (u + x)[..4] == u && (u + x)[4..] == x
  {
  }

  lemma {:induction false} CollapsedEqual(vs: seq<RawValue>, ws: seq<RawValue>)
    requires CollapseAll(vs) == CollapseAll(ws)
    requires forall i :: 0 <= i < |vs| ==> Encodable(vs[i])
    requires forall i :: 0 <= i < |ws| ==> Encodable(ws[i])
    ensures |vs| == |ws| && forall i :: 0 <= i < |vs| ==> ValueEqual(vs[i], ws[i])
  {
    assert |CollapseAll(vs)| == |CollapseAll(ws)|;
    forall i | 0 <= i < |vs|
      ensures ValueEqual(vs[i], ws[i])
    {
      assert CollapseAll(vs)[i] == CollapseAll(ws)[i];
    }
  }

  /** Two keys are the same bytes exactly when they have the same parts. */
  lemma {:induction false} SameKeyIffSameParts(vs: seq<RawValue>, ws: seq<RawValue>)
    requires |vs| < UINT32 && forall i :: 0 <= i < |vs| ==> Framable(vs[i])
    requires |ws| < UINT32 && forall i :: 0 <= i < |ws| ==> Framable(ws[i])
    ensures EncodeAll(vs).Some? && EncodeAll(ws).Some?
    ensures U32(|vs|) + EncodeAll(vs).value == U32(|ws|) + EncodeAll(ws).value <==>
      |vs| == |ws| && forall i :: 0 <= i < |vs| ==> ValueEqual(vs[i], ws[i])
  {
    ManyRoundTrip(vs, []);
    ManyRoundTrip(ws, []);
    var x, y := EncodeAll(vs).value, EncodeAll(ws).value;
    assert x + [] == x && y + [] == y;
    if U32(|vs|) + EncodeAll(vs).value == U32(|ws|) + EncodeAll(ws).value {
      CountsAgree(|vs|, EncodeAll(vs).value, |ws|, EncodeAll(ws).value);
      CollapsedEqual(vs, ws);
    }
    if |vs| == |ws| && forall i :: 0 <= i < |vs| ==> ValueEqual(vs[i], ws[i]) {
      SameParts(vs, ws);
    }
  }

  lemma {:induction false} SameParts(vs: seq<RawValue>, ws: seq<RawValue>)
    requires |vs| == |ws|
    requires forall i :: 0 <= i < |vs| ==> Framable(vs[i]) && Framable(ws[i]) && ValueEqual(vs[i], ws[i])
    ensures EncodeAll(vs) == EncodeAll(ws)
    decreases |vs|
  {
    if vs != [] {
      var k := |vs| - 1;
      SameParts(vs[..k], ws[..k]);
      EqualBytesIffEqual(vs[k], ws[k]);
    }
  }

  // ----- rows -----

  /** Row.Encode over a list of columns: their number, then each id and value. */
  function EncodeCells(r: RawRow, cols: seq<ColID>): Option<Bytes>
    decreases |cols|
  {
    if cols == [] then Some([])
    else
      var c := cols[|cols| - 1];
      match (EncodeCells(r, cols[..|cols| - 1]), Encode(GetRaw(r, c)))
      case (Some(x), Some(y)) => Some(x + U32(c) + y)
      case _ => None
  }

  function EncodeRow(r: RawRow, cols: seq<ColID>): Option<Bytes> {
    match EncodeCells(r, cols)
    case Some(x) => Some(U32(|cols|) + x)
    case None => None
  }

  /** One cell: its column id and its value. */
  function DecodeCell(b: Bytes): Option<((nat, RawValue), Bytes)> {
    if |b| < 4 then None
    else
      match Decode(b[4..])
      case None => None
      case Some((v, last)) => Some(((FromBigEndian(b[..4]), v), last))
  }

  /** Reading back n cells. */
  function DecodeCells(b: Bytes, n: nat): Option<(seq<(nat, RawValue)>, Bytes)>
    decreases n
  {
    if n == 0 then Some(([], b))
    else
      match DecodeCells(b, n - 1)
      case None => None
      case Some((cells, rest)) =>
        match DecodeCell(rest)
        case None => None
        case Some((cell, last)) => Some((cells + [cell], last))
  }

  function CellsOf(r: RawRow, cols: seq<ColID>): (cells: seq<(nat, RawValue)>)
    ensures |cells| == |cols|
  {
    seq(|cols|, i requires 0 <= i < |cols| => (cols[i], Collapse(GetRaw(r, cols[i]))))
  }

  lemma {:induction false} CellRoundTrip(c: ColID, v: RawValue, rest: Bytes)
    requires Framable(v)
    ensures DecodeCell(U32(c) + (Encode(v).value + rest)) == Some(((c as nat, Collapse(v)), rest))
  {
    var tail := U32(c) + (Encode(v).value + rest);
    assert tail[..4] == U32(c) && tail[4..] == Encode(v).value + rest;
    RoundTrip(v, rest);
    U32RoundTrip(c);
  }

  lemma {:induction false} CellsRoundTrip(r: RawRow, cols: seq<ColID>, rest: Bytes)
    requires forall i :: 0 <= i < |cols| ==> Framable(GetRaw(r, cols[i]))
    ensures EncodeCells(r, cols).Some?
    ensures DecodeCells(EncodeCells(r, cols).value + rest, |cols|) == Some((CellsOf(r, cols), rest))
    decreases |cols|
  {
    if cols == [] {
      assert [] + rest == rest;
    } else {
      var k := |cols| - 1;
      var init, c := cols[..k], cols[k];
      CellsRoundTrip(r, init, U32(c) + (Encode(GetRaw(r, c)).value + rest));
      CellsSnoc(r, init, c);
      assert cols == init + [c];
      CellsStep(r, init, c, rest);
    }
  }

  lemma {:induction false} CellsSnoc(r: RawRow, init: seq<ColID>, c: ColID)
    requires EncodeCells(r, init).Some? && Encodable(GetRaw(r, c))
    ensures EncodeCells(r, init + [c]) == Some(EncodeCells(r, init).value + U32(c) + Encode(GetRaw(r, c)).value)
    ensures CellsOf(r, init + [c]) == CellsOf(r, init) + [(c as nat, Collapse(GetRaw(r, c)))]
  {
    assert (init + [c])[..|init|] == init;
  }

  lemma {:induction false} CellsStep(r: RawRow, init: seq<ColID>, c: ColID, rest: Bytes)
    requires EncodeCells(r, init).Some? && Framable(GetRaw(r, c))
    requires DecodeCells(EncodeCells(r, init).value + (U32(c) + (Encode(GetRaw(r, c)).value + rest)), |init|)
      == Some((CellsOf(r, init), U32(c) + (Encode(GetRaw(r, c)).value + rest)))
    ensures DecodeCells((EncodeCells(r, init).value + U32(c) + Encode(GetRaw(r, c)).value) + rest, |init| + 1)
      == Some((CellsOf(r, init) + [(c as nat, Collapse(GetRaw(r, c)))], rest))
  {
    var x, u, y := EncodeCells(r, init).value, U32(c), Encode(GetRaw(r, c)).value;
    CellRoundTrip(c, GetRaw(r, c), rest);
    Joined(x, u, y + rest);
    Joined(x + u, y, rest);
  }

  lemma {:induction false} CellsEqual(r: RawRow, s: RawRow, cols: seq<ColID>, cols': seq<ColID>)
    requires CellsOf(r, cols) == CellsOf(s, cols')
    requires forall i :: 0 <= i < |cols| ==> Encodable(GetRaw(r, cols[i]))
    requires forall i :: 0 <= i < |cols'| ==> Encodable(GetRaw(s, cols'[i]))
    ensures cols == cols' && forall i :: 0 <= i < |cols| ==> ValueEqual(GetRaw(r, cols[i]), GetRaw(s, cols[i]))
  {
    assert |CellsOf(r, cols)| == |CellsOf(s, cols')|;
    forall i | 0 <= i < |cols|
      ensures cols[i] == cols'[i] && ValueEqual(GetRaw(r, cols[i]), GetRaw(s, cols[i]))
    {
      assert CellsOf(r, cols)[i] == CellsOf(s, cols')[i];
    }
  }

  /** A row encoding says which columns it covers and what each holds, and where it
      ends: two of them agree, whatever follows, exactly when columns and cells do. */
  lemma {:induction false} RowsFramed(r: RawRow, cols: seq<ColID>, s: RawRow, cols': seq<ColID>, x: Bytes, y: Bytes)
    requires |cols| < UINT32 && forall i :: 0 <= i < |cols| ==> Framable(GetRaw(r, cols[i]))
    requires |cols'| < UINT32 && forall i :: 0 <= i < |cols'| ==> Framable(GetRaw(s, cols'[i]))
    ensures EncodeRow(r, cols).Some? && EncodeRow(s, cols').Some?
    ensures EncodeRow(r, cols).value + x == EncodeRow(s, cols').value + y <==>
      cols == cols' && (forall i :: 0 <= i < |cols| ==> ValueEqual(GetRaw(r, cols[i]), GetRaw(s, cols[i]))) && x == y
  {
    CellsRoundTrip(r, cols, x);
    CellsRoundTrip(s, cols', y);
    if EncodeRow(r, cols).value + x == EncodeRow(s, cols').value + y {
      RowCounts(EncodeCells(r, cols).value, x, |cols|, EncodeCells(s, cols').value, y, |cols'|);
      CellsEqual(r, s, cols, cols');
    }
    if cols == cols' && (forall i :: 0 <= i < |cols| ==> ValueEqual(GetRaw(r, cols[i]), GetRaw(s, cols[i]))) && x == y {
      SameCells(r, s, cols);
    }
  }

  lemma {:induction false} RowCounts(a: Bytes, x: Bytes, n: nat, b: Bytes, y: Bytes, m: nat)
    requires n < UINT32 && m < UINT32 && (U32(n) + a) + x == (U32(m) + b) + y
    ensures n == m && a + x == b + y
  {
    assert (U32(n) + a) + x == U32(n) + (a + x) && (U32(m) + b) + y == U32(m) + (b + y);
    CountsAgree(n, a + x, m, b + y);
  }

  lemma {:induction false} SameCells(r: RawRow, s: RawRow, cols: seq<ColID>)
    requires forall i :: 0 <= i < |cols| ==>
      Framable(GetRaw(r, cols[i])) && Framable(GetRaw(s, cols[i])) && ValueEqual(GetRaw(r, cols[i]), GetRaw(s, cols[i]))
    ensures EncodeCells(r, cols) == EncodeCells(s, cols)
    decreases |cols|
  {
    if cols != [] {
      var k := |cols| - 1;
      SameCells(r, s, cols[..k]);
      EqualBytesIffEqual(GetRaw(r, cols[k]), GetRaw(s, cols[k]));
    }
  }

  /** Row.Encode, as the source appends to a buffer. */
  method AppendRow(dst: Bytes, r: RawRow, cols: seq<ColID>) returns (out: Option<Bytes>)
    ensures out == match EncodeRow(r, cols) case Some(x) => Some(dst + x) case None => None
  {
    var buf := dst + U32(|cols|);
    var i := 0;
    assert cols[..0] == [] && buf + [] == buf;
    while i < |cols|
      invariant 0 <= i <= |cols|
      invariant EncodeCells(r, cols[..i]).Some? && buf == dst + (U32(|cols|) + EncodeCells(r, cols[..i]).value)
    {
      ghost var x := EncodeCells(r, cols[..i]).value;
      buf := buf + U32(cols[i]);
      var next := AppendValue(buf, GetRaw(r, cols[i]));
      if next.None? {
        UnencodableCell(r, cols, i);
        return None;
      }
      CellsSnoc(r, cols[..i], cols[i]);
      assert cols[..i + 1] == cols[..i] + [cols[i]];
      RowJoined(dst, U32(|cols|), x, U32(cols[i]), Encode(GetRaw(r, cols[i])).value);
      buf := next.value;
      i := i + 1;
    }
    assert cols[..i] == cols;
    return Some(buf);
  }

  lemma {:induction false} RowJoined(dst: Bytes, n: Bytes, x: Bytes, c: Bytes, v: Bytes)
    ensures ((dst + (n + x)) + c) + v == dst + (n + (x + c + v))
  {
    Joined(dst, n + x, c);
    Joined(n, x, c);
    Joined(dst, n + (x + c), v);
    Joined(n, x + c, v);
  }

  lemma {:induction false} UnencodableCell(r: RawRow, cols: seq<ColID>, i: nat)
    requires i < |cols| && !Encodable(GetRaw(r, cols[i]))
    ensures EncodeCells(r, cols) == None
    decreases |cols|
  {
    if i < |cols| - 1 {
      UnencodableCell(r, cols[..|cols| - 1], i);
    }
  }
}
