/** Decimal spellings and the numbers they denote. */
module Decimals {
  import opened Wrappers

  // ----- characters -----

  predicate IsDigit(c: char) {
    '0' <= c <= '9'
  }

  predicate IsZeroDigit(c: char) {
    c == '0'
  }

  /** unicode.IsSpace. */
  predicate IsSpace(c: char) {
    var u := c as int;
    9 <= u <= 13 || u == 0x20 || u == 0x85 || u == 0xA0 || u == 0x1680 || 0x2000 <= u <= 0x200A
    || u == 0x2028 || u == 0x2029 || u == 0x202F || u == 0x205F || u == 0x3000
  }

  predicate AllDigits(s: string) {
    forall i :: 0 <= i < |s| ==> IsDigit(s[i])
  }

  /** Drop leading characters that satisfy p. */
  function TrimLeft(s: string, p: char -> bool): (t: string)
    ensures |t| <= |s|
  {
    if s != "" && p(s[0]) then TrimLeft(s[1..], p) else s
  }

  /** Drop trailing characters that satisfy p. */
  function TrimRight(s: string, p: char -> bool): (t: string)
    ensures |t| <= |s|
  {
    if s != "" && p(s[|s| - 1]) then TrimRight(s[..|s| - 1], p) else s
  }

  function TrimSpace(s: string): string {
    TrimRight(TrimLeft(s, IsSpace), IsSpace)
  }

  /** The position of the first point, or the length. */
  function PointAt(s: string): (n: nat)
    ensures n <= |s|
  {
    if s == "" || s[0] == '.' then 0 else 1 + PointAt(s[1..])
  }

  lemma {:induction false} TrimLeftShape(s: string, p: char -> bool)
    ensures TrimLeft(s, p) == s[|s| - |TrimLeft(s, p)|..]
    ensures TrimLeft(s, p) != "" ==> !p(TrimLeft(s, p)[0])
    ensures forall i :: 0 <= i < |s| - |TrimLeft(s, p)| ==> p(s[i])
  {
    if s != "" && p(s[0]) {
      TrimLeftShape(s[1..], p);
    }
  }

  lemma {:induction false} TrimRightShape(s: string, p: char -> bool)
    ensures TrimRight(s, p) == s[..|TrimRight(s, p)|]
    ensures TrimRight(s, p) != "" ==> !p(TrimRight(s, p)[|TrimRight(s, p)| - 1])
    ensures forall i :: |TrimRight(s, p)| <= i < |s| ==> p(s[i])
    decreases |s|
  {
    if s != "" && p(s[|s| - 1]) {
      TrimRightShape(s[..|s| - 1], p);
    }
  }

  // ----- reading and spelling -----

  /** A sign and the digits on either side of the point. */
  datatype Literal = Literal(neg: bool, whole: string, frac: string)

  function AfterSign(t: string): string {
    if t != "" && (t[0] == '+' || t[0] == '-') then t[1..] else t
  }

  /** Digits, optionally with a point among them, at least one digit in all. */
  function ReadDigits(neg: bool, u: string): Option<Literal> {
    var n := PointAt(u);
    var whole, frac := u[..n], if n < |u| then u[n + 1..] else "";
    if whole == "" && frac == "" then None
    else if !AllDigits(whole + frac) then None
    else Some(Literal(neg, whole, frac))
  }

  /** What the source accepts: white space around an optional sign and digits. */
  function Read(s: string): Option<Literal> {
    var t := TrimSpace(s);
    if t == "" then None else ReadDigits(t[0] == '-', AfterSign(t))
  }

  function Whole(l: Literal): string {
    var i := TrimLeft(l.whole, IsZeroDigit);
    if i == "" then "0" else i
  }

  function Frac(l: Literal): string {
    TrimRight(l.frac, IsZeroDigit)
  }

  /** Digits, and a point and more digits if there are any. */
  function Pointed(x: string, y: string): string {
    if y == "" then x else x + ("." + y)
  }

  /** The spelling without its sign. */
  function Magnitude(l: Literal): string {
    Pointed(Whole(l), Frac(l))
  }

  function Minus(neg: bool, s: string): string {
    if neg then "-" + s else s
  }

  function Spell(l: Literal): string {
    Minus(l.neg && Magnitude(l) != "0", Magnitude(l))
  }

  /** normalizeDecimal; None stands for its error. */
  function Normalize(s: string): Option<string> {
    match Read(s)
    case Some(l) => Some(Spell(l))
    case None => None
  }

  /** normalizeDecimal, as the source steps through it. */
  method NormalizeDecimal(s: string) returns (out: Option<string>)
    ensures out == Normalize(s)
  {
    var t := TrimSpace(s);
    if t == "" {
      return None;
    }
    var neg := false;
    if t[0] == '+' {
      t := t[1..];
    } else if t[0] == '-' {
      neg := true;
      t := t[1..];
    }
    assert Read(s) == ReadDigits(neg, t);
    out := NormalizeDigits(neg, t);
  }

  /** The part after the sign. */
  method NormalizeDigits(neg: bool, t: string) returns (out: Option<string>)
    ensures out == match ReadDigits(neg, t) case Some(l) => Some(Spell(l)) case None => None
  {
    var intPart, fracPart := t, "";
    var i := PointAt(t);
    if i < |t| {
      intPart, fracPart := t[..i], t[i + 1..];
    } else {
      assert t[..i] == t;
    }
    if intPart == "" && fracPart == "" {
      return None;
    }
    var ok := CheckDigits(intPart + fracPart);
    if !ok {
      return None;
    }
    ghost var l := Literal(neg, intPart, fracPart);
    intPart := TrimLeft(intPart, IsZeroDigit);
    if intPart == "" {
      intPart := "0";
    }
    fracPart := TrimRight(fracPart, IsZeroDigit);
    var r := intPart;
    if fracPart != "" {
      r := r + ("." + fracPart);
    }
    assert r == Magnitude(l);
    if r == "0" {
      return Some("0");
    }
    if neg {
      r := "-" + r;
    }
    return Some(r);
  }

  method CheckDigits(digits: string) returns (ok: bool)
    ensures ok <==> AllDigits(digits)
  {
    var j := 0;
    while j < |digits|
      invariant 0 <= j <= |digits|
      invariant forall k :: 0 <= k < j ==> IsDigit(digits[k])
    {
      if digits[j] < '0' || digits[j] > '9' {
        return false;
      }
      j := j + 1;
    }
    return true;
  }

  // ----- the number a literal denotes -----

  function Pow10(n: nat): (p: nat)
    ensures p >= 1
  {
    if n == 0 then 1 else 10 * Pow10(n - 1)
  }

  function Digit(c: char): nat {
    if IsDigit(c) then c as nat - '0' as nat else 0
  }

  function Val(s: string): nat {
    if s == "" then 0 else 10 * Val(s[..|s| - 1]) + Digit(s[|s| - 1])
  }

  function WithSign(neg: bool, i: int): int {
    if neg then -i else i
  }

  /** The integer of all the digits, with the sign. */
  function Units(l: Literal): int {
    WithSign(l.neg, Val(l.whole + l.frac))
  }

  function Ratio(i: int, p: nat): real
    requires p > 0
  {
    i as real / p as real
  }

  function Number(l: Literal): real {
    Ratio(Units(l), Pow10(|l.frac|))
  }

  predicate OfDigits(l: Literal) {
    AllDigits(l.whole) && AllDigits(l.frac)
  }

  lemma {:induction false} PowSplit(m: nat, n: nat)
    ensures Pow10(m + n) == Pow10(m) * Pow10(n)
    decreases n
  {
    if n > 0 {
      PowSplit(m, n - 1);
      assert 10 * (Pow10(m) * Pow10(n - 1)) == Pow10(m) * (10 * Pow10(n - 1));
    }
  }

  /** Fractions are equal when they are equal across. */
  lemma {:induction false} FractionsEqual(x: int, p: nat, y: int, q: nat)
    requires p > 0 && q > 0
    ensures Ratio(x, p) == Ratio(y, q) <==> x * q == y * p
  {
    var a, b := Ratio(x, p), Ratio(y, q);
    assert a * p as real == x as real && b * q as real == y as real;
    Across(a, b, p as real, q as real);
    assert (x * q) as real == x as real * q as real && (y * p) as real == y as real * p as real;
  }

  lemma {:induction false} Across(a: real, b: real, p: real, q: real)
    requires p > 0.0 && q > 0.0
    ensures a == b <==> (a * p) * q == (b * q) * p
  {
    assert (a * p) * q == a * (p * q) && (b * q) * p == b * (p * q);
    assert p * q > 0.0;
    if a * (p * q) == b * (p * q) {
      assert (a - b) * (p * q) == 0.0;
    }
  }

  // ----- zeros at the ends -----

  function Zeros(n: nat): (z: string)
    ensures |z| == n && forall i :: 0 <= i < n ==> z[i] == '0'
  {
    seq(n, _ => '0')
  }

  lemma {:induction false} Shuffle(v: int, p: int, q: int)
    ensures (v * q) * p == v * (p * q) && q * (v * p) == v * (q * p)
  {
  }

  lemma {:induction false} ValSnoc(s: string, c: char)
    ensures Val(s + [c]) == 10 * Val(s) + Digit(c)
  {
    assert (s + [c])[..|s|] == s;
  }

  lemma {:induction false} ValZerosRight(s: string, n: nat)
    ensures Val(s + Zeros(n)) == Val(s) * Pow10(n)
    decreases n
  {
    if n == 0 {
      assert s + Zeros(0) == s;
    } else {
      assert s + Zeros(n) == (s + Zeros(n - 1)) + ['0'];
      ValSnoc(s + Zeros(n - 1), '0');
      ValZerosRight(s, n - 1);
      Shuffle(Val(s), Pow10(n - 1), 10);
    }
  }

  lemma {:induction false} ValZerosLeft(n: nat, s: string)
    ensures Val(Zeros(n) + s) == Val(s)
    decreases |s|
  {
    if s == "" {
      assert Zeros(n) + s == "" + Zeros(n);
      ValZerosRight("", n);
    } else {
      var k := |s| - 1;
      assert Zeros(n) + s == (Zeros(n) + s[..k]) + [s[k]];
      ValSnoc(Zeros(n) + s[..k], s[k]);
      ValZerosLeft(n, s[..k]);
    }
  }

  /** Digit strings of one length are determined by their value. */
  lemma {:induction false} ValInjective(x: string, y: string)
    requires AllDigits(x) && AllDigits(y) && |x| == |y| && Val(x) == Val(y)
    ensures x == y
    decreases |x|
  {
    if x != "" {
      var k := |x| - 1;
      assert IsDigit(x[k]) && IsDigit(y[k]);
      assert Val(x[..k]) == Val(y[..k]);
      ValInjective(x[..k], y[..k]);
      assert x == x[..k] + [x[k]] && y == y[..k] + [y[k]];
    }
  }

  lemma {:induction false} LeftPadding(s: string)
    ensures s == Zeros(|s| - |TrimLeft(s, IsZeroDigit)|) + TrimLeft(s, IsZeroDigit)
  {
    TrimLeftShape(s, IsZeroDigit);
  }

  lemma {:induction false} RightPadding(s: string)
    ensures s == TrimRight(s, IsZeroDigit) + Zeros(|s| - |TrimRight(s, IsZeroDigit)|)
  {
    TrimRightShape(s, IsZeroDigit);
  }

  lemma {:induction false} TrimPaddedLeft(n: nat, s: string)
    ensures TrimLeft(Zeros(n) + s, IsZeroDigit) == TrimLeft(s, IsZeroDigit)
    decreases n
  {
    if n == 0 {
      assert Zeros(0) + s == s;
    } else {
      assert (Zeros(n) + s)[1..] == Zeros(n - 1) + s;
      TrimPaddedLeft(n - 1, s);
    }
  }

  lemma {:induction false} TrimPaddedRight(s: string, n: nat)
    ensures TrimRight(s + Zeros(n), IsZeroDigit) == TrimRight(s, IsZeroDigit)
    decreases n
  {
    if n == 0 {
      assert s + Zeros(0) == s;
    } else {
      assert (s + Zeros(n))[..|s| + n - 1] == s + Zeros(n - 1);
      TrimPaddedRight(s, n - 1);
    }
  }

  // ----- equal magnitudes have equal trimmed digits -----

  /** Both sides of the point, padded with zeros outside. */
  function Padded(a: nat, l: Literal, b: nat): string {
    (Zeros(a) + l.whole) + (l.frac + Zeros(b))
  }

  lemma {:induction false} ValPadded(a: nat, l: Literal, b: nat)
    ensures Val(Padded(a, l, b)) == Val(l.whole + l.frac) * Pow10(b)
  {
    assert Padded(a, l, b) == Zeros(a) + ((l.whole + l.frac) + Zeros(b));
    ValZerosLeft(a, (l.whole + l.frac) + Zeros(b));
    ValZerosRight(l.whole + l.frac, b);
  }

  predicate SameTrimmed(l: Literal, m: Literal) {
    TrimLeft(l.whole, IsZeroDigit) == TrimLeft(m.whole, IsZeroDigit) && Frac(l) == Frac(m)
  }

  predicate SameMagnitude(l: Literal, m: Literal) {
    Val(l.whole + l.frac) * Pow10(|m.frac|) == Val(m.whole + m.frac) * Pow10(|l.frac|)
  }

  lemma {:induction false} SameSizeTrims(l: Literal, m: Literal)
    requires OfDigits(l) && OfDigits(m) && SameMagnitude(l, m)
    ensures SameTrimmed(l, m)
  {
    var x, y := Padded(|m.whole|, l, |m.frac|), Padded(|l.whole|, m, |l.frac|);
    ValPadded(|m.whole|, l, |m.frac|);
    ValPadded(|l.whole|, m, |l.frac|);
    ValInjective(x, y);
    var k := |l.whole| + |m.whole|;
    assert Zeros(|m.whole|) + l.whole == x[..k] == y[..k] == Zeros(|l.whole|) + m.whole;
    assert l.frac + Zeros(|m.frac|) == x[k..] == y[k..] == m.frac + Zeros(|l.frac|);
    TrimPaddedLeft(|m.whole|, l.whole);
    TrimPaddedLeft(|l.whole|, m.whole);
    TrimPaddedRight(l.frac, |m.frac|);
    TrimPaddedRight(m.frac, |l.frac|);
  }

  /** A literal with the outer zeros gone. */
  function Bare(l: Literal): Literal {
    Literal(l.neg, TrimLeft(l.whole, IsZeroDigit), Frac(l))
  }

  lemma {:induction false} TrimmedPadding(l: Literal) returns (a: nat, b: nat)
    ensures l.whole + l.frac == Padded(a, Bare(l), b)
    ensures |l.frac| == |Frac(l)| + b
  {
    a, b := |l.whole| - |TrimLeft(l.whole, IsZeroDigit)|, |l.frac| - |Frac(l)|;
    LeftPadding(l.whole);
    RightPadding(l.frac);
  }

  lemma {:induction false} TrimmedSameSize(l: Literal)
    ensures SameMagnitude(l, Bare(l))
  {
    var t := Bare(l);
    var a, b := TrimmedPadding(l);
    ValPadded(a, t, b);
    PowSplit(|t.frac|, b);
    Shuffle(Val(t.whole + t.frac), Pow10(|t.frac|), Pow10(b));
  }

  lemma {:induction false} SameSizeTransfers(l: Literal, t: Literal, m: Literal)
    requires SameMagnitude(l, t) && SameMagnitude(t, m)
    ensures SameMagnitude(l, m)
  {
    Transfer(Val(l.whole + l.frac), Pow10(|l.frac|), Val(t.whole + t.frac), Pow10(|t.frac|), Val(m.whole + m.frac), Pow10(|m.frac|));
  }

  lemma {:induction false} Transfer(x: int, p: int, y: int, q: int, z: int, r: int)
    requires x * q == y * p && y * r == z * q && q > 0
    ensures x * r == z * p
  {
    assert (x * r) * q == (x * q) * r == (y * p) * r == (y * r) * p == (z * q) * p == (z * p) * q;
    assert (x * r - z * p) * q == 0;
  }

  lemma {:induction false} SameSizeIff(l: Literal, m: Literal)
    requires OfDigits(l) && OfDigits(m)
    ensures SameMagnitude(l, m) <==> SameTrimmed(l, m)
  {
    if SameMagnitude(l, m) {
      SameSizeTrims(l, m);
    }
    if SameTrimmed(l, m) {
      TrimmedSameSize(l);
      TrimmedSameSize(m);
      assert SameMagnitude(Bare(l), Bare(m)) && SameMagnitude(Bare(m), m);
      SameSizeTransfers(l, Bare(l), m);
    }
  }

  // ----- what a spelling reads back as -----

  predicate IsZeroLiteral(l: Literal) {
    TrimLeft(l.whole, IsZeroDigit) == "" && Frac(l) == ""
  }

  lemma {:induction false} ZeroMagnitude(l: Literal)
    requires OfDigits(l)
    ensures Magnitude(l) == "0" <==> IsZeroLiteral(l)
    ensures Val(l.whole + l.frac) == 0 <==> IsZeroLiteral(l)
  {
    var z := Literal(false, "", "");
    SameSizeIff(l, z);
    assert z.whole + z.frac == "" && Val("") == 0;
    TrimLeftShape(l.whole, IsZeroDigit);
    assert Frac(l) != "" ==> |Magnitude(l)| >= 2;
  }

  /** The literal a spelling shows. */
  function Shown(l: Literal): Literal {
    Literal(l.neg && !IsZeroLiteral(l), Whole(l), Frac(l))
  }

  lemma {:induction false} TrimIdentity(s: string)
    requires s != "" && !IsSpace(s[0]) && !IsSpace(s[|s| - 1])
    ensures TrimSpace(s) == s
  {
  }

  lemma {:induction false} PointFound(x: string, y: string)
    requires AllDigits(x)
    ensures PointAt(x) == |x| && PointAt(x + ("." + y)) == |x|
  {
    if x != "" {
      assert IsDigit(x[0]);
      assert (x + ("." + y))[1..] == x[1..] + ("." + y);
      PointFound(x[1..], y);
    }
  }

  lemma {:induction false} ReadPointed(neg: bool, x: string, y: string)
    requires AllDigits(x) && AllDigits(y) && x != ""
    ensures ReadDigits(neg, Pointed(x, y)) == Some(Literal(neg, x, y))
  {
    PointFound(x, y);
    var u := Pointed(x, y);
    assert u[..|x|] == x;
    assert y != "" ==> u[|x| + 1..] == y;
  }

  lemma {:induction false} ReadMagnitude(neg: bool, x: string, y: string)
    requires AllDigits(x) && AllDigits(y) && x != ""
    ensures Read(Minus(neg, Pointed(x, y))) == Some(Literal(neg, x, y))
  {
    var u := Pointed(x, y);
    var s := Minus(neg, u);
    assert IsDigit(x[0]) && u[0] == x[0];
    assert u[|u| - 1] == if y == "" then x[|x| - 1] else y[|y| - 1];
    assert IsDigit(u[|u| - 1]) && s[|s| - 1] == u[|u| - 1];
    assert s[0] == if neg then '-' else x[0];
    TrimIdentity(s);
    assert AfterSign(s) == u;
    ReadPointed(neg, x, y);
  }

  lemma {:induction false} DigitsOnly(l: Literal)
    requires OfDigits(l)
    ensures AllDigits(Whole(l)) && AllDigits(Frac(l)) && Whole(l) != ""
  {
    TrimLeftShape(l.whole, IsZeroDigit);
    TrimRightShape(l.frac, IsZeroDigit);
  }

  lemma {:induction false} ReadSpelling(l: Literal)
    requires OfDigits(l)
    ensures Read(Spell(l)) == Some(Shown(l)) && OfDigits(Shown(l))
  {
    ZeroMagnitude(l);
    var neg := l.neg && !IsZeroLiteral(l);
    assert Spell(l) == Minus(neg, Magnitude(l));
    DigitsOnly(l);
    ReadMagnitude(neg, Whole(l), Frac(l));
  }

  lemma {:induction false} ReadWellFormed(s: string)
    ensures Read(s).Some? ==> OfDigits(Read(s).value)
  {
    if Read(s).Some? {
      var l := Read(s).value;
      assert AllDigits(l.whole + l.frac);
      assert forall i :: 0 <= i < |l.whole| ==> (l.whole + l.frac)[i] == l.whole[i];
      assert forall i :: 0 <= i < |l.frac| ==> (l.whole + l.frac)[|l.whole| + i] == l.frac[i];
    }
  }

  // ----- the theorems -----

  lemma {:induction false} SameNumberParts(l: Literal, m: Literal)
    requires OfDigits(l) && OfDigits(m)
    ensures Number(l) == Number(m) <==> SameTrimmed(l, m) && (l.neg == m.neg || IsZeroLiteral(l))
  {
    var x, y := Val(l.whole + l.frac), Val(m.whole + m.frac);
    var p, q := Pow10(|l.frac|), Pow10(|m.frac|);
    FractionsEqual(Units(l), p, Units(m), q);
    SameSizeIff(l, m);
    ZeroMagnitude(l);
    SignsApart(l.neg, x, p, m.neg, y, q);
  }

  lemma {:induction false} SignsApart(s: bool, x: nat, p: nat, t: bool, y: nat, q: nat)
    requires p > 0 && q > 0
    ensures WithSign(s, x) * q == WithSign(t, y) * p <==> x * q == y * p && (s == t || x == 0)
  {
    var i: int, j: int := x, y;
    assert (-i) * q == -(i * q) && (-j) * p == -(j * p);
    assert x * q >= 0 && y * p >= 0;
    assert x * q == 0 <==> x == 0;
    assert y * p == 0 <==> y == 0;
  }

  /** Canonical form: two literals denote the same number exactly when they are spelled
      the same. */
  lemma {:induction false} SameNumberIffSameSpelling(l: Literal, m: Literal)
    requires OfDigits(l) && OfDigits(m)
    ensures Number(l) == Number(m) <==> Spell(l) == Spell(m)
  {
    SameNumberParts(l, m);
    ZeroMagnitude(l);
    ZeroMagnitude(m);
    ReadSpelling(l);
    ReadSpelling(m);
    if Spell(l) == Spell(m) {
      assert Shown(l) == Shown(m);
      WholeApart(l, m);
    }
  }

  lemma {:induction false} WholeApart(l: Literal, m: Literal)
    requires Whole(l) == Whole(m)
    ensures TrimLeft(l.whole, IsZeroDigit) == TrimLeft(m.whole, IsZeroDigit)
  {
    var x, y := TrimLeft(l.whole, IsZeroDigit), TrimLeft(m.whole, IsZeroDigit);
    TrimLeftShape(l.whole, IsZeroDigit);
    TrimLeftShape(m.whole, IsZeroDigit);
  }

  lemma {:induction false} ShownSameNumber(l: Literal)
    requires OfDigits(l)
    ensures Number(Shown(l)) == Number(l)
  {
    ReadSpelling(l);
    SameNumberParts(Shown(l), l);
    var i := TrimLeft(l.whole, IsZeroDigit);
    TrimLeftShape(l.whole, IsZeroDigit);
    TrimRightShape(l.frac, IsZeroDigit);
    assert TrimLeft("0", IsZeroDigit) == TrimLeft("0"[1..], IsZeroDigit) == "";
    assert TrimLeft(i, IsZeroDigit) == i;
    assert TrimRight(Frac(l), IsZeroDigit) == Frac(l);
  }

  /** normalizeDecimal keeps the number, is idempotent, and gives two accepted strings
      the same result exactly when they denote the same number. */
  lemma {:induction false} NormalForm(s: string, t: string)
    requires Read(s).Some? && Read(t).Some?
    ensures Read(Normalize(s).value).Some? && Number(Read(Normalize(s).value).value) == Number(Read(s).value)
    ensures Normalize(Normalize(s).value) == Normalize(s)
    ensures Normalize(s) == Normalize(t) <==> Number(Read(s).value) == Number(Read(t).value)
  {
    var l := Read(s).value;
    ReadWellFormed(s);
    ReadWellFormed(t);
    ReadSpelling(l);
    ShownSameNumber(l);
    SameNumberIffSameSpelling(Shown(l), l);
    SameNumberIffSameSpelling(l, Read(t).value);
  }

  // ----- numericString -----

  /** pgtype.Numeric: units times ten to the exp, unless absent or NaN. An infinity is
      valid and has no units: its big.Int is nil. */
  datatype Numeric = Numeric(valid: bool, nan: bool, units: Option<int>, exp: int)

  /** What becomes of it: a string, the error on NaN, or the dereference of a nil Int. */
  datatype Rendering = Rendered(text: string) | NotANumber | NilUnits

  /** big.Int's String, of a natural number. */
  function Decimal(n: nat): (s: string)
    ensures s != "" && AllDigits(s)
    ensures Val(s) == n
  {
    var c := (n % 10 + '0' as int) as char;
    if n < 10 then
      assert [c][..0] == "";
      [c]
    else
      ValSnoc(Decimal(n / 10), c);
      Decimal(n / 10) + [c]
  }

  function Abs(i: int): nat {
    if i < 0 then -i else i
  }

  /** Leading zeros until there are more than p digits. */
  function Lengthened(digits: string, p: nat): string {
    Zeros(if |digits| <= p then p + 1 - |digits| else 0) + digits
  }

  function Scaled(units: nat, exp: int): string {
    var digits := Decimal(units);
    if exp >= 0 then digits + Zeros(exp)
    else
      var d := Lengthened(digits, -exp);
      d[..|d| + exp] + ("." + d[|d| + exp..])
  }

  /** numericString. */
  function NumericString(n: Numeric): Rendering {
    if !n.valid then Rendered("0")
    else if n.nan then NotANumber
    else
      match n.units
      case None => NilUnits
      case Some(units) => Rendered(Minus(units < 0, Scaled(Abs(units), n.exp)))
  }

  /** numericString, as the source builds it. */
  method BuildNumericString(n: Numeric) returns (r: Rendering)
    ensures r == NumericString(n)
  {
    if !n.valid {
      return Rendered("0");
    }
    if n.nan {
      return NotANumber;
    }
    if n.units.None? {
      return NilUnits;
    }
    var i := n.units.value;
    var neg := i < 0;
    if neg {
      i := -i;
    }
    var digits := Decimal(i);
    var out;
    if n.exp >= 0 {
      out := digits + Zeros(n.exp);
    } else {
      var p := -n.exp;
      digits := Lengthen(digits, p);
      out := digits[..|digits| - p] + ("." + digits[|digits| - p..]);
    }
    assert out == Scaled(i, n.exp);
    if neg {
      out := "-" + out;
    }
    return Rendered(out);
  }

  method Lengthen(digits: string, p: nat) returns (out: string)
    ensures out == Lengthened(digits, p)
  {
    out := digits;
    ghost var k := 0;
    assert Zeros(0) + digits == digits;
    while |out| <= p
      invariant out == Zeros(k) + digits && (k == 0 || |out| <= p + 1)
      decreases p + 1 - |out|
    {
      assert "0" + (Zeros(k) + digits) == Zeros(k + 1) + digits;
      out := "0" + out;
      k := k + 1;
    }
  }

  /** The number a database numeric stands for, when it stands for one. */
  function Denotes(n: Numeric): real {
    if !n.valid || n.units.None? then 0.0
    else if n.exp >= 0 then Ratio(n.units.value * Pow10(n.exp), 1)
    else Ratio(n.units.value, Pow10(-n.exp))
  }

  lemma {:induction false} ReadsWhole(neg: bool, i: nat, e: nat)
    ensures Read(Minus(neg, Decimal(i) + Zeros(e))).Some?
    ensures Number(Read(Minus(neg, Decimal(i) + Zeros(e))).value) == Ratio(WithSign(neg, i) * Pow10(e), 1)
  {
    var x := Decimal(i) + Zeros(e);
    ReadMagnitude(neg, x, "");
    ValZerosRight(Decimal(i), e);
    assert x + "" == x;
    SignedProduct(neg, i, Pow10(e));
  }

  /** The digits, and where the point goes. */
  lemma {:induction false} ReadsSplit(neg: bool, i: nat, p: nat, x: string, y: string)
    requires p > 0 && x + y == Lengthened(Decimal(i), p) && |y| == p
    ensures Read(Minus(neg, x + ("." + y))).Some?
    ensures Number(Read(Minus(neg, x + ("." + y))).value) == Ratio(WithSign(neg, i), Pow10(p))
  {
    var d := Lengthened(Decimal(i), p);
    assert AllDigits(d);
    SplitDigits(x, y);
    ReadMagnitude(neg, x, y);
    ValZerosLeft(|d| - |Decimal(i)|, Decimal(i));
  }

  lemma {:induction false} SplitDigits(x: string, y: string)
    requires AllDigits(x + y)
    ensures AllDigits(x) && AllDigits(y)
  {
    assert forall i :: 0 <= i < |x| ==> (x + y)[i] == x[i];
    assert forall i :: 0 <= i < |y| ==> (x + y)[|x| + i] == y[i];
  }

  lemma {:induction false} ReadsScaled(n: Numeric)
    requires n.valid && !n.nan && n.units.Some?
    ensures Read(NumericString(n).text).Some?
    ensures Number(Read(NumericString(n).text).value) == Denotes(n)
  {
    var units := n.units.value;
    var neg, i := units < 0, Abs(units);
    assert WithSign(neg, i) == units;
    if n.exp >= 0 {
      ReadsWhole(neg, i, n.exp);
    } else {
      var d := Lengthened(Decimal(i), -n.exp);
      var x, y := d[..|d| + n.exp], d[|d| + n.exp..];
      assert x + y == d;
      ReadsSplit(neg, i, -n.exp, x, y);
    }
  }

  /** An absent numeric is written as zero is. */
  lemma {:induction false} AbsentIsZero(n: Numeric)
    requires !n.valid
    ensures NumericString(n) == NumericString(Numeric(true, false, Some(0), 0))
    ensures Denotes(n) == Denotes(Numeric(true, false, Some(0), 0))
  {
    assert Decimal(0) == "0" && Decimal(0) + Zeros(0) == Decimal(0);
  }

  lemma {:induction false} SignedProduct(neg: bool, i: int, p: int)
    ensures WithSign(neg, i * p) == WithSign(neg, i) * p
  {
    assert (-i) * p == -(i * p);
  }

  /** numericString renders exactly: it renders all but NaN and infinities, and what it
      writes for units and exponent is read as units times ten to the exponent;
      normalizing it gives the one spelling that every string denoting that number
      normalizes to. */
  lemma {:induction false} NumericExact(n: Numeric, t: string)
    requires Read(t).Some?
    ensures NumericString(n).Rendered? <==> !n.valid || (!n.nan && n.units.Some?)
    ensures NumericString(n).Rendered? ==>
      && Read(NumericString(n).text).Some? && Number(Read(NumericString(n).text).value) == Denotes(n)
      && (Normalize(t) == Normalize(NumericString(n).text) <==> Number(Read(t).value) == Denotes(n))
  {
    if NumericString(n).Rendered? {
      if n.valid {
        ReadsScaled(n);
      } else {
        AbsentIsZero(n);
        ReadsScaled(Numeric(true, false, Some(0), 0));
      }
      NormalForm(NumericString(n).text, t);
    }
  }
}
