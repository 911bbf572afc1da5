/** The shape of decimals. */
module Numerals {
  // Which strings are accepted and which are canonical.

  import opened Wrappers
  import opened Decimals

  // ----- what is accepted -----

  predicate Spaces(s: string) {
    forall i :: 0 <= i < |s| ==> IsSpace(s[i])
  }

  /** The string is white space, at most one sign, digits with at most one point among them and
      at least one digit in all, and white space; and the literal is what stands there. */
  predicate WrittenAs(s: string, l: Literal, left: string, sign: string, body: string, right: string) {
    && s == left + ((sign + body) + right) && Spaces(left) && Spaces(right)
    && sign in ["", "+", "-"] && (l.neg <==> sign == "-")
    && OfDigits(l) && l.whole + l.frac != ""
    && (body == l.whole + ("." + l.frac) || (body == l.whole && l.frac == ""))
  }

  lemma {:induction false} TrimSpaces(left: string, t: string, right: string)
    requires t != "" && !IsSpace(t[0]) && !IsSpace(t[|t| - 1]) && Spaces(left) && Spaces(right)
    ensures TrimSpace(left + (t + right)) == t
  {
    LeftGone(left, t + right);
    RightGone(t, right);
  }

  lemma {:induction false} LeftGone(left: string, x: string)
    requires Spaces(left) && x != "" && !IsSpace(x[0])
    ensures TrimLeft(left + x, IsSpace) == x
    decreases |left|
  {
    if left == "" {
      assert left + x == x;
    } else {
      assert (left + x)[1..] == left[1..] + x;
      LeftGone(left[1..], x);
    }
  }

  lemma {:induction false} RightGone(x: string, right: string)
    requires Spaces(right) && x != "" && !IsSpace(x[|x| - 1])
    ensures TrimRight(x + right, IsSpace) == x
    decreases |right|
  {
    if right == "" {
      assert x + right == x;
    } else {
      var n := |right| - 1;
      assert (x + right)[..|x + right| - 1] == x + right[..n];
      RightGone(x, right[..n]);
    }
  }

  /** What is written so is read so. */
  lemma {:induction false} WrittenIsRead(s: string, l: Literal, left: string, sign: string, body: string, right: string)
    requires WrittenAs(s, l, left, sign, body, right)
    ensures Read(s) == Some(l)
  {
    BodyIsRead(l, body);
    SignIsRead(sign, body);
    TrimSpaces(left, sign + body, right);
  }

  lemma {:induction false} SignIsRead(sign: string, body: string)
    requires sign in ["", "+", "-"] && body != ""
    requires var c, d := body[0], body[|body| - 1]; (IsDigit(c) || c == '.') && (IsDigit(d) || d == '.')
    ensures var t := sign + body;
      t != "" && !IsSpace(t[0]) && !IsSpace(t[|t| - 1]) && AfterSign(t) == body && (t[0] == '-' <==> sign == "-")
  {
    var t := sign + body;
    assert t[|t| - 1] == body[|body| - 1];
    assert t[0] == if sign == "" then body[0] else sign[0];
    assert sign == "" ==> t == body;
    assert sign != "" ==> t[1..] == body;
  }

  lemma {:induction false} BodyIsRead(l: Literal, body: string)
    requires OfDigits(l) && l.whole + l.frac != ""
    requires body == l.whole + ("." + l.frac) || (body == l.whole && l.frac == "")
    ensures ReadDigits(l.neg, body) == Some(l) && body != ""
    ensures var c, d := body[0], body[|body| - 1]; (IsDigit(c) || c == '.') && (IsDigit(d) || d == '.')
  {
    PointFound(l.whole, l.frac);
    assert body[..|l.whole|] == l.whole;
    assert body[|l.whole|..] != "" ==> body[|l.whole| + 1..] == l.frac;
    assert forall i :: 0 <= i < |l.whole| ==> body[i] == l.whole[i];
    assert l.frac != "" ==> body[|body| - 1] == l.frac[|l.frac| - 1];
  }

  lemma {:induction false} PointIs(u: string)
    ensures PointAt(u) < |u| ==> u[PointAt(u)] == '.'
  {
    if u != "" && u[0] != '.' {
      PointIs(u[1..]);
    }
  }

  lemma {:induction false} SpacesSplit(s: string) returns (left: string, right: string)
    ensures s == left + (TrimSpace(s) + right) && Spaces(left) && Spaces(right)
  {
    var x := TrimLeft(s, IsSpace);
    var t := TrimRight(x, IsSpace);
    TrimLeftShape(s, IsSpace);
    TrimRightShape(x, IsSpace);
    left, right := s[..|s| - |x|], x[|t|..];
    assert s == left + x && x == t + right;
  }

  lemma {:induction false} SignSplit(t: string) returns (sign: string)
    requires t != ""
    ensures t == sign + AfterSign(t) && sign in ["", "+", "-"] && (t[0] == '-' <==> sign == "-")
  {
    sign := if t[0] == '+' then "+" else if t[0] == '-' then "-" else "";
  }

  lemma {:induction false} DigitsAreWritten(neg: bool, u: string)
    requires ReadDigits(neg, u).Some?
    ensures var l := ReadDigits(neg, u).value;
      && l.neg == neg && OfDigits(l) && l.whole + l.frac != ""
      && (u == l.whole + ("." + l.frac) || (u == l.whole && l.frac == ""))
  {
    PointSplit(u);
    SplitDigits(ReadDigits(neg, u).value.whole, ReadDigits(neg, u).value.frac);
  }

  lemma {:induction false} PointSplit(u: string)
    ensures var n := PointAt(u);
      if n < |u| then u == u[..n] + ("." + u[n + 1..]) else u == u[..n]
  {
    PointIs(u);
  }

  /** What is read is written so. */
  lemma {:induction false} ReadIsWritten(s: string) returns (left: string, sign: string, body: string, right: string)
    requires Read(s).Some?
    ensures WrittenAs(s, Read(s).value, left, sign, body, right)
  {
    var t := TrimSpace(s);
    left, right := SpacesSplit(s);
    sign := SignSplit(t);
    body := AfterSign(t);
    DigitsAreWritten(t[0] == '-', body);
  }

  /** normalizeDecimal accepts exactly the strings of that shape, and reads off the literal
      that stands there. */
  lemma {:induction false} ReadIff(s: string, l: Literal)
    ensures Read(s) == Some(l) <==> exists left, sign, body, right :: WrittenAs(s, l, left, sign, body, right)
  {
    if Read(s) == Some(l) {
      var left, sign, body, right := ReadIsWritten(s);
    }
    if left, sign, body, right :| WrittenAs(s, l, left, sign, body, right) {
      WrittenIsRead(s, l, left, sign, body, right);
    }
  }

  // ----- what is canonical -----

  /** No leading zero but a single one, no trailing zero after the point, no point without
      digits behind it, no plus, and no minus before zero. */
  predicate CanonicalParts(o: string, neg: bool, x: string, y: string) {
    && o == Minus(neg, Pointed(x, y))
    && x != "" && AllDigits(x) && AllDigits(y)
    && (x == "0" || x[0] != '0') && (y == "" || y[|y| - 1] != '0')
    && (neg ==> x != "0" || y != "")
  }

  ghost predicate CanonicalNumeral(o: string) {
    exists neg, x, y :: CanonicalParts(o, neg, x, y)
  }

  lemma {:induction false} SpelledCanonically(l: Literal)
    requires OfDigits(l)
    ensures CanonicalNumeral(Spell(l))
  {
    DigitsOnly(l);
    TrimLeftShape(l.whole, IsZeroDigit);
    TrimRightShape(l.frac, IsZeroDigit);
    OnlyZero(Whole(l), Frac(l));
    assert CanonicalParts(Spell(l), l.neg && Magnitude(l) != "0", Whole(l), Frac(l));
  }

  lemma {:induction false} TrimmedAlready(neg: bool, x: string, y: string)
    requires x != "" && (x == "0" || x[0] != '0') && (y == "" || y[|y| - 1] != '0')
    ensures Whole(Literal(neg, x, y)) == x && Frac(Literal(neg, x, y)) == y
  {
  }

  lemma {:induction false} OnlyZero(x: string, y: string)
    requires x != ""
    ensures Pointed(x, y) == "0" <==> x == "0" && y == ""
  {
    assert y != "" ==> |Pointed(x, y)| > 1;
  }

  lemma {:induction false} CanonicalStays(o: string, neg: bool, x: string, y: string)
    requires CanonicalParts(o, neg, x, y)
    ensures Normalize(o) == Some(o)
  {
    ReadMagnitude(neg, x, y);
    TrimmedAlready(neg, x, y);
    OnlyZero(x, y);
    assert Spell(Literal(neg, x, y)) == Minus(neg && Pointed(x, y) != "0", Pointed(x, y));
  }

  /** normalizeDecimal yields canonical numerals, and leaves alone exactly these. */
  lemma {:induction false} CanonicalIff(s: string)
    ensures Normalize(s).Some? ==> CanonicalNumeral(Normalize(s).value)
    ensures Normalize(s) == Some(s) <==> CanonicalNumeral(s)
  {
    if Normalize(s).Some? {
      ReadWellFormed(s);
      SpelledCanonically(Read(s).value);
    }
    if neg, x, y :| CanonicalParts(s, neg, x, y) {
      CanonicalStays(s, neg, x, y);
    }
  }
}
