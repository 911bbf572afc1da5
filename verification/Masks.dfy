/** Column masks, bit by bit (internal/core/mask.go). */
module Masks {
  import opened Wrappers
  import opened Core
  import opened Orders

  /** Bit c % 64 of word c / 64; a missing word is zero. */
  type Mask = seq<Word>

  // ----- one word -----

  function Bit(w: nat, k: nat): bool
    decreases k
  {
    if k == 0 then w % 2 == 1 else Bit(w / 2, k - 1)
  }

  predicate WordBit(w: Word, k: nat) {
    Bit(w as nat, k)
  }

  function Power2(k: nat): (p: nat)
    ensures p >= 1
  {
    if k == 0 then 1 else 2 * Power2(k - 1)
  }

  /** Bitwise or of the low n bits. */
  function OrBits(a: nat, b: nat, n: nat): nat
    decreases n
  {
    if n == 0 then 0 else 2 * OrBits(a / 2, b / 2, n - 1) + (if a % 2 == 1 || b % 2 == 1 then 1 else 0)
  }

  lemma {:induction false} OrBitsBound(a: nat, b: nat, n: nat)
    ensures OrBits(a, b, n) < Power2(n)
    decreases n
  {
    if n > 0 {
      OrBitsBound(a / 2, b / 2, n - 1);
    }
  }

  lemma {:induction false} WordPower()
    ensures Power2(64) == 0x1_0000_0000_0000_0000
  {
    PowerSplit(8, 8);
    PowerSplit(16, 16);
    PowerSplit(32, 32);
    assert Power2(4) == 16 && Power2(8) == 256;
  }

  lemma {:induction false} PowerSplit(m: nat, n: nat)
    ensures Power2(m + n) == Power2(m) * Power2(n)
    decreases n
  {
    if n > 0 {
      PowerSplit(m, n - 1);
      assert 2 * (Power2(m) * Power2(n - 1)) == Power2(m) * (2 * Power2(n - 1));
    }
  }

  function Or(a: Word, b: Word): Word {
    OrBitsBound(a as nat, b as nat, 64);
    WordPower();
    OrBits(a as nat, b as nat, 64) as Word
  }

  lemma {:induction false} OrStep(a: nat, b: nat, n: nat)
    requires n > 0
    ensures OrBits(a, b, n) / 2 == OrBits(a / 2, b / 2, n - 1)
    ensures OrBits(a, b, n) % 2 == 1 <==> a % 2 == 1 || b % 2 == 1
  {
    var rest := OrBits(a / 2, b / 2, n - 1);
    var low := if a % 2 == 1 || b % 2 == 1 then 1 else 0;
    assert OrBits(a, b, n) == 2 * rest + low;
  }

  lemma {:induction false} OrBit(a: nat, b: nat, n: nat, k: nat)
    requires k < n
    ensures Bit(OrBits(a, b, n), k) <==> Bit(a, k) || Bit(b, k)
    decreases n
  {
    OrStep(a, b, n);
    if k > 0 {
      OrBit(a / 2, b / 2, n - 1, k - 1);
    }
  }

  lemma {:induction false} PowerBit(j: nat, k: nat)
    ensures Bit(Power2(j), k) <==> j == k
    decreases k
  {
    if k > 0 {
      if j > 0 {
        PowerBit(j - 1, k - 1);
      } else {
        ZeroBit(k - 1);
      }
    }
  }

  lemma {:induction false} ZeroBit(k: nat)
    ensures !Bit(0, k)
    decreases k
  {
    if k > 0 {
      ZeroBit(k - 1);
    }
  }

  /** A word below 2^n is determined by its low n bits. */
  lemma {:induction false} BitsDetermine(a: nat, b: nat, n: nat)
    requires a < Power2(n) && b < Power2(n) && forall k :: 0 <= k < n ==> (Bit(a, k) <==> Bit(b, k))
    ensures a == b
    decreases n
  {
    if n > 0 {
      assert Bit(a, 0) <==> Bit(b, 0);
      forall k | 0 <= k < n - 1
        ensures Bit(a / 2, k) <==> Bit(b / 2, k)
      {
        assert Bit(a, k + 1) <==> Bit(b, k + 1);
      }
      BitsDetermine(a / 2, b / 2, n - 1);
    }
  }

  // ----- masks as column sets -----

  predicate Has(m: Mask, c: nat) {
    c / 64 < |m| && WordBit(m[c / 64], c % 64)
  }

  /** The set of columns a mask stands for. */
  function Columns(m: Mask): set<nat> {
    set c | 0 <= c < 64 * |m| && Has(m, c)
  }

  lemma {:induction false} InColumns(m: Mask, c: nat)
    ensures c in Columns(m) <==> Has(m, c)
  {
  }

  /** Set: the mask grows to reach the word, then the bit goes up. */
  method Set(m0: Mask, c: nat) returns (m: Mask)
    ensures Columns(m) == Columns(m0) + {c}
    ensures |m| >= |m0|
  {
    m := m0;
    var w := c / 64;
    while |m| <= w
      invariant |m0| <= |m| && (|m| <= |m0| || |m| <= w + 1)
      invariant forall x: nat :: Has(m, x) <==> Has(m0, x)
      decreases w + 1 - |m|
    {
      ghost var was := m;
      m := m + [0];
      forall x: nat
        ensures Has(m, x) <==> Has(m0, x)
      {
        ZeroBit(x % 64);
        assert Has(was, x) <==> Has(m0, x);
      }
    }
    PowerLess(c % 64);
    ghost var was := m;
    m := m[w := Or(m[w], Power2(c % 64) as Word)];
    forall x: nat
      ensures Has(m, x) <==> Has(m0, x) || x == c
    {
      assert Has(was, x) <==> Has(m0, x);
      if x / 64 == w {
        OrBit(was[w] as nat, Power2(c % 64), 64, x % 64);
        PowerBit(c % 64, x % 64);
      }
    }
  }

  lemma {:induction false} PowerLess(k: nat)
    requires k < 64
    ensures Power2(k) < 0x1_0000_0000_0000_0000
  {
    WordPower();
    PowerSplit(k, 64 - k);
    assert Power2(64 - k) >= 2 by {
      assert Power2(64 - k) == 2 * Power2(64 - k - 1);
    }
    assert Power2(k) * Power2(64 - k) >= Power2(k) * 2;
  }

  function WordAt(m: Mask, i: nat): Word {
    if i < |m| then m[i] else 0
  }

  lemma {:induction false} HasWord(m: Mask, c: nat)
    ensures Has(m, c) <==> WordBit(WordAt(m, c / 64), c % 64)
  {
    ZeroBit(c % 64);
  }

  /** Or of two masks, the shorter read as zero-extended: the union of the sets. */
  method OrMasks(m: Mask, o: Mask) returns (out: Mask)
    ensures Columns(out) == Columns(m) + Columns(o)
  {
    var n := if |o| > |m| then |o| else |m|;
    out := [];
    var i := 0;
    while i < n
      invariant 0 <= i <= n && |out| == i
      invariant forall j :: 0 <= j < i ==> out[j] == Or(WordAt(m, j), WordAt(o, j))
    {
      var a, b := 0, 0;
      if i < |m| {
        a := m[i];
      }
      if i < |o| {
        b := o[i];
      }
      out := out + [Or(a, b)];
      i := i + 1;
    }
    OrColumns(m, o, out);
  }

  lemma {:induction false} OrColumns(m: Mask, o: Mask, out: Mask)
    requires |out| == if |o| > |m| then |o| else |m|
    requires forall j :: 0 <= j < |out| ==> out[j] == Or(WordAt(m, j), WordAt(o, j))
    ensures Columns(out) == Columns(m) + Columns(o)
  {
    forall c: nat
      ensures Has(out, c) <==> Has(m, c) || Has(o, c)
    {
      HasWord(m, c);
      HasWord(o, c);
      if c / 64 < |out| {
        OrBit(WordAt(m, c / 64) as nat, WordAt(o, c / 64) as nat, 64, c % 64);
      }
    }
  }

  /** Cols: the set columns, ascending. */
  method Cols(m: Mask) returns (out: seq<nat>)
    ensures forall i, j :: 0 <= i < j < |out| ==> out[i] < out[j]
    ensures forall c :: c in out <==> c in Columns(m)
  {
    out := [];
    var w := 0;
    while w < |m|
      invariant 0 <= w <= |m|
      invariant forall i, j :: 0 <= i < j < |out| ==> out[i] < out[j]
      invariant forall c: nat :: c in out <==> c < 64 * w && Has(m, c)
    {
      var b := 0;
      while b < 64
        invariant 0 <= b <= 64
        invariant forall i, j :: 0 <= i < j < |out| ==> out[i] < out[j]
        invariant forall c: nat :: c in out <==> c < 64 * w + b && Has(m, c)
      {
        var c := w * 64 + b;
        assert c / 64 == w && c % 64 == b;
        if WordBit(m[w], b) {
          assert forall i :: 0 <= i < |out| ==> out[i] in out;
          out := out + [c];
        }
        b := b + 1;
      }
      w := w + 1;
    }
  }

  predicate Less(a: nat, b: nat) {
    a < b
  }

  /** UnionCols: the columns set in either mask, each once, ascending. */
  method UnionCols(a: Mask, b: Mask) returns (out: seq<nat>)
    ensures Lists(Less, out, Columns(a) + Columns(b))
  {
    var xs := Cols(a);
    var ys := Cols(b);
    var seen := (set c | c in xs) + (set c | c in ys);
    out := [];
    var rest := seen;
    while rest != {}
      invariant rest <= seen
      invariant Lists(Less, out, seen - rest)
      decreases rest
    {
      var c :| c in rest;
      InsertAscending(Less, c, out);
      InsertMembers(Less, c, out);
      out := InsertInto(Less, c, out);
      rest := rest - {c};
    }
    assert seen - rest == seen == Columns(a) + Columns(b);
  }

  /** MaskOf: one bit per schema column on which two row images differ. */
  method DifferenceMask(before: Option<Row>, after: Option<Row>, cols: seq<ColID>) returns (m: Mask)
    ensures forall c: ColID :: c in Columns(m) <==> c in MaskOf(before, after, set x | x in cols)
    ensures forall c :: c in Columns(m) ==> c < 0x1_0000_0000
  {
    m := [];
    var i := 0;
    while i < |cols|
      invariant 0 <= i <= |cols|
      invariant forall c: ColID :: c in Columns(m) <==> c in cols[..i] && Get(before, c) != Get(after, c)
      invariant forall c :: c in Columns(m) ==> c < 0x1_0000_0000
    {
      assert cols[..i + 1] == cols[..i] + [cols[i]];
      if Get(before, cols[i]) != Get(after, cols[i]) {
        m := Set(m, cols[i]);
      }
      i := i + 1;
    }
    assert cols[..i] == cols;
  }

  predicate Both(m: Mask, o: Mask, c: nat) {
    Has(m, c) && Has(o, c)
  }

  predicate Shared(a: Word, b: Word, k: nat) {
    WordBit(a, k) && WordBit(b, k)
  }

  /** Intersects looks at the shared words only, and that is enough. */
  method Intersects(m: Mask, o: Mask) returns (yes: bool)
    ensures yes <==> Columns(m) * Columns(o) != {}
  {
    var n := if |o| < |m| then |o| else |m|;
    var i := 0;
    while i < n
      invariant 0 <= i <= n
      invariant forall c: nat :: c < 64 * i ==> !Both(m, o, c)
    {
      var hit := SharedBit(m[i], o[i]);
      if hit < 64 {
        var c := i * 64 + hit;
        assert c / 64 == i && c % 64 == hit;
        assert c in Columns(m) * Columns(o);
        return true;
      }
      forall c: nat | c < 64 * (i + 1)
        ensures !Both(m, o, c)
      {
        assert c / 64 == i ==> !Shared(m[i], o[i], c % 64);
      }
      i := i + 1;
    }
    assert forall c :: c in Columns(m) * Columns(o) ==> c < 64 * n && Both(m, o, c);
    return false;
  }

  /** The lowest bit two words share, or 64: their bitwise and is zero. */
  method SharedBit(a: Word, b: Word) returns (k: nat)
    ensures k <= 64
    ensures k < 64 ==> Shared(a, b, k)
    ensures k == 64 ==> forall j :: 0 <= j < 64 ==> !Shared(a, b, j)
  {
    k := 0;
    while k < 64
      invariant 0 <= k <= 64
      invariant forall j :: 0 <= j < k ==> !Shared(a, b, j)
    {
      if WordBit(a, k) && WordBit(b, k) {
        return;
      }
      k := k + 1;
    }
  }

  // ----- the canonical form -----

  /** maskBytes' words: trailing zero words are dropped. */
  function Trimmed(m: Mask): (t: Mask)
    ensures |t| <= |m| && t == m[..|t|]
    ensures t != [] ==> t[|t| - 1] != 0
    ensures forall i :: |t| <= i < |m| ==> m[i] == 0
  {
    if m != [] && m[|m| - 1] == 0 then Trimmed(m[..|m| - 1]) else m
  }

  lemma {:induction false} TrimmedColumns(m: Mask)
    ensures Columns(Trimmed(m)) == Columns(m)
  {
    forall c: nat
      ensures Has(Trimmed(m), c) <==> Has(m, c)
    {
      HasWord(m, c);
      HasWord(Trimmed(m), c);
    }
  }

  lemma {:induction false} WordsDetermine(a: Word, b: Word)
    requires forall k :: 0 <= k < 64 ==> (WordBit(a, k) <==> WordBit(b, k))
    ensures a == b
  {
    var x: nat, y: nat := a as nat, b as nat;
    forall k | 0 <= k < 64
      ensures Bit(x, k) <==> Bit(y, k)
    {
      assert WordBit(a, k) <==> WordBit(b, k);
    }
    WordPower();
    BitsDetermine(x, y, 64);
  }

  lemma {:induction false} SameWords(m: Mask, o: Mask, i: nat)
    requires Columns(m) == Columns(o)
    ensures WordAt(m, i) == WordAt(o, i)
  {
    forall k | 0 <= k < 64
      ensures WordBit(WordAt(m, i), k) <==> WordBit(WordAt(o, i), k)
    {
      var c := i * 64 + k;
      assert c / 64 == i && c % 64 == k;
      HasWord(m, c);
      HasWord(o, c);
      InColumns(m, c);
      InColumns(o, c);
    }
    WordsDetermine(WordAt(m, i), WordAt(o, i));
  }

  /** Masks of any width stand for the same columns exactly when they trim to the same
      words: the canonical form depends on the column set and not on the width. */
  lemma {:induction false} TrimmedIsCanonical(m: Mask, o: Mask)
    ensures Trimmed(m) == Trimmed(o) <==> Columns(m) == Columns(o)
  {
    var s, t := Trimmed(m), Trimmed(o);
    TrimmedColumns(m);
    TrimmedColumns(o);
    if Columns(m) == Columns(o) {
      TrimmedNoLonger(s, t);
      TrimmedNoLonger(t, s);
      forall i | 0 <= i < |s|
        ensures s[i] == t[i]
      {
        SameWords(s, t, i);
      }
    }
  }

  /** A mask that ends in a nonzero word is no longer than one with the same columns. */
  lemma {:induction false} TrimmedNoLonger(s: Mask, t: Mask)
    requires (s != [] ==> s[|s| - 1] != 0) && Columns(s) == Columns(t)
    ensures |s| <= |t|
  {
    if s != [] {
      SameWords(s, t, |s| - 1);
    }
  }
}
