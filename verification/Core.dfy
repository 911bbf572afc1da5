/** Values, rows, tables, change sets and conflicts: the data shared by the
    engine and the snapshot model (internal/core). */
module Core {
  import opened Wrappers

  newtype Byte = x: int | 0 <= x < 0x100
  newtype Word = x: int | 0 <= x < 0x1_0000_0000_0000_0000
  newtype Long = x: int | -0x8000_0000_0000_0000 <= x < 0x8000_0000_0000_0000

  type Bytes = seq<Byte>
  type Name = string
  type ColID = c: int | 0 <= c < 0x1_0000_0000 witness 0

  // ----- cell values -----

  /** One cell as the Go struct can hold it. A float is its IEEE-754 binary64 bit
      pattern, so that NaN and the two zeros can be told apart. */
  datatype RawValue =
    | Null
    | Bool(b: bool)
    | Int(i: Long)
    | Float(bits: Word)
    | Numeric(digits: Bytes)
    | Text(text: Bytes)
    | Blob(blob: Bytes)
    | Time(micros: Long)

  const NEGATIVE_ZERO: Word := 0x8000_0000_0000_0000
  const INFINITY: Word := 0x7FF0_0000_0000_0000

  /** A NaN has all exponent bits set and a non-zero fraction, whatever its sign. */
  predicate IsNaN(bits: Word) {
    bits % NEGATIVE_ZERO > INFINITY
  }

  predicate IsZero(bits: Word) {
    bits % NEGATIVE_ZERO == 0
  }

  /** IEEE-754 equality: NaN equals nothing, the two zeros are equal, and any other
      two floats are equal exactly when their bits are. */
  predicate FloatEqual(x: Word, y: Word) {
    !IsNaN(x) && !IsNaN(y) && (x == y || (IsZero(x) && IsZero(y)))
  }

  /** Value.Equal: the same kind and the same content, NULL equal to NULL. */
  predicate ValueEqual(v: RawValue, w: RawValue) {
    match (v, w)
    case (Null, Null) => true
    case (Bool(x), Bool(y)) => x == y
    case (Int(x), Int(y)) => x == y
    case (Time(x), Time(y)) => x == y
    case (Float(x), Float(y)) => FloatEqual(x, y)
    case (Numeric(x), Numeric(y)) => x == y
    case (Text(x), Text(y)) => x == y
    case (Blob(x), Blob(y)) => x == y
    case _ => false
  }

  /** What the constructors produce and Encode accepts: no NaN, and -0.0 already
      collapsed to +0.0. */
  predicate Canonical(v: RawValue) {
    v.Float? ==> !IsNaN(v.bits) && v.bits != NEGATIVE_ZERO
  }

  type Value = v: RawValue | Canonical(v) witness Null

  // ----- rows, tables and change sets -----

  datatype PK = PK(bytes: Bytes)

  type Row = map<ColID, Value>
  type Table = map<PK, Row>

  datatype Op = Insert | Update | Delete

  /** A change set is a map from key to change, so every change is filed under its
      own key. */
  datatype Change = Change(op: Op, row: Row)
  type ChangeSet = map<PK, Change>

  /** Row.Get on a possibly absent row: an absent row and an absent column both
      read as NULL. */
  function Get(r: Option<Row>, c: ColID): Value {
    if r.Some? && c in r.value then r.value[c] else Null
  }

  function Lookup(t: Table, pk: PK): Option<Row> {
    if pk in t then Some(t[pk]) else None
  }

  /** Two tables with the same rows under every key are the same table. */
  lemma {:induction false} SameLookups(s: Table, t: Table)
    requires forall pk :: Lookup(s, pk) == Lookup(t, pk)
    ensures s == t
  {
    forall pk
      ensures pk in s <==> pk in t
      ensures pk in s ==> s[pk] == t[pk]
    {
      assert Lookup(s, pk) == Lookup(t, pk);
    }
  }

  /** The cell of a table, with an absent row read as all NULL. */
  function Cell(t: Table, pk: PK, c: ColID): Value {
    Get(Lookup(t, pk), c)
  }

  /** The columns on which two row images differ. */
  function MaskOf(before: Option<Row>, after: Option<Row>, cols: set<ColID>): set<ColID> {
    set c | c in cols && Get(before, c) != Get(after, c)
  }

  /** Every row carries exactly the schema's columns. */
  predicate Total(t: Table, cols: set<ColID>) {
    forall pk :: pk in t ==> t[pk].Keys == cols
  }

  predicate TotalChanges(cs: ChangeSet, cols: set<ColID>) {
    forall pk :: pk in cs && cs[pk].op != Delete ==> cs[pk].row.Keys == cols
  }

  // ----- conflicts -----

  datatype ConflictKind = CellConflict | AddAdd | DeleteModify

  /** One unresolved disagreement. A whole-row conflict leaves the column at 0 and
      the three values NULL. */
  datatype Conflict = Conflict(pk: PK, kind: ConflictKind, col: ColID, base: Value, ours: Value, theirs: Value)

  function RowConflict(pk: PK, kind: ConflictKind): Conflict {
    Conflict(pk, kind, 0, Null, Null, Null)
  }

  function KindRank(k: ConflictKind): int {
    match k case CellConflict => 1 case AddAdd => 2 case DeleteModify => 3
  }

  /** On canonical values, Value.Equal is identity: this is what lets the rest of
      the development compare cells with `==`. */
  lemma {:induction false} EqualIsIdentity(v: Value, w: Value)
    ensures ValueEqual(v, w) <==> v == w
  {
  }

  /** Without the canonical form it is not: a NaN differs from itself, and the two
      zeros are equal but distinct. Value.Equal is reflexive exactly off NaN. */
  lemma {:induction false} EqualReflexiveIffNotNaN(v: RawValue)
    ensures ValueEqual(v, v) <==> !(v.Float? && IsNaN(v.bits))
  {
  }

  lemma {:induction false} ZerosAreEqual()
    ensures ValueEqual(Float(0), Float(NEGATIVE_ZERO)) && Float(0) != Float(NEGATIVE_ZERO)
  {
  }
}
