/** Commit ids and the hash chain (internal/hash/hash.go). */
module Commits {
  import opened Wrappers
  import opened Core
  import opened Orders
  import opened Encoding
  import opened Merkle
  import opened Digests

  type RepoID = bs: Bytes | |bs| == 16 witness seq(16, _ => 0)

  /** Everything that determines a commit's identity; the author time is in
      microseconds since the epoch. */
  datatype CommitInput = CommitInput(
    repo: RepoID,
    parents: seq<Digest>,
    changes: Digest,
    schema: Digest,
    author: Bytes,
    micros: Long,
    message: Bytes,
    externalRef: Bytes)

  /** "datagit.commit.v1" */
  const VERSION: Bytes := [100, 97, 116, 97, 103, 105, 116, 46, 99, 111, 109, 109, 105, 116, 46, 118, 49]

  function Hashes(ds: seq<Digest>): (atoms: seq<Atom>)
    ensures |atoms| == |ds| && forall i :: 0 <= i < |ds| ==> atoms[i] == Hashed(ds[i])
  {
    seq(|ds|, i requires 0 <= i < |ds| => Hashed(ds[i]))
  }

  function Header(c: CommitInput): Bytes {
    [TAG_COMMIT] + (LengthPrefixed(VERSION) + (c.repo + U32(|c.parents|)))
  }

  function Footer(c: CommitInput): Bytes {
    LengthPrefixed(c.author) + (U64(Unsigned(c.micros)) + (LengthPrefixed(c.message) + LengthPrefixed(c.externalRef)))
  }

  function CommitAtoms(sorted: seq<Digest>, c: CommitInput): seq<Atom> {
    Raws(Header(c)) + (Hashes(sorted) + (Hashes([c.changes, c.schema]) + Raws(Footer(c))))
  }

  function CommitID(less: (Digest, Digest) -> bool, c: CommitInput): Digest {
    Sha256(CommitAtoms(SortBy(less, c.parents), c))
  }

  // ----- as the source builds it -----

  /** CommitID, as the source appends to a buffer. */
  method BuildCommitID(less: (Digest, Digest) -> bool, c: CommitInput) returns (d: Digest)
    requires TotalOrder(less)
    ensures d == CommitID(less, c)
  {
    var parents := SortBy(less, c.parents);
    SortSorted(less, c.parents);
    var buf := BuildHeader(c.repo, |parents|);
    ghost var head := buf;
    var i := 0;
    assert head + Hashes([]) == head && parents[..0] == [];
    while i < |parents|
      invariant 0 <= i <= |parents| && buf == head + Hashes(parents[..i])
    {
      HashesSnoc(head, parents, i);
      buf := buf + [Hashed(parents[i])];
      i := i + 1;
    }
    assert parents[..i] == parents;
    buf := buf + [Hashed(c.changes)];
    buf := buf + [Hashed(c.schema)];
    var tail := BuildFooter(c);
    PartsJoined(head, Hashes(parents), c.changes, c.schema, Raws(tail));
    return Sha256(buf + Raws(tail));
  }

  method BuildHeader(repo: RepoID, parents: nat) returns (buf: seq<Atom>)
    ensures buf == Raws([TAG_COMMIT] + (LengthPrefixed(VERSION) + (repo + U32(parents))))
  {
    var bytes := [TAG_COMMIT];
    bytes := AppendLenPrefixed(bytes, VERSION);
    bytes := bytes + repo;
    bytes := bytes + U32(parents);
    Joined([TAG_COMMIT] + LengthPrefixed(VERSION), repo, U32(parents));
    Joined([TAG_COMMIT], LengthPrefixed(VERSION), repo + U32(parents));
    return Raws(bytes);
  }

  method BuildFooter(c: CommitInput) returns (buf: Bytes)
    ensures buf == Footer(c)
  {
    buf := AppendLenPrefixed([], c.author);
    buf := buf + U64(Unsigned(c.micros));
    buf := AppendLenPrefixed(buf, c.message);
    buf := AppendLenPrefixed(buf, c.externalRef);
    var a, m, s, r := LengthPrefixed(c.author), U64(Unsigned(c.micros)), LengthPrefixed(c.message), LengthPrefixed(c.externalRef);
    assert [] + a == a;
    Joined(a + m, s, r);
    Joined(a, m, s + r);
  }

  lemma {:induction false} HashesSnoc(head: seq<Atom>, ds: seq<Digest>, i: nat)
    requires i < |ds|
    ensures (head + Hashes(ds[..i])) + [Hashed(ds[i])] == head + Hashes(ds[..i + 1])
  {
    assert Hashes(ds[..i + 1]) == Hashes(ds[..i]) + [Hashed(ds[i])];
  }

  lemma {:induction false} PartsJoined(a: seq<Atom>, b: seq<Atom>, x: Digest, y: Digest, c: seq<Atom>)
    ensures (((a + b) + [Hashed(x)]) + [Hashed(y)]) + c == a + (b + (Hashes([x, y]) + c))
  {
    assert Hashes([x, y]) == [Hashed(x)] + [Hashed(y)];
  }

  // ----- what an id says -----

  /** Lengths fit their 32-bit prefixes. */
  predicate Sized(c: CommitInput) {
    |c.parents| < UINT32 && |c.author| < UINT32 && |c.message| < UINT32 && |c.externalRef| < UINT32
  }

  /** The same commit, parents in any order. */
  predicate SameCommit(c: CommitInput, d: CommitInput) {
    multiset(c.parents) == multiset(d.parents) && c == d.(parents := c.parents)
  }

  lemma {:induction false} HeadersApart(c: CommitInput, d: CommitInput)
    requires |c.parents| < UINT32 && |d.parents| < UINT32
    ensures |Header(c)| == |Header(d)|
    ensures Header(c) == Header(d) <==> c.repo == d.repo && |c.parents| == |d.parents|
  {
    var x, y := c.repo + U32(|c.parents|), d.repo + U32(|d.parents|);
    Apart([TAG_COMMIT], LengthPrefixed(VERSION) + x, [TAG_COMMIT], LengthPrefixed(VERSION) + y);
    Apart(LengthPrefixed(VERSION), x, LengthPrefixed(VERSION), y);
    Apart(c.repo, U32(|c.parents|), d.repo, U32(|d.parents|));
    CountsApart(|c.parents|, |d.parents|);
  }

  lemma {:induction false} FootersApart(c: CommitInput, d: CommitInput)
    requires Sized(c) && Sized(d)
    ensures Footer(c) == Footer(d) <==>
      c.author == d.author && c.micros == d.micros && c.message == d.message && c.externalRef == d.externalRef
  {
    var c2, d2 := LengthPrefixed(c.message) + LengthPrefixed(c.externalRef), LengthPrefixed(d.message) + LengthPrefixed(d.externalRef);
    FramedApart(c.author, U64(Unsigned(c.micros)) + c2, d.author, U64(Unsigned(d.micros)) + d2);
    Apart(U64(Unsigned(c.micros)), c2, U64(Unsigned(d.micros)), d2);
    WordsApart(Unsigned(c.micros), Unsigned(d.micros));
    assert Signed(Unsigned(c.micros)) == c.micros && Signed(Unsigned(d.micros)) == d.micros;
    FramedApart(c.message, LengthPrefixed(c.externalRef), d.message, LengthPrefixed(d.externalRef));
    FramedApart(c.externalRef, [], d.externalRef, []);
    assert LengthPrefixed(c.externalRef) + [] == LengthPrefixed(c.externalRef);
    assert LengthPrefixed(d.externalRef) + [] == LengthPrefixed(d.externalRef);
  }

  lemma {:induction false} HashesInjective(a: seq<Digest>, b: seq<Digest>)
    ensures Hashes(a) == Hashes(b) <==> a == b
  {
    if Hashes(a) == Hashes(b) {
      assert |Hashes(a)| == |Hashes(b)|;
      forall i | 0 <= i < |a|
        ensures a[i] == b[i]
      {
        assert Hashes(a)[i] == Hashes(b)[i];
      }
    }
  }

  lemma {:induction false} AtomsApart(xs: seq<Digest>, c: CommitInput, ys: seq<Digest>, d: CommitInput)
    requires Sized(c) && Sized(d) && |xs| == |c.parents| && |ys| == |d.parents|
    ensures CommitAtoms(xs, c) == CommitAtoms(ys, d) <==> xs == ys && c == d.(parents := c.parents)
  {
    HeadersApart(c, d);
    RawsInjective(Header(c), Header(d));
    var c2, d2 := Hashes([c.changes, c.schema]) + Raws(Footer(c)), Hashes([d.changes, d.schema]) + Raws(Footer(d));
    Apart(Raws(Header(c)), Hashes(xs) + c2, Raws(Header(d)), Hashes(ys) + d2);
    if |xs| == |ys| {
      Apart(Hashes(xs), c2, Hashes(ys), d2);
    }
    HashesInjective(xs, ys);
    Apart(Hashes([c.changes, c.schema]), Raws(Footer(c)), Hashes([d.changes, d.schema]), Raws(Footer(d)));
    HashesInjective([c.changes, c.schema], [d.changes, d.schema]);
    assert [c.changes, c.schema] == [d.changes, d.schema] <==> c.changes == d.changes && c.schema == d.schema by {
      assert [c.changes, c.schema][0] == c.changes && [c.changes, c.schema][1] == c.schema;
      assert [d.changes, d.schema][0] == d.changes && [d.changes, d.schema][1] == d.schema;
    }
    RawsInjective(Footer(c), Footer(d));
    FootersApart(c, d);
  }

  /** A commit id is its inputs: two commits have the same id exactly when repository,
      parents as a multiset, both digests, author, time, message and reference agree. */
  lemma {:induction false} SameIdIffSameCommit(less: (Digest, Digest) -> bool, c: CommitInput, d: CommitInput)
    requires TotalOrder(less) && Sized(c) && Sized(d)
    ensures CommitID(less, c) == CommitID(less, d) <==> SameCommit(c, d)
  {
    SortSorted(less, c.parents);
    SortSorted(less, d.parents);
    AtomsApart(SortBy(less, c.parents), c, SortBy(less, d.parents), d);
    SameSort(less, c.parents, d.parents);
  }

  /** The tags keep the kinds of digest apart: a commit id is never a leaf, an internal
      node, the empty root or a schema digest. */
  lemma {:induction false} TagsApart(less: (Digest, Digest) -> bool, c: CommitInput, t: Word, cols: seq<SchemaColumn>)
    ensures CommitID(less, c).input[..1] == [Raw(TAG_COMMIT)]
    ensures !IsLeaf(CommitID(less, c)) && !IsNode(CommitID(less, c))
    ensures CommitID(less, c) != SchemaDigest(t, cols) && CommitID(less, c) != Sha256([Raw(TAG_EMPTY)])
    ensures !IsLeaf(SchemaDigest(t, cols)) && !IsNode(SchemaDigest(t, cols))
  {
    assert CommitID(less, c).input[0] == Raws(Header(c))[0] == Raw(TAG_COMMIT);
  }

  // ----- verifying a chain -----

  datatype Stored = Stored(id: Digest, input: CommitInput)

  predicate Sound(less: (Digest, Digest) -> bool, c: Stored, purged: set<Digest>) {
    c.id !in purged ==> CommitID(less, c.input) == c.id
  }

  /** VerifyChain: the first commit that is not purged and whose stored id is not the
      hash of its content. */
  method VerifyChain(less: (Digest, Digest) -> bool, commits: seq<Stored>, purged: set<Digest>) returns (bad: Option<nat>)
    requires TotalOrder(less)
    ensures bad.None? <==> forall i :: 0 <= i < |commits| ==> Sound(less, commits[i], purged)
    ensures bad.Some? ==> bad.value < |commits| && !Sound(less, commits[bad.value], purged)
    ensures bad.Some? ==> forall i :: 0 <= i < bad.value ==> Sound(less, commits[i], purged)
  {
    var i := 0;
    while i < |commits|
      invariant 0 <= i <= |commits|
      invariant forall j :: 0 <= j < i ==> Sound(less, commits[j], purged)
    {
      if commits[i].id !in purged {
        var got := BuildCommitID(less, commits[i].input);
        if got != commits[i].id {
          return Some(i);
        }
      }
      i := i + 1;
    }
    return None;
  }

  /** A stored history that verifies: every commit that is not purged is sound and its
      parents are stored. */
  ghost predicate Verified(less: (Digest, Digest) -> bool, store: map<Digest, CommitInput>, purged: set<Digest>) {
    forall id :: id in store && id !in purged ==>
      && Sized(store[id]) && Sound(less, Stored(id, store[id]), purged)
      && forall p :: p in store[id].parents ==> p in store
  }

  /** A walk from a commit to ancestors of it, through commits that are not purged. */
  ghost predicate IsWalk(store: map<Digest, CommitInput>, purged: set<Digest>, path: seq<Digest>) {
    && (forall i :: 0 <= i < |path| ==> path[i] in store && path[i] !in purged)
    && (forall i, j :: 0 <= i < j < |path| && j == i + 1 ==> path[j] in store[path[i]].parents)
  }

  lemma {:induction false} SoundAgree(less: (Digest, Digest) -> bool, s: map<Digest, CommitInput>, t: map<Digest, CommitInput>, purged: set<Digest>, id: Digest)
    requires TotalOrder(less) && Verified(less, s, purged) && Verified(less, t, purged)
    requires id in s && id in t && id !in purged
    ensures SameCommit(s[id], t[id])
    ensures forall p :: p in s[id].parents ==> p in t[id].parents && p in t
  {
    assert Sound(less, Stored(id, s[id]), purged) && Sound(less, Stored(id, t[id]), purged);
    SameIdIffSameCommit(less, s[id], t[id]);
    forall p | p in s[id].parents
      ensures p in t[id].parents && p in t
    {
      assert p in multiset(s[id].parents);
      assert p in multiset(t[id].parents);
    }
  }

  lemma {:induction false} StepAgrees(less: (Digest, Digest) -> bool, s: map<Digest, CommitInput>, t: map<Digest, CommitInput>, purged: set<Digest>, path: seq<Digest>, i: nat)
    requires TotalOrder(less) && Verified(less, s, purged) && Verified(less, t, purged)
    requires i < |path| && path[0] in t && IsWalk(s, purged, path)
    ensures path[i] in t && SameCommit(s[path[i]], t[path[i]])
    ensures i > 0 ==> path[i - 1] in t && path[i] in t[path[i - 1]].parents
    decreases i
  {
    if i > 0 {
      StepAgrees(less, s, t, purged, path, i - 1);
      SoundAgree(less, s, t, purged, path[i - 1]);
    }
    SoundAgree(less, s, t, purged, path[i]);
  }

  /** Tamper evidence: two histories that both verify and share a commit share every
      ancestor reachable from it without crossing a purge, with the same content. */
  lemma {:induction false} HeadFixesHistory(less: (Digest, Digest) -> bool, s: map<Digest, CommitInput>, t: map<Digest, CommitInput>, purged: set<Digest>, path: seq<Digest>)
    requires TotalOrder(less) && Verified(less, s, purged) && Verified(less, t, purged)
    requires path != [] && path[0] in t && IsWalk(s, purged, path)
    ensures IsWalk(t, purged, path)
    ensures forall i :: 0 <= i < |path| ==> SameCommit(s[path[i]], t[path[i]])
  {
    forall i | 0 <= i < |path|
      ensures path[i] in t && SameCommit(s[path[i]], t[path[i]])
    {
      StepAgrees(less, s, t, purged, path, i);
    }
    forall i, j | 0 <= i < j < |path| && j == i + 1
      ensures path[j] in t[path[i]].parents
    {
      StepAgrees(less, s, t, purged, path, j);
    }
  }
}
