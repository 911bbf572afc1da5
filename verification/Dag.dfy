/** The commit graph: ancestors and merge bases. */
module Dag {

  /** Commit id to parent ids. An id outside the map has no parents. */
  type Graph = map<nat, seq<nat>>

  ghost predicate IsPath(g: Graph, path: seq<nat>) {
    && path != []
    && forall i :: 0 <= i < |path| - 1 ==> path[i] in g && path[i + 1] in g[path[i]]
  }

  /** b is a itself or an ancestor of a. */
  ghost predicate Reaches(g: Graph, a: nat, b: nat) {
    exists path :: IsPath(g, path) && path[0] == a && path[|path| - 1] == b
  }

  lemma {:induction false} ReachesSelf(g: Graph, a: nat)
    ensures Reaches(g, a, a)
  {
    assert IsPath(g, [a]) && [a][0] == a && [a][|[a]| - 1] == a;
  }

  lemma {:induction false} ReachesStep(g: Graph, a: nat, b: nat, p: nat)
    requires Reaches(g, a, b) && b in g && p in g[b]
    ensures Reaches(g, a, p)
  {
    var path :| IsPath(g, path) && path[0] == a && path[|path| - 1] == b;
    var longer := path + [p];
    assert IsPath(g, longer) && longer[0] == a && longer[|longer| - 1] == p;
  }

  lemma {:induction false} ReachesTransitive(g: Graph, a: nat, b: nat, c: nat)
    requires Reaches(g, a, b) && Reaches(g, b, c)
    ensures Reaches(g, a, c)
  {
    var p :| IsPath(g, p) && p[0] == a && p[|p| - 1] == b;
    var q :| IsPath(g, q) && q[0] == b && q[|q| - 1] == c;
    var r := p + q[1..];
    forall i | 0 <= i < |r| - 1
      ensures r[i] in g && r[i + 1] in g[r[i]]
    {
      if i >= |p| - 1 {
        assert r[i] == q[i - (|p| - 1)] && r[i + 1] == q[i + 1 - (|p| - 1)];
      }
    }
    assert IsPath(g, r) && r[0] == a && r[|r| - 1] == c;
  }

  /** A set that holds the start and the parents of its members holds everything
      the start reaches. */
  ghost predicate ParentClosed(g: Graph, s: set<nat>) {
    forall x, p :: x in s && x in g && p in g[x] ==> p in s
  }

  lemma {:induction false} ClosedHoldsPath(g: Graph, s: set<nat>, path: seq<nat>)
    requires ParentClosed(g, s) && IsPath(g, path) && path[0] in s
    ensures path[|path| - 1] in s
    decreases |path|
  {
    if |path| > 1 {
      assert path[1] in g[path[0]];
      assert IsPath(g, path[1..]) by {
        assert forall i :: 0 <= i < |path| - 2 ==> path[1..][i] == path[i + 1];
      }
      ClosedHoldsPath(g, s, path[1..]);
    }
  }

  lemma {:induction false} ClosedHolds(g: Graph, s: set<nat>, a: nat, b: nat)
    requires ParentClosed(g, s) && a in s && Reaches(g, a, b)
    ensures b in s
  {
    var path :| IsPath(g, path) && path[0] == a && path[|path| - 1] == b;
    ClosedHoldsPath(g, s, path);
  }

  /** Every id a walk from the start can meet. */
  function Universe(g: Graph, start: nat): set<nat> {
    {start} + set x, i | x in g && 0 <= i < |g[x]| :: g[x][i]
  }

  lemma {:induction false} UniverseClosed(g: Graph, start: nat)
    ensures ParentClosed(g, Universe(g, start))
  {
    forall x, p | x in g && p in g[x]
      ensures p in Universe(g, start)
    {
      var i :| 0 <= i < |g[x]| && g[x][i] == p;
    }
  }

  /** The reflexive ancestor set. */
  ghost function Ancestors(g: Graph, a: nat): (s: set<nat>)
    ensures forall x :: x in s <==> Reaches(g, a, x)
  {
    assert forall x :: Reaches(g, a, x) ==> x in Universe(g, a) by {
      UniverseClosed(g, a);
      forall x | Reaches(g, a, x) {
        ClosedHolds(g, Universe(g, a), a, x);
      }
    }
    set x | x in Universe(g, a) && Reaches(g, a, x)
  }

  // ----- the engine's breadth-first walk -----

  /** The frontier invariant: everything found is an ancestor, and everything found
      is still queued or has all its parents found. */
  ghost predicate Frontier(g: Graph, start: nat, found: set<nat>, queue: seq<nat>) {
    && start in found && found <= Universe(g, start)
    && (forall x :: x in queue ==> x in found)
    && (forall x :: x in found ==> Reaches(g, start, x))
    && (forall x :: x in found && x !in queue && x in g ==> ParentsIn(g, x, found))
  }

  ghost predicate ParentsIn(g: Graph, x: nat, found: set<nat>)
    requires x in g
  {
    forall p :: p in g[x] ==> p in found
  }

  /** Every frontier a walk from the start can have. */
  ghost function Frontiers(g: Graph, start: nat): iset<(set<nat>, seq<nat>)> {
    iset f: (set<nat>, seq<nat>) | Frontier(g, start, f.0, f.1)
  }

  lemma {:induction false} FrontierStarts(g: Graph, start: nat)
    ensures ({start}, [start]) in Frontiers(g, start)
  {
    ReachesSelf(g, start);
  }

  lemma {:induction false} FrontierAdds(g: Graph, start: nat, found: set<nat>, cur: nat, queue: seq<nat>, p: nat)
    requires (found, [cur] + queue) in Frontiers(g, start) && cur in g && p in g[cur]
    ensures (found + {p}, [cur] + (queue + [p])) in Frontiers(g, start)
  {
    assert cur in [cur] + queue;
    ReachesStep(g, start, cur, p);
    UniverseClosed(g, start);
    var longer := [cur] + (queue + [p]);
    assert longer == [cur] + queue + [p];
    forall x | x in found + {p} && x !in longer && x in g
      ensures ParentsIn(g, x, found + {p})
    {
      assert x in found && x !in [cur] + queue;
    }
  }

  lemma {:induction false} FrontierDone(g: Graph, start: nat, found: set<nat>, cur: nat, queue: seq<nat>)
    requires (found, [cur] + queue) in Frontiers(g, start)
    requires cur in g ==> ParentsIn(g, cur, found)
    ensures (found, queue) in Frontiers(g, start)
  {
    forall x | x in found && x !in queue && x in g
      ensures ParentsIn(g, x, found)
    {
      assert x != cur ==> x !in [cur] + queue;
    }
    forall x | x in queue
      ensures x in found
    {
      assert x in [cur] + queue;
    }
  }

  /** With nothing queued, what was found is the ancestor set. */
  lemma {:induction false} FrontierEnds(g: Graph, start: nat, found: set<nat>)
    requires (found, []) in Frontiers(g, start)
    ensures found == Ancestors(g, start)
  {
    assert ParentClosed(g, found);
    forall x | Reaches(g, start, x) {
      ClosedHolds(g, found, start, x);
    }
  }

  lemma {:induction false} FrontierBounded(g: Graph, start: nat, found: set<nat>, queue: seq<nat>)
    requires (found, queue) in Frontiers(g, start)
    ensures found <= Universe(g, start) && forall x :: x in queue ==> x in found
  {
  }

  function Elements(xs: seq<nat>): set<nat> {
    set x | x in xs
  }

  lemma {:induction false} FrontierAddsAll(g: Graph, start: nat, found: set<nat>, cur: nat, queue: seq<nat>, more: seq<nat>)
    requires (found, [cur] + queue) in Frontiers(g, start) && cur in g && forall p :: p in more ==> p in g[cur]
    ensures (found + Elements(more), [cur] + (queue + more)) in Frontiers(g, start)
    decreases |more|
  {
    if more == [] {
      assert found + Elements(more) == found && queue + more == queue;
    } else {
      var init, p := more[..|more| - 1], more[|more| - 1];
      assert more == init + [p];
      FrontierAddsAll(g, start, found, cur, queue, init);
      FrontierAdds(g, start, found + Elements(init), cur, queue + init, p);
      assert found + Elements(init) + {p} == found + Elements(more);
      assert queue + init + [p] == queue + more;
    }
  }

  /** Visiting one commit: its unseen parents join the queue, each once. */
  method Visit(parents: seq<nat>, cur: nat, dist: map<nat, nat>, queue: seq<nat>)
    returns (dist': map<nat, nat>, queue': seq<nat>, ghost more: seq<nat>)
    requires cur in dist
    ensures queue' == queue + more && dist'.Keys == dist.Keys + Elements(more)
    ensures forall p :: p in more ==> p in parents && p !in dist
    ensures forall p :: p in parents ==> p in dist'
  {
    dist', queue', more := dist, queue, [];
    assert queue + [] == queue;
    var i := 0;
    while i < |parents|
      invariant 0 <= i <= |parents| && cur in dist'
      invariant queue' == queue + more && dist'.Keys == dist.Keys + Elements(more)
      invariant forall p :: p in more ==> p in parents && p !in dist
      invariant forall j :: 0 <= j < i ==> parents[j] in dist'
    {
      var p := parents[i];
      if p !in dist' {
        dist' := dist'[p := dist'[cur] + 1];
        queue' := queue' + [p];
        assert queue + more + [p] == queue + (more + [p]);
        assert Elements(more + [p]) == Elements(more) + {p};
        more := more + [p];
      }
      i := i + 1;
    }
  }

  lemma {:induction false} FrontierVisit(g: Graph, start: nat, found: set<nat>, cur: nat, queue: seq<nat>, more: seq<nat>)
    requires (found, [cur] + queue) in Frontiers(g, start) && cur in g
    requires forall p :: p in more ==> p in g[cur] && p !in found
    requires forall p :: p in g[cur] ==> p in found + Elements(more)
    ensures (found + Elements(more), queue + more) in Frontiers(g, start)
    ensures found + Elements(more) == found ==> more == []
  {
    FrontierAddsAll(g, start, found, cur, queue, more);
    FrontierDone(g, start, found + Elements(more), cur, queue + more);
    assert more != [] ==> more[0] in Elements(more);
  }

  /** reach: breadth-first search from a commit. It terminates on any graph and
      finds exactly the ancestors. */
  method Reach(g: Graph, start: nat) returns (dist: map<nat, nat>)
    ensures dist.Keys == Ancestors(g, start)
  {
    dist := map[start := 0];
    var queue := [start];
    FrontierStarts(g, start);
    assert dist.Keys == {start};
    while queue != []
      invariant (dist.Keys, queue) in Frontiers(g, start)
      decreases Universe(g, start) - dist.Keys, |queue|
    {
      var cur := queue[0];
      assert queue == [cur] + queue[1..];
      FrontierBounded(g, start, dist.Keys, queue);
      if cur in g {
        ghost var found, more := dist.Keys, [];
        var rest := queue[1..];
        dist, queue, more := Visit(g[cur], cur, dist, rest);
        FrontierVisit(g, start, found, cur, rest, more);
      } else {
        FrontierDone(g, start, dist.Keys, cur, queue[1..]);
        queue := queue[1..];
      }
      FrontierBounded(g, start, dist.Keys, queue);
    }
    FrontierEnds(g, start, dist.Keys);
  }

  // ----- the model's depth-first walk -----

  /** Everything added by a walk has its parents in the result. */
  ghost predicate Explored(g: Graph, before: set<nat>, after: set<nat>) {
    && before <= after
    && forall x, p :: x in after && x !in before && x in g && p in g[x] ==> p in after
  }

  method Walk(g: Graph, id: nat, seen: set<nat>) returns (seen': set<nat>)
    ensures id in seen' && Explored(g, seen, seen')
    ensures forall x :: x in seen' && x !in seen ==> Reaches(g, id, x)
    decreases g.Keys - seen, 1
  {
    if id in seen {
      return seen;
    }
    ReachesSelf(g, id);
    seen' := seen + {id};
    if id in g {
      var i := 0;
      while i < |g[id]|
        invariant 0 <= i <= |g[id]|
        invariant seen + {id} <= seen'
        invariant forall j :: 0 <= j < i ==> g[id][j] in seen'
        invariant forall x, p :: x in seen' && x !in seen && x != id && x in g && p in g[x] ==> p in seen'
        invariant forall x :: x in seen' && x !in seen ==> Reaches(g, id, x)
      {
        var p := g[id][i];
        ghost var prev := seen';
        seen' := Walk(g, p, seen');
        ReachesStep(g, id, id, p);
        forall x | x in seen' && x !in prev
          ensures Reaches(g, id, x)
        {
          ReachesTransitive(g, id, p, x);
        }
        i := i + 1;
      }
    }
  }

  method CollectAncestors(g: Graph, commit: nat) returns (seen: set<nat>)
    ensures seen == Ancestors(g, commit)
  {
    seen := Walk(g, commit, {});
    assert ParentClosed(g, seen);
    forall x | Reaches(g, commit, x) {
      ClosedHolds(g, seen, commit, x);
    }
  }

  // ----- merge bases -----

  ghost predicate Common(g: Graph, a: nat, b: nat, x: nat) {
    Reaches(g, a, x) && Reaches(g, b, x)
  }

  ghost predicate Dominated(g: Graph, common: set<nat>, c: nat) {
    exists o :: o in common && o != c && Reaches(g, o, c)
  }

  ghost function MergeBases(g: Graph, a: nat, b: nat): set<nat> {
    var common := Ancestors(g, a) * Ancestors(g, b);
    set c | c in common && !Dominated(g, common, c)
  }

  /** Parents are always older: ids grow along every edge. */
  ghost predicate Downward(g: Graph) {
    forall x, p :: x in g && p in g[x] ==> p < x
  }

  lemma {:induction false} PathDescends(g: Graph, path: seq<nat>)
    requires Downward(g) && IsPath(g, path)
    ensures path[|path| - 1] <= path[0] && (|path| > 1 ==> path[|path| - 1] < path[0])
    decreases |path|
  {
    if |path| > 1 {
      assert path[1] in g[path[0]];
      assert IsPath(g, path[1..]) by {
        assert forall i :: 0 <= i < |path| - 2 ==> path[1..][i] == path[i + 1];
      }
      PathDescends(g, path[1..]);
    }
  }

  lemma {:induction false} ReachesDescends(g: Graph, a: nat, b: nat)
    requires Downward(g) && Reaches(g, a, b)
    ensures b <= a && (b != a ==> b < a)
  {
    var path :| IsPath(g, path) && path[0] == a && path[|path| - 1] == b;
    PathDescends(g, path);
  }

  /** No merge base is an ancestor of another. */
  lemma {:induction false} BasesAntichain(g: Graph, a: nat, b: nat, x: nat, y: nat)
    requires x in MergeBases(g, a, b) && y in MergeBases(g, a, b) && x != y
    ensures Common(g, a, b, x) && !Reaches(g, x, y)
  {
  }

  /** Every common ancestor is reached from some merge base. */
  lemma {:induction false} BasesCover(g: Graph, a: nat, b: nat, x: nat) returns (base: nat)
    requires Downward(g) && Common(g, a, b, x)
    ensures base in MergeBases(g, a, b) && Reaches(g, base, x)
    decreases a - x
  {
    var common := Ancestors(g, a) * Ancestors(g, b);
    ReachesDescends(g, a, x);
    if Dominated(g, common, x) {
      var o :| o in common && o != x && Reaches(g, o, x);
      ReachesDescends(g, o, x);
      ReachesDescends(g, a, o);
      base := BasesCover(g, a, b, o);
      ReachesTransitive(g, base, o, x);
    } else {
      ReachesSelf(g, x);
      base := x;
    }
  }

  /** A commit in every history: the root every commit descends from. */
  ghost predicate Rooted(g: Graph, root: nat) {
    forall x :: x in g ==> Reaches(g, x, root)
  }

  /** So two known commits always have a merge base. */
  lemma {:induction false} BasesExist(g: Graph, a: nat, b: nat, root: nat)
    requires Downward(g) && Rooted(g, root) && a in g && b in g
    ensures MergeBases(g, a, b) != {}
  {
    assert Common(g, a, b, root);
    var base := BasesCover(g, a, b, root);
  }

  /** When one head already contains the other, that other is the only base. */
  lemma {:induction false} BaseOfAncestor(g: Graph, a: nat, b: nat)
    requires Downward(g) && Reaches(g, a, b)
    ensures MergeBases(g, a, b) == {b} && MergeBases(g, b, a) == {b}
  {
    ReachesSelf(g, b);
    var common := Ancestors(g, a) * Ancestors(g, b);
    forall o | o in common && o != b
      ensures !Reaches(g, o, b)
    {
      ReachesDescends(g, b, o);
      if Reaches(g, o, b) {
        ReachesDescends(g, o, b);
      }
    }
    assert b in MergeBases(g, a, b);
    assert Ancestors(g, b) * Ancestors(g, a) == common;
  }

  method FindMergeBases(g: Graph, a: nat, b: nat, common: set<nat>) returns (bases: set<nat>)
    requires common == Ancestors(g, a) * Ancestors(g, b)
    ensures bases == MergeBases(g, a, b)
  {
    bases := {};
    var rest := common;
    while rest != {}
      invariant rest <= common
      invariant bases == set c | c in common - rest && !Dominated(g, common, c)
      decreases rest
    {
      var c :| c in rest;
      var dominated := false;
      var others := common;
      while others != {} && !dominated
        invariant others <= common
        invariant dominated <==> exists o :: o in common - others && o != c && Reaches(g, o, c)
        decreases others, !dominated
      {
        var o :| o in others;
        if o != c {
          var from := Reach(g, o);
          if c in from {
            dominated := true;
          }
        }
        others := others - {o};
      }
      assert dominated <==> Dominated(g, common, c);
      if !dominated {
        bases := bases + {c};
      }
      rest := rest - {c};
    }
    assert common - rest == common;
  }
}
