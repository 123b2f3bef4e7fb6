/**
 * A rank-based disjoint-set forest over the identifiers 0..n, as kept by
 * `UnionFind` in src/main.rs. The pure part (Forest, Root, Unite) is the
 * specification; the class UnionFind keeps the two vectors as arrays and its
 * methods are proved against that specification.
 *
 * Although the source's comments speak of path compression, its `find` only
 * reads the forest, so nothing here repoints parent entries.
 */
module DisjointSet {

  /** The abstract state of a union-find: `parent` and `rank`, index by index. */
  datatype Forest = Forest(parent: seq<nat>, rank: seq<nat>)

  /**
   * The invariant union by rank keeps: both vectors have one entry per
   * identifier, every parent is an identifier, and rank strictly increases
   * from a non-root node to its parent.
   */
  ghost predicate ValidForest(f: Forest)
  {
    && |f.parent| == |f.rank|
    && (forall i :: 0 <= i < |f.parent| ==> f.parent[i] < |f.parent|)
    && (forall i :: 0 <= i < |f.parent| && f.parent[i] != i ==> f.rank[i] < f.rank[f.parent[i]])
  }

  /** The identifiers whose rank is strictly above that of `i`; shrinks along parent links. */
  ghost function Above(f: Forest, i: nat): set<nat>
    requires i < |f.rank|
  {
    set j: nat | j < |f.rank| && f.rank[j] > f.rank[i]
  }

  lemma AboveShrinks(f: Forest, i: nat)
    requires ValidForest(f) && i < |f.parent| && f.parent[i] != i
    ensures Above(f, f.parent[i]) < Above(f, i)
  {
    var k := f.parent[i];
    assert k in Above(f, i) && k !in Above(f, k);
  }

  /** The representative of `i`: the root reached by following parent links. */
  function Root(f: Forest, i: nat): (r: nat)
    requires ValidForest(f) && i < |f.parent|
    ensures r < |f.parent| && f.parent[r] == r
    ensures f.rank[i] <= f.rank[r]
    decreases Above(f, i)
  {
    if f.parent[i] == i then i
    else
      AboveShrinks(f, i);
      Root(f, f.parent[i])
  }

  /** Two identifiers are in the same class when they have the same representative. */
  ghost predicate Connected(f: Forest, x: nat, y: nat)
    requires ValidForest(f) && x < |f.parent| && y < |f.parent|
  {
    Root(f, x) == Root(f, y)
  }

  /** The forest `new(n)` builds: every identifier its own parent, every rank 0. */
  function Singletons(n: nat): (f: Forest)
    ensures ValidForest(f) && |f.parent| == n
    ensures forall i :: 0 <= i < n ==> f.parent[i] == i && f.rank[i] == 0
  {
    Forest(seq(n, i => i), seq(n, i => 0))
  }

  /** After `new(n)` every identifier is the representative of its own singleton class. */
  lemma SingletonsAreRoots(n: nat, i: nat)
    requires i < n
    ensures Root(Singletons(n), i) == i
  {
  }

  /**
   * What `unite(p, q)` does to the forest: with i, j the roots of p and q,
   * nothing if they are equal; otherwise the root of lower rank is linked
   * under the other; on a tie j goes under i and i's rank goes up by one.
   */
  function Merge(f: Forest, p: nat, q: nat): Forest
    requires ValidForest(f) && p < |f.parent| && q < |f.parent|
  {
    var i := Root(f, p);
    var j := Root(f, q);
    if i == j then f
    else if f.rank[i] < f.rank[j] then Forest(f.parent[i := j], f.rank)
    else if f.rank[i] > f.rank[j] then Forest(f.parent[j := i], f.rank)
    else Forest(f.parent[j := i], f.rank[i := f.rank[i] + 1])
  }

  /** Union by rank keeps the forest invariant (parents in range, rank rising towards the root). */
  lemma UniteValid(f: Forest, p: nat, q: nat)
    requires ValidForest(f) && p < |f.parent| && q < |f.parent|
    ensures ValidForest(Merge(f, p, q)) && |Merge(f, p, q).parent| == |f.parent|
  {
    var i, j := Root(f, p), Root(f, q);
    var g := Merge(f, p, q);
    if i != j {
      forall k | 0 <= k < |g.parent| && g.parent[k] != k
        ensures g.rank[k] < g.rank[g.parent[k]]
      {
        if k != i && k != j {
          assert g.parent[k] == f.parent[k] && g.rank[k] == f.rank[k];
        }
      }
    }
  }

  /**
   * `unite` touches only the two roots: when they coincide the forest is
   * unchanged; otherwise exactly one of them is relinked under the other,
   * which stays a root; the surviving root's rank grows by one exactly on a
   * tie and no other rank changes; every other entry keeps its value.
   */
  lemma UniteFrame(f: Forest, p: nat, q: nat)
    requires ValidForest(f) && p < |f.parent| && q < |f.parent|
    ensures var i, j, g := Root(f, p), Root(f, q), Merge(f, p, q);
      && |g.parent| == |f.parent| && |g.rank| == |f.rank|
      && (i == j ==> g == f)
      && (i != j ==>
            && ((g.parent[i] == j && g.parent[j] == j && g.rank[i] == f.rank[i] && f.rank[i] < f.rank[j])
                || (g.parent[j] == i && g.parent[i] == i && g.rank[j] == f.rank[j] && f.rank[j] <= f.rank[i]))
            && f.rank[j] <= g.rank[j] <= f.rank[j] + 1 && f.rank[i] <= g.rank[i] <= f.rank[i] + 1
            && (g.rank[i] != f.rank[i] || g.rank[j] != f.rank[j] ==> f.rank[i] == f.rank[j])
            && (f.rank[i] == f.rank[j] ==> g.rank[i] == f.rank[i] + 1))
      && (forall k :: 0 <= k < |f.parent| && k != i && k != j ==>
            g.parent[k] == f.parent[k] && g.rank[k] == f.rank[k])
  {
  }

  /**
   * Relinking root `a` under root `b` moves exactly the class of `a` into
   * the class of `b`: every other identifier keeps its representative.
   */
  lemma {:induction false} RootAfterLink(f: Forest, g: Forest, a: nat, b: nat, x: nat)
    requires ValidForest(f) && ValidForest(g) && |g.parent| == |f.parent|
    requires a < |f.parent| && b < |f.parent| && a != b
    requires f.parent[a] == a && f.parent[b] == b
    requires g.parent == f.parent[a := b]
    requires x < |f.parent|
    ensures Root(g, x) == if Root(f, x) == a then b else Root(f, x)
    decreases Above(f, x)
  {
    if f.parent[x] == x {
      if x == a {
        assert Root(g, b) == b;
      }
    } else {
      AboveShrinks(f, x);
      RootAfterLink(f, g, a, b, f.parent[x]);
    }
  }

  /** How `unite(p, q)` maps each old representative to its new one. */
  lemma RootAfterUnite(f: Forest, p: nat, q: nat, x: nat)
    requires ValidForest(f) && p < |f.parent| && q < |f.parent| && x < |f.parent|
    ensures ValidForest(Merge(f, p, q))
    ensures var i, j, r := Root(f, p), Root(f, q), Root(f, x);
      && (Root(Merge(f, p, q), p) == i || Root(Merge(f, p, q), p) == j)
      && Root(Merge(f, p, q), x) == (if r == i || r == j then Root(Merge(f, p, q), p) else r)
  {
    UniteValid(f, p, q);
    var i, j, g := Root(f, p), Root(f, q), Merge(f, p, q);
    if i != j {
      if f.rank[i] < f.rank[j] {
        RootAfterLink(f, g, i, j, x);
        RootAfterLink(f, g, i, j, p);
        RootAfterLink(f, g, i, j, q);
      } else {
        RootAfterLink(f, g, j, i, x);
        RootAfterLink(f, g, j, i, p);
        RootAfterLink(f, g, j, i, q);
      }
    }
  }

  /**
   * After `unite(p, q)`, p and q are connected, and two identifiers are
   * connected exactly when they were before, or each of them was in the
   * class of p or in the class of q.
   */
  lemma UniteConnected(f: Forest, p: nat, q: nat, x: nat, y: nat)
    requires ValidForest(f) && p < |f.parent| && q < |f.parent|
    requires x < |f.parent| && y < |f.parent|
    ensures ValidForest(Merge(f, p, q))
    ensures Connected(Merge(f, p, q), p, q)
    ensures Connected(Merge(f, p, q), x, y) <==>
              || Connected(f, x, y)
              || ((Connected(f, x, p) || Connected(f, x, q)) && (Connected(f, y, p) || Connected(f, y, q)))
  {
    RootAfterUnite(f, p, q, x);
    RootAfterUnite(f, p, q, y);
    RootAfterUnite(f, p, q, q);
    RootAfterUnite(f, p, q, p);
  }

  /**
   * The source's `UnionFind`: two vectors updated in place. `find` only
   * reads them; `unite` writes at most one entry of each.
   */
  class UnionFind {
    var parent: array<nat>
    var rank: array<nat>

    ghost predicate Valid()
      reads this, parent, rank
    {
      parent != rank && ValidForest(Forest(parent[..], rank[..]))
    }

    /** The forest the two arrays hold. */
    ghost function Model(): Forest
      reads this, parent, rank
    {
      Forest(parent[..], rank[..])
    }

    /** `new(n)`: n singleton classes. */
    constructor (n: nat)
      ensures Valid() && fresh(parent) && fresh(rank)
      ensures Model() == Singletons(n)
    {
      parent := new nat[n](i => i);
      rank := new nat[n](i => 0);
    }

    /**
     * `find(i)`: the representative of i. The loop runs at most once, since
     * the recursive call already returns a root.
     */
    method Find(i0: nat) returns (r: nat)
      requires Valid() && i0 < parent.Length
      ensures r < parent.Length && parent[r] == r
      ensures r == Root(Model(), i0)
      decreases Above(Model(), i0)
    {
      var i: nat := i0;
      while i != parent[i]
        invariant i < parent.Length
        invariant i == i0 || parent[i] == i
        invariant Root(Model(), i) == Root(Model(), i0)
        decreases i != parent[i]
      {
        AboveShrinks(Model(), i);
        i := Find(parent[i]);
      }
      r := i;
    }

    /** `unite(p, q)`: merges the classes of p and q by rank. */
    method Unite(p: nat, q: nat)
      requires Valid() && p < parent.Length && q < parent.Length
      modifies parent, rank
      ensures Valid()
      ensures Model() == Merge(old(Model()), p, q)
    {
      var i := Find(p);
      var j := Find(q);
      if i == j {
      } else if rank[i] < rank[j] {
        parent[i] := j;
      } else if rank[i] > rank[j] {
        parent[j] := i;
      } else {
        parent[j] := i;
        rank[i] := rank[i] + 1;
      }
      UniteValid(old(Model()), p, q);
    }
  }

  /** A pair that is connected stays connected through any `unite`. */
  lemma UniteKeepsConnected(f: Forest, p: nat, q: nat, x: nat, y: nat)
    requires ValidForest(f) && p < |f.parent| && q < |f.parent|
    requires x < |f.parent| && y < |f.parent| && Connected(f, x, y)
    ensures ValidForest(Merge(f, p, q)) && Connected(Merge(f, p, q), x, y)
  {
    UniteConnected(f, p, q, x, y);
  }

  /**
   * Uniting (3,4), (4,9), (8,0), (2,3), (5,6), (5,9), (7,3), (4,8), (6,1)
   * over ten identifiers leaves 1 and 3 with the same representative.
   */
  method UniteScenario() returns (r1: nat, r3: nat)
    ensures r1 == r3
  {
    var uf := new UnionFind(10);
    ghost var f := uf.Model();
    uf.Unite(3, 4);
    UniteConnected(f, 3, 4, 3, 4);
    f := uf.Model();
    uf.Unite(4, 9);
    UniteConnected(f, 4, 9, 4, 9);
    UniteKeepsConnected(f, 4, 9, 3, 4);
    f := uf.Model();
    uf.Unite(8, 0);
    UniteKeepsConnected(f, 8, 0, 3, 4);
    UniteKeepsConnected(f, 8, 0, 4, 9);
    f := uf.Model();
    uf.Unite(2, 3);
    UniteKeepsConnected(f, 2, 3, 3, 4);
    UniteKeepsConnected(f, 2, 3, 4, 9);
    f := uf.Model();
    uf.Unite(5, 6);
    UniteConnected(f, 5, 6, 5, 6);
    UniteKeepsConnected(f, 5, 6, 3, 4);
    UniteKeepsConnected(f, 5, 6, 4, 9);
    f := uf.Model();
    uf.Unite(5, 9);
    UniteConnected(f, 5, 9, 5, 9);
    UniteKeepsConnected(f, 5, 9, 3, 4);
    UniteKeepsConnected(f, 5, 9, 4, 9);
    UniteKeepsConnected(f, 5, 9, 5, 6);
    f := uf.Model();
    uf.Unite(7, 3);
    UniteKeepsConnected(f, 7, 3, 3, 4);
    UniteKeepsConnected(f, 7, 3, 4, 9);
    UniteKeepsConnected(f, 7, 3, 5, 6);
    UniteKeepsConnected(f, 7, 3, 5, 9);
    f := uf.Model();
    uf.Unite(4, 8);
    UniteKeepsConnected(f, 4, 8, 3, 4);
    UniteKeepsConnected(f, 4, 8, 4, 9);
    UniteKeepsConnected(f, 4, 8, 5, 6);
    UniteKeepsConnected(f, 4, 8, 5, 9);
    f := uf.Model();
    uf.Unite(6, 1);
    UniteConnected(f, 6, 1, 6, 1);
    UniteKeepsConnected(f, 6, 1, 3, 4);
    UniteKeepsConnected(f, 6, 1, 4, 9);
    UniteKeepsConnected(f, 6, 1, 5, 6);
    UniteKeepsConnected(f, 6, 1, 5, 9);
    r1 := uf.Find(1);
    r3 := uf.Find(3);
  }
}
