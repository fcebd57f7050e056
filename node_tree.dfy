/**
 * The hierarchical landmark tree: groups that hold an ordered list of
 * children, and the two kinds of leaf (point landmarks and line features).
 * Both searches scope themselves with the dotted-path rule of `Paths`.
 */
module NodeTree {
  import opened Wrappers
  import opened Geometry
  import opened Paths

  /** A leaf of the tree: a point landmark or a line feature. */
  datatype Feature =
    | LandmarkNode(caption: string, params: Gaussian)
    | LineNode(caption: string, line: Line, height: real)

  /** A tree node: a group with its children in insertion order, or a leaf. */
  datatype Node =
    | Group(caption: string, children: seq<Node>)
    | Leaf(feature: Feature)

  // ---------------------------------------------------------------------------
  // Leaf collection

  /**
   * The leaves `getLeafs(path)` collects below `n`. A group that is in scope
   * hands the rest of the path to every child; a leaf child is taken as it
   * is, whatever its caption.
   */
  function Leafs(n: Node, path: string): seq<Feature>
    decreases n, 1, 0
  {
    match n
    case Leaf(_) => []
    case Group(caption, children) =>
      if InScope(caption, path) then LeafsOf(n, |children|, Split(path).next) else []
  }

  /** What the first `k` children of group `g` contribute, searched along `next`. */
  function LeafsOf(g: Node, k: nat, next: string): seq<Feature>
    requires g.Group? && k <= |g.children|
    decreases g, 0, k
  {
    if k == 0 then [] else LeafsOf(g, k - 1, next) + Reach(g.children[k - 1], next)
  }

  /** What one child contributes: itself if it is a leaf, its own leaves if it is a group. */
  function Reach(c: Node, next: string): seq<Feature>
    decreases c, 2, 0
  {
    match c
    case Leaf(f) => [f]
    case Group(_, _) => Leafs(c, next)
  }

  /** Every leaf below `n`, depth first and in child order, with no scoping at all. */
  function AllFeatures(n: Node): seq<Feature>
    decreases n, 1
  {
    match n
    case Leaf(f) => [f]
    case Group(_, children) => AllFeaturesOf(n, |children|)
  }

  function AllFeaturesOf(g: Node, k: nat): seq<Feature>
    requires g.Group? && k <= |g.children|
    decreases g, 0, k
  {
    if k == 0 then [] else AllFeaturesOf(g, k - 1) + AllFeatures(g.children[k - 1])
  }

  /** A group whose caption differs from a non-empty first segment collects nothing. */
  lemma LeafsOutOfScope(g: Node, path: string)
    requires g.Group? && !InScope(g.caption, path)
    ensures Leafs(g, path) == []
  {
  }

  /** With an empty path, `getLeafs` returns exactly every leaf of the tree, depth first. */
  lemma {:induction false} LeafsUnscoped(n: Node)
    requires n.Group?
    ensures Leafs(n, "") == AllFeatures(n)
    decreases n, 1, 0
  {
    EmptyCurrentIsWildcard(n.caption, "");
    LeafsOfUnscoped(n, |n.children|);
  }

  lemma {:induction false} LeafsOfUnscoped(g: Node, k: nat)
    requires g.Group? && k <= |g.children|
    ensures LeafsOf(g, k, "") == AllFeaturesOf(g, k)
    decreases g, 0, k
  {
    if k > 0 {
      LeafsOfUnscoped(g, k - 1);
      var c := g.children[k - 1];
      if c.Group? {
        LeafsUnscoped(c);
      }
    }
  }

  /**
   * The leaves collected from an in-scope group are, in order, what each
   * child contributes: so a leaf child sits right after the leaves of the
   * children before it, whatever its caption.
   */
  lemma {:induction false} LeafChildCollected(g: Node, path: string, i: nat)
    requires g.Group? && InScope(g.caption, path)
    requires i < |g.children| && g.children[i].Leaf?
    ensures var next := Split(path).next;
      LeafsOf(g, i, next) + [g.children[i].feature] <= Leafs(g, path)
  {
    var next := Split(path).next;
    LeafsOfPrefix(g, i + 1, |g.children|, next);
    assert LeafsOf(g, i + 1, next) == LeafsOf(g, i, next) + [g.children[i].feature];
  }

  lemma {:induction false} LeafsOfPrefix(g: Node, j: nat, k: nat, next: string)
    requires g.Group? && j <= k <= |g.children|
    ensures LeafsOf(g, j, next) <= LeafsOf(g, k, next)
    decreases k - j
  {
    if j < k {
      LeafsOfPrefix(g, j, k - 1, next);
    }
  }

  // ---------------------------------------------------------------------------
  // Nearest-distance search

  /** A search result: the winning leaf, if any, and its score. */
  datatype Hit = Hit(node: Option<Feature>, score: real)

  function Pow2(k: nat): (r: real)
    ensures r >= 1.0
  {
    if k == 0 then 1.0 else 2.0 * Pow2(k - 1)
  }

  /** The exponent of the smallest positive normalised double. */
  const MinExponent: nat := 1022

  /** The smallest positive normalised double, 2^-1022 (`numeric_limits<double>::min()`). */
  const DoubleMin: real := 1.0 / Pow2(MinExponent)

  /** The result of a search that found nothing: a null node with the score `DoubleMin`. */
  const Sentinel: Hit := Hit(None, DoubleMin)

  /** The score a leaf reports for the query point `v`. */
  function Score(f: Feature, m: Metric, v: Vec3): real
  {
    match f
    case LandmarkNode(_, params) => m.mahalanobis(params, v)
    case LineNode(_, line, height) => m.lineScore(line, height, v)
  }

  /** A leaf's own answer to the search: itself and its score; the path is ignored. */
  function LeafHit(f: Feature, m: Metric, v: Vec3): Hit
  {
    Hit(Some(f), Score(f, m, v))
  }

  /** One step of the running maximum: `tmp` replaces `held` only when strictly greater. */
  function Better(held: Hit, tmp: Hit): Hit
  {
    if tmp.score > held.score then tmp else held
  }

  lemma BetterAssociative(a: Hit, b: Hit, c: Hit)
    ensures Better(Better(a, b), c) == Better(a, Better(b, c))
  {
  }

  /**
   * `getNearestDistance(path, v)` on `n`: an in-scope group keeps, from the
   * sentinel on, each child result that is strictly greater than the one held.
   */
  function Nearest(n: Node, path: string, m: Metric, v: Vec3): Hit
    decreases n, 1, 0
  {
    match n
    case Leaf(f) => LeafHit(f, m, v)
    case Group(caption, children) =>
      if InScope(caption, path) then NearestOf(n, |children|, Split(path).next, m, v) else Sentinel
  }

  /** The running maximum after the first `k` children of group `g`. */
  function NearestOf(g: Node, k: nat, next: string, m: Metric, v: Vec3): Hit
    requires g.Group? && k <= |g.children|
    decreases g, 0, k
  {
    if k == 0 then Sentinel
    else Better(NearestOf(g, k - 1, next, m, v), Nearest(g.children[k - 1], next, m, v))
  }

  /**
   * A leaf answers the search with itself whatever the path says: a landmark
   * with its Mahalanobis distance to the query point, a line with its score.
   */
  lemma LeafAnswersItself(f: Feature, path: string, m: Metric, v: Vec3)
    ensures Nearest(Leaf(f), path, m, v) == Nearest(Leaf(f), "", m, v)
    ensures f.LandmarkNode? ==> Nearest(Leaf(f), path, m, v) == Hit(Some(f), m.mahalanobis(f.params, v))
    ensures f.LineNode? ==> Nearest(Leaf(f), path, m, v) == Hit(Some(f), m.lineScore(f.line, f.height, v))
  {
  }

  /** The reference search: one pass over a flat list of leaves, from `held` on. */
  function ScanFrom(held: Hit, leaves: seq<Feature>, m: Metric, v: Vec3): Hit
    decreases |leaves|
  {
    if leaves == [] then held
    else Better(ScanFrom(held, leaves[..|leaves| - 1], m, v), LeafHit(leaves[|leaves| - 1], m, v))
  }

  function BestOf(leaves: seq<Feature>, m: Metric, v: Vec3): Hit
  {
    ScanFrom(Sentinel, leaves, m, v)
  }

  /** A single leaf that beats the sentinel is the answer of the flat pass. */
  lemma SingleLeafWins(f: Feature, m: Metric, v: Vec3)
    requires Score(f, m, v) > DoubleMin
    ensures BestOf([f], m, v) == LeafHit(f, m, v)
  {
    assert [f][..|[f]| - 1] == [];
    assert ScanFrom(Sentinel, [], m, v) == Sentinel;
    assert BestOf([f], m, v) == Better(Sentinel, LeafHit(f, m, v));
  }

  /** Leaf `i` has the greatest score, beats the sentinel, and every earlier leaf scores strictly less. */
  ghost predicate EarliestMaximum(leaves: seq<Feature>, i: int, m: Metric, v: Vec3)
  {
    && 0 <= i < |leaves|
    && Score(leaves[i], m, v) > DoubleMin
    && (forall j :: 0 <= j < |leaves| ==> Score(leaves[j], m, v) <= Score(leaves[i], m, v))
    && (forall j :: 0 <= j < i ==> Score(leaves[j], m, v) < Score(leaves[i], m, v))
  }

  /**
   * What the flat pass returns: the sentinel exactly when no leaf scores above
   * `DoubleMin`, and otherwise the earliest leaf of greatest score.
   */
  lemma {:induction false} BestOfIsEarliestMaximum(leaves: seq<Feature>, m: Metric, v: Vec3)
    ensures var h := BestOf(leaves, m, v);
      || (h == Sentinel && forall j :: 0 <= j < |leaves| ==> Score(leaves[j], m, v) <= DoubleMin)
      || (exists i :: EarliestMaximum(leaves, i, m, v) && h == LeafHit(leaves[i], m, v))
    decreases |leaves|
  {
    if leaves != [] {
      var n := |leaves| - 1;
      var init := leaves[..n];
      BestOfIsEarliestMaximum(init, m, v);
      var prev := BestOf(init, m, v);
      var last := LeafHit(leaves[n], m, v);
      assert BestOf(leaves, m, v) == Better(prev, last);
      if last.score > prev.score {
        LastTakesOver(leaves, m, v);
        assert EarliestMaximum(leaves, n, m, v) && BestOf(leaves, m, v) == LeafHit(leaves[n], m, v);
      } else if prev != Sentinel {
        var i :| EarliestMaximum(init, i, m, v) && prev == LeafHit(init[i], m, v);
        EarlierKeeps(leaves, i, m, v);
        assert EarliestMaximum(leaves, i, m, v) && BestOf(leaves, m, v) == LeafHit(leaves[i], m, v);
      } else {
        SentinelStays(leaves, init, m, v);
      }
    }
  }

  /** When no earlier leaf and not the last one beat `DoubleMin`, no leaf does. */
  lemma SentinelStays(leaves: seq<Feature>, init: seq<Feature>, m: Metric, v: Vec3)
    requires leaves != [] && init == leaves[..|leaves| - 1]
    requires forall j :: 0 <= j < |init| ==> Score(init[j], m, v) <= DoubleMin
    requires Score(leaves[|leaves| - 1], m, v) <= DoubleMin
    ensures forall j :: 0 <= j < |leaves| ==> Score(leaves[j], m, v) <= DoubleMin
  {
    assert forall j :: 0 <= j < |init| ==> leaves[j] == init[j];
  }

  /** A last leaf scoring above the pass over the others is the earliest maximum. */
  lemma LastTakesOver(leaves: seq<Feature>, m: Metric, v: Vec3)
    requires leaves != []
    requires var init := leaves[..|leaves| - 1]; var prev := BestOf(init, m, v);
      && Score(leaves[|leaves| - 1], m, v) > prev.score
      && (|| (prev == Sentinel && forall j :: 0 <= j < |init| ==> Score(init[j], m, v) <= DoubleMin)
          || (exists i :: EarliestMaximum(init, i, m, v) && prev == LeafHit(init[i], m, v)))
    ensures EarliestMaximum(leaves, |leaves| - 1, m, v)
  {
    var n := |leaves| - 1;
    var init := leaves[..n];
    assert forall j :: 0 <= j < n ==> leaves[j] == init[j];
    if BestOf(init, m, v) != Sentinel {
      var i :| EarliestMaximum(init, i, m, v) && BestOf(init, m, v) == LeafHit(init[i], m, v);
    }
  }

  /** An earliest maximum of all but the last leaf stays one when the last leaf scores no higher. */
  lemma EarlierKeeps(leaves: seq<Feature>, i: int, m: Metric, v: Vec3)
    requires leaves != []
    requires EarliestMaximum(leaves[..|leaves| - 1], i, m, v)
    requires Score(leaves[|leaves| - 1], m, v) <= Score(leaves[i], m, v)
    ensures EarliestMaximum(leaves, i, m, v)
  {
    var n := |leaves| - 1;
    assert forall j :: 0 <= j < n ==> leaves[j] == leaves[..n][j];
  }

  lemma {:induction false} ScanAppend(held: Hit, a: seq<Feature>, b: seq<Feature>, m: Metric, v: Vec3)
    ensures ScanFrom(held, a + b, m, v) == ScanFrom(ScanFrom(held, a, m, v), b, m, v)
    decreases |b|
  {
    if b == [] {
      assert a + b == a;
    } else {
      var n := |b| - 1;
      assert (a + b)[..|a + b| - 1] == a + b[..n];
      ScanAppend(held, a, b[..n], m, v);
    }
  }

  lemma {:induction false} ScanNeverBelow(held: Hit, b: seq<Feature>, m: Metric, v: Vec3)
    ensures ScanFrom(held, b, m, v).score >= held.score
    decreases |b|
  {
    if b != [] {
      ScanNeverBelow(held, b[..|b| - 1], m, v);
    }
  }

  /** Continuing a pass from a held result is keeping the better of it and a fresh pass. */
  lemma {:induction false} ScanAbsorb(held: Hit, b: seq<Feature>, m: Metric, v: Vec3)
    requires held.score >= DoubleMin
    ensures ScanFrom(held, b, m, v) == Better(held, BestOf(b, m, v))
    decreases |b|
  {
    if b != [] {
      var n := |b| - 1;
      ScanAbsorb(held, b[..n], m, v);
      BetterAssociative(held, BestOf(b[..n], m, v), LeafHit(b[n], m, v));
    }
  }

  /**
   * The tree search on a group is the flat pass over the leaves it collects:
   * recursing through nested groups changes neither the winner nor ties.
   */
  lemma {:induction false} NearestIsBestOfLeafs(g: Node, path: string, m: Metric, v: Vec3)
    requires g.Group?
    ensures Nearest(g, path, m, v) == BestOf(Leafs(g, path), m, v)
    decreases g, 1, 0
  {
    if InScope(g.caption, path) {
      NearestOfIsBestOf(g, |g.children|, Split(path).next, m, v);
    }
  }

  lemma {:induction false} NearestOfIsBestOf(g: Node, k: nat, next: string, m: Metric, v: Vec3)
    requires g.Group? && k <= |g.children|
    ensures NearestOf(g, k, next, m, v) == BestOf(LeafsOf(g, k, next), m, v)
    decreases g, 0, k
  {
    if k > 0 {
      NearestOfIsBestOf(g, k - 1, next, m, v);
      var a := LeafsOf(g, k - 1, next);
      var c := g.children[k - 1];
      var r := Reach(c, next);
      var held := BestOf(a, m, v);
      ScanAppend(Sentinel, a, r, m, v);
      ScanNeverBelow(Sentinel, a, m, v);
      ScanAbsorb(held, r, m, v);
      match c
      case Group(_, _) =>
        NearestIsBestOfLeafs(c, next, m, v);
      case Leaf(f) =>
        assert [f][..0] == [];
        BetterAssociative(held, Sentinel, LeafHit(f, m, v));
    }
  }

  /**
   * `getNearestDistance` on a group returns the sentinel exactly when no
   * in-scope leaf scores above `DoubleMin`; otherwise it returns the in-scope
   * leaf of greatest score, the earliest one on a tie.
   */
  lemma NearestIsEarliestMaximum(g: Node, path: string, m: Metric, v: Vec3)
    requires g.Group?
    ensures var h := Nearest(g, path, m, v);
      var leaves := Leafs(g, path);
      || (h == Sentinel && forall j :: 0 <= j < |leaves| ==> Score(leaves[j], m, v) <= DoubleMin)
      || (exists i :: EarliestMaximum(leaves, i, m, v) && h == LeafHit(leaves[i], m, v))
  {
    NearestIsBestOfLeafs(g, path, m, v);
    BestOfIsEarliestMaximum(Leafs(g, path), m, v);
  }

  /** A group out of scope answers the sentinel, for every query point. */
  lemma NearestOutOfScope(g: Node, path: string, m: Metric, v: Vec3)
    requires g.Group? && !InScope(g.caption, path)
    ensures Nearest(g, path, m, v) == Sentinel
  {
  }

  /**
   * Because the sentinel's score is positive, leaves that score zero never
   * win: if none scores above zero the search returns the sentinel.
   */
  lemma ZeroScoresReturnSentinel(g: Node, path: string, m: Metric, v: Vec3)
    requires g.Group?
    requires forall f :: f in Leafs(g, path) ==> Score(f, m, v) <= 0.0
    ensures Nearest(g, path, m, v) == Sentinel
  {
    NearestIsEarliestMaximum(g, path, m, v);
    var leaves := Leafs(g, path);
    assert DoubleMin > 0.0;
    assert forall j :: 0 <= j < |leaves| ==> leaves[j] in leaves;
  }

  // ---------------------------------------------------------------------------
  // The searches as the source runs them

  /** `Node::getLeafs`: a loop over the children that appends what each contributes. */
  method GetLeafs(n: Node, path: string) returns (nodes: seq<Feature>)
    ensures nodes == Leafs(n, path)
    decreases n
  {
    nodes := [];
    if n.Group? {
      var s := Split(path);
      if n.caption == s.current || s.current == "" {
        var i := 0;
        while i < |n.children|
          invariant 0 <= i <= |n.children|
          invariant nodes == LeafsOf(n, i, s.next)
        {
          var child := n.children[i];
          match child {
            case Group(_, _) =>
              var sub := GetLeafs(child, s.next);
              nodes := nodes + sub;
            case Leaf(f) =>
              nodes := nodes + [f];
          }
          i := i + 1;
        }
      }
    }
  }

  /** `Node::getNearestDistance` and, for a leaf, `LandmarkNode::getNearestDistance`. */
  method GetNearestDistance(n: Node, path: string, m: Metric, v: Vec3) returns (max: Hit)
    ensures max == Nearest(n, path, m, v)
    decreases n
  {
    if n.Leaf? {
      return LeafHit(n.feature, m, v);
    }
    var s := Split(path);
    max := Sentinel;
    if n.caption == s.current || s.current == "" {
      var i := 0;
      while i < |n.children|
        invariant 0 <= i <= |n.children|
        invariant max == NearestOf(n, i, s.next, m, v)
      {
        var tmp := GetNearestDistance(n.children[i], s.next, m, v);
        assert NearestOf(n, i + 1, s.next, m, v) == Better(max, tmp);
        if tmp.score > max.score {
          max := tmp;
        }
        i := i + 1;
      }
      assert InScope(n.caption, path);
    } else {
      assert !InScope(n.caption, path);
    }
  }

  // ---------------------------------------------------------------------------
  // In-place edits of a group's children

  /** `children` with its first entry equal to `x` taken out. */
  function RemoveFirst(s: seq<Node>, x: Node): seq<Node>
  {
    if s == [] then []
    else if s[0] == x then s[1..]
    else [s[0]] + RemoveFirst(s[1..], x)
  }

  /** Removing an absent child changes nothing. */
  lemma {:induction false} RemoveFirstAbsent(s: seq<Node>, x: Node)
    requires x !in s
    ensures RemoveFirst(s, x) == s
  {
    if s != [] {
      assert s[0] != x;
      RemoveFirstAbsent(s[1..], x);
    }
  }

  /** Removing a present child deletes exactly its first position and keeps the rest in order. */
  lemma {:induction false} RemoveFirstAt(s: seq<Node>, x: Node, i: nat)
    requires i < |s| && s[i] == x && x !in s[..i]
    ensures RemoveFirst(s, x) == s[..i] + s[i + 1..]
  {
    if i > 0 {
      assert s[0] == s[..i][0];
      assert s[1..][..i - 1] == s[1..i];
      RemoveFirstAt(s[1..], x, i - 1);
      assert s[..i] == [s[0]] + s[1..][..i - 1];
    }
  }

  /** Removing a present child takes out one copy of it and nothing else. */
  lemma {:induction false} RemoveFirstMultiset(s: seq<Node>, x: Node)
    requires x in s
    ensures |RemoveFirst(s, x)| == |s| - 1
    ensures multiset(RemoveFirst(s, x)) == multiset(s) - multiset{x}
  {
    assert s == [s[0]] + s[1..];
    if s[0] != x {
      RemoveFirstMultiset(s[1..], x);
    }
  }

  /** A group node whose child list is edited in place. */
  class GroupNode {
    const caption: string
    var children: seq<Node>

    constructor (caption: string)
      ensures this.caption == caption && children == []
    {
      this.caption := caption;
      children := [];
    }

    /** The group as a tree value. */
    function Value(): Node
      reads this
    {
      Group(caption, children)
    }

    /** `addChild`: append at the end. */
    method AddChild(child: Node)
      modifies this
      ensures children == old(children) + [child]
      ensures |children| == |old(children)| + 1
      ensures children[..|old(children)|] == old(children)
    {
      children := children + [child];
    }

    /** `getChild`: the child at `index`. */
    method GetChild(index: nat) returns (child: Node)
      requires index < |children|
      ensures child == children[index]
    {
      child := children[index];
    }

    /** `removeChild(unsigned)`: delete exactly position `index`. */
    method RemoveChildAt(index: nat)
      requires index < |children|
      modifies this
      ensures children == old(children[..index]) + old(children[index + 1..])
    {
      children := children[..index] + children[index + 1..];
    }

    /** `removeChild(Node*)`: scan for the first equal entry and erase it. */
    method RemoveChild(child: Node)
      modifies this
      ensures children == RemoveFirst(old(children), child)
    {
      var i := 0;
      while i < |children|
        invariant 0 <= i <= |children|
        invariant children == old(children)
        invariant child !in children[..i]
      {
        if children[i] == child {
          RemoveFirstAt(children, child, i);
          children := children[..i] + children[i + 1..];
          return;
        }
        assert children[..i + 1] == children[..i] + [children[i]];
        i := i + 1;
      }
      assert children[..i] == children;
      RemoveFirstAbsent(children, child);
    }

    /** `getChildSize`: the count of children, as a 32-bit unsigned value. */
    method GetChildSize() returns (size: nat)
      ensures size < 0x1_0000_0000
      ensures size == |children| % 0x1_0000_0000
    {
      size := |children| % 0x1_0000_0000;
    }
  }
}
