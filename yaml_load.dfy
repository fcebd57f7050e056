/**
 * Building the tree from a YAML description. The input is the YAML library's
 * already-parsed node; the library's exceptions (a missing key, a missing
 * sequence element, a scalar that does not read as wanted) and the parser's
 * assertion on an unrecognised node are `LoadError`s. A failure stops the
 * load where it happens: what was appended before it stays appended.
 */
module YamlLoad {
  import opened Wrappers
  import opened Geometry
  import opened NodeTree

  /**
   * A YAML node. A scalar carries its text and, when the text reads as a
   * double, that number. Map entries are in the library's iteration order.
   */
  datatype Yaml =
    | Null
    | Scalar(text: string, number: Option<real>)
    | Seq(items: seq<Yaml>)
    | Map(entries: seq<(string, Yaml)>)

  datatype LoadError =
    | MissingKey(key: string)   // node["key"] on a node without that key
    | MissingIndex(index: nat)  // node[i] on a node without an i-th element
    | NotANumber                // a node read as a double that is not one
    | NotAString                // a node read as a string that is not a scalar
    | Unrecognised              // the parser's assertion: neither map nor sequence

  // ---------------------------------------------------------------------------
  // Reading values out of YAML nodes

  /** `FindValue(key)`: the value of the first entry with that key, if `node` is a map. */
  function FindValue(node: Yaml, key: string): (r: Option<Yaml>)
    ensures r.Some? <==> node.Map? && exists i :: 0 <= i < |node.entries| && node.entries[i].0 == key
    ensures r.Some? ==> exists i :: && 0 <= i < |node.entries| && node.entries[i] == (key, r.value)
                                    && forall j :: 0 <= j < i ==> node.entries[j].0 != key
  {
    if !node.Map? then None else FindEntry(node.entries, key)
  }

  function FindEntry(entries: seq<(string, Yaml)>, key: string): (r: Option<Yaml>)
    ensures r.Some? <==> exists i :: 0 <= i < |entries| && entries[i].0 == key
    ensures r.Some? ==> exists i :: && 0 <= i < |entries| && entries[i] == (key, r.value)
                                    && forall j :: 0 <= j < i ==> entries[j].0 != key
  {
    if entries == [] then None
    else if entries[0].0 == key then Some(entries[0].1)
    else
      var r := FindEntry(entries[1..], key);
      assert forall i :: 0 < i < |entries| ==> entries[i] == entries[1..][i - 1];
      r
  }

  /** `node["key"]`. */
  function Get(node: Yaml, key: string): Result<Yaml, LoadError>
  {
    match FindValue(node, key)
    case Some(value) => Success(value)
    case None => Failure(MissingKey(key))
  }

  /** `node[i] >> x` for a double `x`. */
  function RealAt(node: Yaml, i: nat): Result<real, LoadError>
  {
    if !node.Seq? || i >= |node.items| then Failure(MissingIndex(i))
    else if node.items[i].Scalar? && node.items[i].number.Some? then Success(node.items[i].number.value)
    else Failure(NotANumber)
  }

  /** `node >> s` for a string `s`. */
  function ReadString(node: Yaml): Result<string, LoadError>
  {
    if node.Scalar? then Success(node.text) else Failure(NotAString)
  }

  /**
   * Elements 0 to n-1 of `node` read as doubles, in that order: all of them,
   * or the error of the first one that does not read.
   */
  function ReadReals(node: Yaml, n: nat): (r: Result<seq<real>, LoadError>)
    ensures r.Success? ==> |r.value| == n && forall i :: 0 <= i < n ==> RealAt(node, i) == Success(r.value[i])
    ensures r.Failure? ==> exists k :: 0 <= k < n && RealAt(node, k) == Failure(r.error)
                                     && forall j :: 0 <= j < k ==> RealAt(node, j).Success?
  {
    if n == 0 then Success([])
    else
      match ReadReals(node, n - 1)
      case Failure(e) => Failure(e)
      case Success(xs) =>
        match RealAt(node, n - 1)
        case Failure(e) => Failure(e)
        case Success(x) => Success(xs + [x])
  }

  /** When every element up to `n` reads, `ReadReals` succeeds. */
  lemma {:induction false} ReadRealsSucceeds(node: Yaml, n: nat)
    requires forall j :: 0 <= j < n ==> RealAt(node, j).Success?
    ensures ReadReals(node, n).Success?
  {
    if n > 0 {
      ReadRealsSucceeds(node, n - 1);
    }
  }

  /** When element `k` is the first that does not read, `ReadReals` reports its error. */
  lemma {:induction false} ReadRealsFirstFailure(node: Yaml, n: nat, k: nat)
    requires k < n && RealAt(node, k).Failure?
    requires forall j :: 0 <= j < k ==> RealAt(node, j).Success?
    ensures ReadReals(node, n) == Failure(RealAt(node, k).error)
  {
    if k == n - 1 {
      ReadRealsSucceeds(node, k);
    } else {
      ReadRealsFirstFailure(node, n - 1, k);
    }
  }

  /** `node >> v` for a vector: elements 0, 1 and 2 as x, y and z. */
  function ReadVector(node: Yaml): (r: Result<Vec3, LoadError>)
    ensures r.Success? <==> forall i :: 0 <= i < 3 ==> RealAt(node, i).Success?
    ensures r.Success? ==> r.value == Vec3(RealAt(node, 0).value, RealAt(node, 1).value, RealAt(node, 2).value)
  {
    if forall i :: 0 <= i < 3 ==> RealAt(node, i).Success? then ReadRealsSucceeds(node, 3); ReadVectorOf(node)
    else ReadVectorOf(node)
  }

  function ReadVectorOf(node: Yaml): Result<Vec3, LoadError>
  {
    var xs :- ReadReals(node, 3);
    Success(Vec3(xs[0], xs[1], xs[2]))
  }

  /** `node >> cov` for a matrix: nine elements, row by row. */
  function ReadMatrix(node: Yaml): (r: Result<Mat3, LoadError>)
    ensures r.Success? <==> forall k :: 0 <= k < 9 ==> RealAt(node, k).Success?
    ensures r.Success? ==> |r.value.rows| == 3 && forall i :: 0 <= i < 3 ==> |r.value.rows[i]| == 3
    ensures r.Success? ==> forall i, j :: 0 <= i < 3 && 0 <= j < 3 ==> RealAt(node, 3 * i + j) == Success(r.value.rows[i][j])
  {
    if forall k :: 0 <= k < 9 ==> RealAt(node, k).Success? then ReadRealsSucceeds(node, 9); ReadMatrixOf(node)
    else ReadMatrixOf(node)
  }

  function ReadMatrixOf(node: Yaml): (r: Result<Mat3, LoadError>)
  {
    var xs :- ReadReals(node, 9);
    Success(Mat3([xs[0..3], xs[3..6], xs[6..9]]))
  }

  /** The matrix reader as the source runs it: two nested loops and a running index. */
  method ReadCovariance(node: Yaml) returns (r: Result<Mat3, LoadError>)
    ensures r == ReadMatrix(node)
  {
    var rows: seq<seq<real>> := [];
    var index := 0;
    var i := 0;
    while i < 3
      invariant 0 <= i <= 3 && index == 3 * i && |rows| == i
      invariant forall k :: 0 <= k < index ==> RealAt(node, k).Success?
      invariant forall a :: 0 <= a < i ==> |rows[a]| == 3
      invariant forall a, b :: 0 <= a < i && 0 <= b < 3 ==> RealAt(node, 3 * a + b) == Success(rows[a][b])
    {
      var row: seq<real> := [];
      var j := 0;
      while j < 3
        invariant 0 <= j <= 3 && index == 3 * i + j && |row| == j
        invariant forall k :: 0 <= k < index ==> RealAt(node, k).Success?
        invariant forall b :: 0 <= b < j ==> RealAt(node, 3 * i + b) == Success(row[b])
      {
        var cell := RealAt(node, index);
        if cell.Failure? {
          ReadRealsFirstFailure(node, 9, index);
          return Failure(cell.error);
        }
        row := row + [cell.value];
        index := index + 1;
        j := j + 1;
      }
      rows := rows + [row];
      i := i + 1;
    }
    r := Success(Mat3(rows));
    MatrixOfCells(node, rows);
  }

  /** Three rows of three cells read from `node` in order are the matrix `ReadMatrix` gives. */
  lemma MatrixOfCells(node: Yaml, rows: seq<seq<real>>)
    requires |rows| == 3 && forall a :: 0 <= a < 3 ==> |rows[a]| == 3
    requires forall a, b :: 0 <= a < 3 && 0 <= b < 3 ==> RealAt(node, 3 * a + b) == Success(rows[a][b])
    ensures ReadMatrix(node) == Success(Mat3(rows))
  {
    forall k | 0 <= k < 9
      ensures RealAt(node, k).Success?
    {
      var a, b := k / 3, k % 3;
      assert k == 3 * a + b;
      assert RealAt(node, 3 * a + b) == Success(rows[a][b]);
    }
    var m := ReadMatrix(node).value;
    assert forall a, b :: 0 <= a < 3 && 0 <= b < 3 ==> rows[a][b] == m.rows[a][b];
    assert rows[0] == m.rows[0] && rows[1] == m.rows[1] && rows[2] == m.rows[2];
    assert rows == m.rows;
  }

  // ---------------------------------------------------------------------------
  // Building the tree

  /** What parsing a node appends to its parent, and the error that stopped it, if any. */
  datatype Parsed = Parsed(added: seq<Node>, error: Option<LoadError>)

  /** The landmark a map with a `mean` entry describes: mean, covariance, then caption (default ""). */
  function ReadLandmark(node: Yaml): Result<Node, LoadError>
  {
    var meanNode :- Get(node, "mean");
    var mean :- ReadVector(meanNode);
    var covNode :- Get(node, "cov");
    var cov :- ReadMatrix(covNode);
    var caption :- if FindValue(node, "caption").Some? then ReadString(FindValue(node, "caption").value)
                   else Success("");
    Success(Leaf(LandmarkNode(caption, Gaussian(mean, cov))))
  }

  /**
   * A landmark reads exactly when `mean` exists and reads as a vector, `cov`
   * exists and reads as a matrix, and any `caption` is a scalar; the leaf then
   * has that mean, covariance and caption. `mean` is read, and fails, first.
   */
  lemma ReadLandmarkReads(node: Yaml)
    ensures ReadLandmark(node).Success? <==>
              && Get(node, "mean").Success? && ReadVector(Get(node, "mean").value).Success?
              && Get(node, "cov").Success? && ReadMatrix(Get(node, "cov").value).Success?
              && (FindValue(node, "caption").Some? ==> FindValue(node, "caption").value.Scalar?)
    ensures ReadLandmark(node).Success? ==> ReadLandmark(node).value == Leaf(LandmarkNode(
              if FindValue(node, "caption").Some? then FindValue(node, "caption").value.text else "",
              Gaussian(ReadVector(Get(node, "mean").value).value, ReadMatrix(Get(node, "cov").value).value)))
    ensures Get(node, "mean").Failure? ==> ReadLandmark(node) == Failure(MissingKey("mean"))
    ensures Get(node, "mean").Success? && ReadVector(Get(node, "mean").value).Failure? ==>
              ReadLandmark(node) == Failure(ReadVector(Get(node, "mean").value).error)
  {
  }

  /**
   * `parseYamlNode(node, parent)`: a map with `mean` is one landmark, any
   * other map one group per key, a sequence its elements one after the
   * other into the same parent, and anything else the parser's assertion.
   */
  function Parse(node: Yaml): Parsed
    decreases node, 1, 0
  {
    match node
    case Map(entries) =>
      if FindValue(node, "mean").Some? then
        match ReadLandmark(node)
        case Success(n) => Parsed([n], None)
        case Failure(e) => Parsed([], Some(e))
      else ParseEntries(node, |entries|)
    case Seq(items) => ParseItems(node, |items|)
    case _ => Parsed([], Some(Unrecognised))
  }

  /** The first `k` entries of a map, each as a group named by its key. */
  function ParseEntries(node: Yaml, k: nat): Parsed
    requires node.Map? && k <= |node.entries|
    decreases node, 0, k
  {
    if k == 0 then Parsed([], None)
    else
      var p := ParseEntries(node, k - 1);
      if p.error.Some? then p
      else
        var entry := node.entries[k - 1];
        var sub := Parse(entry.1);
        Parsed(p.added + [Group(entry.0, sub.added)], sub.error)
  }

  /** The first `k` elements of a sequence, each parsed into the same parent. */
  function ParseItems(node: Yaml, k: nat): Parsed
    requires node.Seq? && k <= |node.items|
    decreases node, 0, k
  {
    if k == 0 then Parsed([], None)
    else
      var p := ParseItems(node, k - 1);
      if p.error.Some? then p
      else
        var sub := Parse(node.items[k - 1]);
        Parsed(p.added + sub.added, sub.error)
  }

  lemma {:induction false} ParseEntriesStops(node: Yaml, i: nat, k: nat)
    requires node.Map? && i <= k <= |node.entries|
    requires ParseEntries(node, i).error.Some?
    ensures ParseEntries(node, k) == ParseEntries(node, i)
    decreases k - i
  {
    if i < k {
      ParseEntriesStops(node, i, k - 1);
    }
  }

  lemma {:induction false} ParseItemsStops(node: Yaml, i: nat, k: nat)
    requires node.Seq? && i <= k <= |node.items|
    requires ParseItems(node, i).error.Some?
    ensures ParseItems(node, k) == ParseItems(node, i)
    decreases k - i
  {
    if i < k {
      ParseItemsStops(node, i, k - 1);
    }
  }

  /** The concatenation of a list of child lists. */
  function Concat(xss: seq<seq<Node>>): seq<Node>
  {
    if xss == [] then [] else Concat(xss[..|xss| - 1]) + xss[|xss| - 1]
  }

  /**
   * A map with a `mean` entry appends exactly one landmark, or nothing when
   * it fails to read; its caption is the `caption` entry, or "" without one.
   */
  lemma ParseMeanMap(node: Yaml)
    requires node.Map? && FindValue(node, "mean").Some?
    ensures var p := Parse(node);
      var caption := FindValue(node, "caption");
      || (p.error.Some? && p.added == [])
      || (&& p.error.None? && |p.added| == 1
          && p.added[0].Leaf? && p.added[0].feature.LandmarkNode?
          && p.added[0].feature.caption == (if caption.Some? then caption.value.text else "")
          && Success(p.added[0].feature.params.mean) == ReadVector(FindValue(node, "mean").value)
          && Success(p.added[0].feature.params.cov) == ReadMatrix(Get(node, "cov").value))
    ensures Parse(node).error.None? <==>
              && ReadVector(FindValue(node, "mean").value).Success?
              && Get(node, "cov").Success? && ReadMatrix(Get(node, "cov").value).Success?
              && (FindValue(node, "caption").Some? ==> FindValue(node, "caption").value.Scalar?)
    ensures Parse(node).error.Some? ==> Parse(node).error == Some(ReadLandmark(node).error)
  {
    ReadLandmarkReads(node);
  }

  /**
   * Any other map appends one group per key, in entry order, each holding
   * what its value parses to; on a failure the groups up to and including the
   * failing one stay, and nothing after.
   */
  lemma {:induction false} ParseEntriesGroups(node: Yaml, k: nat)
    requires node.Map? && k <= |node.entries|
    ensures var p := ParseEntries(node, k);
      && |p.added| <= k
      && (forall i :: 0 <= i < |p.added| ==> p.added[i] == Group(node.entries[i].0, Parse(node.entries[i].1).added))
      && (p.error.None? ==> |p.added| == k && forall i :: 0 <= i < k ==> Parse(node.entries[i].1).error.None?)
      && (p.error.Some? ==> && |p.added| >= 1
                            && p.error == Parse(node.entries[|p.added| - 1].1).error
                            && forall i :: 0 <= i < |p.added| - 1 ==> Parse(node.entries[i].1).error.None?)
    decreases k
  {
    if k > 0 {
      ParseEntriesGroups(node, k - 1);
    }
  }

  /** Parsing a map without `mean` is `ParseEntriesGroups` over all its entries. */
  lemma ParseMapGroups(node: Yaml)
    requires node.Map? && FindValue(node, "mean").None? && Parse(node).error.None?
    ensures |Parse(node).added| == |node.entries|
    ensures forall i :: 0 <= i < |node.entries| ==>
              Parse(node).added[i] == Group(node.entries[i].0, Parse(node.entries[i].1).added)
  {
    ParseEntriesGroups(node, |node.entries|);
  }

  /**
   * A sequence opens no group of its own: when nothing fails it appends,
   * one after the other, what each element appends on its own.
   */
  lemma {:induction false} ParseItemsFlatten(node: Yaml, k: nat)
    requires node.Seq? && k <= |node.items|
    requires ParseItems(node, k).error.None?
    ensures ParseItems(node, k).added == Concat(seq(k, i requires 0 <= i < k => Parse(node.items[i]).added))
    decreases k
  {
    if k > 0 {
      var xss := seq(k, i requires 0 <= i < k => Parse(node.items[i]).added);
      ParseItemsFlatten(node, k - 1);
      assert xss[..k - 1] == seq(k - 1, i requires 0 <= i < k - 1 => Parse(node.items[i]).added);
    }
  }

  /**
   * A sequence parses cleanly exactly when every element does. Otherwise the
   * error is that of the first failing element `j`, and what stays appended
   * is what the elements up to and including `j` appended.
   */
  lemma {:induction false} ParseItemsInOrder(node: Yaml, k: nat)
    requires node.Seq? && k <= |node.items|
    ensures ParseItems(node, k).error.None? <==> forall i :: 0 <= i < k ==> Parse(node.items[i]).error.None?
    ensures ParseItems(node, k).error.Some? ==>
              exists j :: && 0 <= j < k && ParseItems(node, k).error == Parse(node.items[j]).error
                          && (forall i :: 0 <= i < j ==> Parse(node.items[i]).error.None?)
                          && ParseItems(node, k).added == Concat(seq(j + 1, i requires 0 <= i <= j => Parse(node.items[i]).added))
    decreases k
  {
    if k > 0 {
      ParseItemsInOrder(node, k - 1);
      var prev := ParseItems(node, k - 1);
      var sub := Parse(node.items[k - 1]);
      if prev.error.Some? {
        assert ParseItems(node, k) == prev;
      } else {
        assert ParseItems(node, k) == Parsed(prev.added + sub.added, sub.error);
        if sub.error.Some? {
          ParseItemsFlatten(node, k - 1);
          var j := k - 1;
          var xss := seq(j + 1, i requires 0 <= i <= j => Parse(node.items[i]).added);
          assert xss[..j] == seq(j, i requires 0 <= i < j => Parse(node.items[i]).added);
          assert ParseItems(node, k).added == Concat(xss);
        }
      }
    }
  }

  /** A scalar or an empty node is the parser's assertion failure, and appends nothing. */
  lemma ParseScalarFails(node: Yaml)
    requires node.Scalar? || node.Null?
    ensures Parse(node) == Parsed([], Some(Unrecognised))
  {
  }

  /** No line feature anywhere below `n`. */
  predicate NoLines(n: Node)
    decreases n, 1
  {
    match n
    case Leaf(f) => f.LandmarkNode?
    case Group(_, children) => NoLinesBelow(n, |children|)
  }

  predicate NoLinesBelow(g: Node, k: nat)
    requires g.Group? && k <= |g.children|
    decreases g, 0, k
  {
    k == 0 || (NoLinesBelow(g, k - 1) && NoLines(g.children[k - 1]))
  }

  lemma {:induction false} NoLinesBelowAll(g: Node, k: nat, i: nat)
    requires g.Group? && i < k <= |g.children| && NoLinesBelow(g, k)
    ensures NoLines(g.children[i])
    decreases k
  {
    if i < k - 1 {
      NoLinesBelowAll(g, k - 1, i);
    }
  }

  lemma {:induction false} AllNoLines(g: Node, k: nat)
    requires g.Group? && k <= |g.children| && forall i :: 0 <= i < k ==> NoLines(g.children[i])
    ensures NoLinesBelow(g, k)
    decreases k
  {
    if k > 0 {
      AllNoLines(g, k - 1);
    }
  }

  /** Parsing only ever builds groups and point landmarks. */
  lemma {:induction false} ParseBuildsNoLines(node: Yaml)
    ensures forall n :: n in Parse(node).added ==> NoLines(n)
    decreases node, 1, 0
  {
    match node
    case Map(entries) =>
      if FindValue(node, "mean").None? {
        ParseEntriesNoLines(node, |entries|);
      }
    case Seq(items) => ParseItemsNoLines(node, |items|);
    case _ =>
  }

  lemma {:induction false} ParseEntriesNoLines(node: Yaml, k: nat)
    requires node.Map? && k <= |node.entries|
    ensures forall n :: n in ParseEntries(node, k).added ==> NoLines(n)
    decreases node, 0, k
  {
    if k > 0 {
      ParseEntriesNoLines(node, k - 1);
      var entry := node.entries[k - 1];
      ParseBuildsNoLines(entry.1);
      var g := Group(entry.0, Parse(entry.1).added);
      assert forall i :: 0 <= i < |g.children| ==> g.children[i] in Parse(entry.1).added;
      AllNoLines(g, |g.children|);
    }
  }

  lemma {:induction false} ParseItemsNoLines(node: Yaml, k: nat)
    requires node.Seq? && k <= |node.items|
    ensures forall n :: n in ParseItems(node, k).added ==> NoLines(n)
    decreases node, 0, k
  {
    if k > 0 {
      ParseItemsNoLines(node, k - 1);
      ParseBuildsNoLines(node.items[k - 1]);
    }
  }

  /** In a tree without line features every collected leaf is a point landmark. */
  lemma {:induction false} NoLinesLeafs(n: Node, path: string)
    requires NoLines(n)
    ensures forall f :: f in Leafs(n, path) ==> f.LandmarkNode?
    decreases n, 1, 0
  {
    if n.Group? && Paths.InScope(n.caption, path) {
      NoLinesLeafsOf(n, |n.children|, Paths.Split(path).next);
    }
  }

  lemma {:induction false} NoLinesLeafsOf(g: Node, k: nat, next: string)
    requires g.Group? && k <= |g.children| && NoLinesBelow(g, k)
    ensures forall f :: f in LeafsOf(g, k, next) ==> f.LandmarkNode?
    decreases g, 0, k
  {
    if k > 0 {
      NoLinesLeafsOf(g, k - 1, next);
      var c := g.children[k - 1];
      if c.Group? {
        NoLinesLeafs(c, next);
      }
    }
  }

  /**
   * `parseYamlNode` as the source runs it, appending to `parent` in place.
   * A group is appended once its own subtree is parsed; the source appends
   * it first and fills it through its `Node*`, which leaves the same tree.
   */
  method ParseYamlNode(node: Yaml, parent: GroupNode) returns (err: Option<LoadError>)
    modifies parent
    ensures parent.children == old(parent.children) + Parse(node).added
    ensures err == Parse(node).error
    decreases node, 1
  {
    match node {
      case Map(entries) =>
        if FindValue(node, "mean").Some? {
          err := ParseLandmarkInto(node, parent);
        } else {
          err := ParseGroupsInto(node, parent);
        }
      case Seq(items) =>
        err := ParseItemsInto(node, parent);
      case _ =>
        err := Some(Unrecognised);
    }
  }

  /** The landmark branch: `mean`, `cov`, then the optional `caption`. */
  method ParseLandmarkInto(node: Yaml, parent: GroupNode) returns (err: Option<LoadError>)
    requires node.Map? && FindValue(node, "mean").Some?
    modifies parent
    ensures parent.children == old(parent.children) + Parse(node).added
    ensures err == Parse(node).error
  {
    var mean := ReadVector(Get(node, "mean").value);
    if mean.Failure? {
      return Some(mean.error);
    }
    var covNode := Get(node, "cov");
    if covNode.Failure? {
      return Some(covNode.error);
    }
    var cov := ReadCovariance(covNode.value);
    if cov.Failure? {
      return Some(cov.error);
    }
    var caption := "";
    var found := FindValue(node, "caption");
    if found.Some? {
      var read := ReadString(found.value);
      if read.Failure? {
        return Some(read.error);
      }
      caption := read.value;
    }
    parent.AddChild(Leaf(LandmarkNode(caption, Gaussian(mean.value, cov.value))));
    err := None;
  }

  /** The group branch: one new group per key, filled from its value. */
  method ParseGroupsInto(node: Yaml, parent: GroupNode) returns (err: Option<LoadError>)
    requires node.Map? && FindValue(node, "mean").None?
    modifies parent
    ensures parent.children == old(parent.children) + Parse(node).added
    ensures err == Parse(node).error
    decreases node, 0
  {
    var entries := node.entries;
    var i := 0;
    while i < |entries|
      invariant 0 <= i <= |entries|
      invariant parent.children == old(parent.children) + ParseEntries(node, i).added
      invariant ParseEntries(node, i).error.None?
    {
      var group := new GroupNode(entries[i].0);
      var sub := ParseYamlNode(entries[i].1, group);
      assert group.Value() == Group(entries[i].0, Parse(entries[i].1).added);
      assert ParseEntries(node, i + 1).added == ParseEntries(node, i).added + [group.Value()];
      assert ParseEntries(node, i + 1).error == sub;
      parent.AddChild(group.Value());
      if sub.Some? {
        ParseEntriesStops(node, i + 1, |entries|);
        return sub;
      }
      i := i + 1;
    }
    err := None;
  }

  /** The sequence branch: each element parsed into the same parent. */
  method ParseItemsInto(node: Yaml, parent: GroupNode) returns (err: Option<LoadError>)
    requires node.Seq?
    modifies parent
    ensures parent.children == old(parent.children) + Parse(node).added
    ensures err == Parse(node).error
    decreases node, 0
  {
    var items := node.items;
    var i := 0;
    while i < |items|
      invariant 0 <= i <= |items|
      invariant parent.children == old(parent.children) + ParseItems(node, i).added
      invariant ParseItems(node, i).error.None?
    {
      var sub := ParseYamlNode(items[i], parent);
      if sub.Some? {
        ParseItemsStops(node, i + 1, |items|);
        return sub;
      }
      i := i + 1;
    }
    err := None;
  }

  // ---------------------------------------------------------------------------
  // Loading documents

  /** The top-level keys one document supplies. */
  datatype Document = Document(metrics: Vec3, reference: Vec3, root: Yaml)

  /** One document, read in the source's order: `metrics`, `reference`, then `root`. */
  function ReadDocument(doc: Yaml): Result<Document, LoadError>
  {
    var metricsNode :- Get(doc, "metrics");
    var metrics :- ReadVector(metricsNode);
    var referenceNode :- Get(doc, "reference");
    var reference :- ReadVector(referenceNode);
    var root :- Get(doc, "root");
    Success(Document(metrics, reference, root))
  }

  /**
   * A document reads exactly when `metrics` and `reference` exist and read as
   * vectors and `root` exists; it then carries those vectors and that node.
   * A missing `metrics` is the first error reported.
   */
  lemma ReadDocumentReads(doc: Yaml)
    ensures ReadDocument(doc).Success? <==>
              && Get(doc, "metrics").Success? && ReadVector(Get(doc, "metrics").value).Success?
              && Get(doc, "reference").Success? && ReadVector(Get(doc, "reference").value).Success?
              && Get(doc, "root").Success?
    ensures ReadDocument(doc).Success? ==>
              ReadDocument(doc).value == Document(ReadVector(Get(doc, "metrics").value).value,
                                                  ReadVector(Get(doc, "reference").value).value,
                                                  Get(doc, "root").value)
    ensures Get(doc, "metrics").Failure? ==> ReadDocument(doc) == Failure(MissingKey("metrics"))
  {
  }

  /** What one document appends to the new root, and its failure, if any. */
  function LoadDoc(doc: Yaml): Parsed
  {
    match ReadDocument(doc)
    case Failure(e) => Parsed([], Some(e))
    case Success(d) => Parse(d.root)
  }

  /**
   * Loading the parts one after the other: each appends what it parsed, and
   * the first failure stops the rest.
   */
  function Chain(parts: seq<Parsed>): Parsed
  {
    if parts == [] then Parsed([], None)
    else
      var p := Chain(parts[..|parts| - 1]);
      if p.error.Some? then p
      else
        var last := parts[|parts| - 1];
        Parsed(p.added + last.added, last.error)
  }

  /** What each document of the stream does on its own, in stream order. */
  function DocParts(docs: seq<Yaml>): (parts: seq<Parsed>)
    ensures |parts| == |docs|
  {
    if docs == [] then [] else [LoadDoc(docs[0])] + DocParts(docs[1..])
  }

  lemma {:induction false} DocPartsAt(docs: seq<Yaml>, k: nat)
    requires k < |docs|
    ensures DocParts(docs)[k] == LoadDoc(docs[k])
  {
    if k > 0 {
      DocPartsAt(docs[1..], k - 1);
    }
  }

  /** The load of every document of the stream into the new root. */
  function LoadDocs(docs: seq<Yaml>): Parsed
  {
    Chain(DocParts(docs))
  }

  lemma ChainStep(parts: seq<Parsed>, i: nat)
    requires i < |parts| && Chain(parts[..i]).error.None?
    ensures Chain(parts[..i + 1]) == Parsed(Chain(parts[..i]).added + parts[i].added, parts[i].error)
  {
    assert parts[..i + 1][..i] == parts[..i];
  }

  lemma {:induction false} ChainStops(parts: seq<Parsed>, i: nat)
    requires i <= |parts| && Chain(parts[..i]).error.Some?
    ensures Chain(parts) == Chain(parts[..i])
    decreases |parts| - i
  {
    if i < |parts| {
      var n := |parts| - 1;
      assert parts[..n][..i] == parts[..i];
      ChainStops(parts[..n], i);
      assert parts[..n + 1] == parts;
    } else {
      assert parts[..i] == parts;
    }
  }

  /**
   * A document whose keys all read appends what its `root` parses to; one
   * whose keys do not appends nothing and fails with the read's error. So it
   * loads exactly when its keys read and its `root` parses.
   */
  lemma LoadDocReads(doc: Yaml)
    ensures ReadDocument(doc).Success? ==> LoadDoc(doc) == Parse(ReadDocument(doc).value.root)
    ensures ReadDocument(doc).Failure? ==> LoadDoc(doc) == Parsed([], Some(ReadDocument(doc).error))
    ensures LoadDoc(doc).error.None? <==> ReadDocument(doc).Success? && Parse(ReadDocument(doc).value.root).error.None?
  {
  }

  /** One pass of the document loop: read the keys, then parse `root` into the new root group. */
  method LoadDocInto(doc: Yaml, group: GroupNode) returns (err: Option<LoadError>)
    modifies group
    ensures group.children == old(group.children) + LoadDoc(doc).added
    ensures err == LoadDoc(doc).error
    ensures err.None? ==> ReadDocument(doc).Success?
  {
    var read := ReadDocument(doc);
    if read.Failure? {
      return Some(read.error);
    }
    err := ParseYamlNode(read.value.root, group);
  }

  /**
   * A chain succeeds exactly when every part does, and then it appends what
   * every part appends, in order.
   */
  lemma {:induction false} ChainInOrder(parts: seq<Parsed>)
    ensures Chain(parts).error.None? <==> forall i :: 0 <= i < |parts| ==> parts[i].error.None?
    ensures Chain(parts).error.None? ==> Chain(parts).added == Concat(seq(|parts|, i requires 0 <= i < |parts| => parts[i].added))
    decreases |parts|
  {
    if parts != [] {
      var n := |parts| - 1;
      ChainInOrder(parts[..n]);
      var xss := seq(|parts|, i requires 0 <= i < |parts| => parts[i].added);
      assert xss[..n] == seq(n, i requires 0 <= i < n => parts[..n][i].added);
    }
  }

  /**
   * When the load succeeds every document loads, and the new root holds what
   * every document's `root` parses to, in document order.
   */
  lemma LoadDocsInOrder(docs: seq<Yaml>)
    requires LoadDocs(docs).error.None?
    ensures forall i :: 0 <= i < |docs| ==> LoadDoc(docs[i]).error.None?
    ensures LoadDocs(docs).added == Concat(seq(|docs|, i requires 0 <= i < |docs| => LoadDoc(docs[i]).added))
  {
    var parts := DocParts(docs);
    ChainInOrder(parts);
    forall i | 0 <= i < |docs|
      ensures parts[i] == LoadDoc(docs[i])
    {
      DocPartsAt(docs, i);
    }
    assert seq(|parts|, i requires 0 <= i < |parts| => parts[i].added)
        == seq(|docs|, i requires 0 <= i < |docs| => LoadDoc(docs[i]).added);
  }

  /**
   * The whole stream loads exactly when every document's keys read and every
   * document's `root` parses.
   */
  lemma LoadDocsSucceed(docs: seq<Yaml>)
    ensures LoadDocs(docs).error.None? <==>
              forall i :: 0 <= i < |docs| ==> ReadDocument(docs[i]).Success? && Parse(ReadDocument(docs[i]).value.root).error.None?
  {
    var parts := DocParts(docs);
    ChainInOrder(parts);
    forall i | 0 <= i < |docs|
      ensures parts[i].error.None? <==> ReadDocument(docs[i]).Success? && Parse(ReadDocument(docs[i]).value.root).error.None?
    {
      DocPartsAt(docs, i);
      LoadDocReads(docs[i]);
    }
  }
}
