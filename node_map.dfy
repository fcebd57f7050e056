/**
 * The landmark map: it owns the root group and the map-level metadata (the
 * bounding extent `limitations` and the `translation` of the map frame),
 * loads the tree from YAML documents, answers nearest-distance queries,
 * draws samples and flattens the tree into a snapshot.
 */
module LandmarkMap {
  import opened Wrappers
  import opened Geometry
  import opened Paths
  import opened NodeTree
  import opened YamlLoad

  /** One landmark record of the flattened snapshot. */
  datatype Landmark = Landmark(caption: string, mean: Vec3, covariance: Mat3)

  /** The flattened snapshot handed to the presentation layer. */
  datatype MixedMap = MixedMap(limitations: Vec3, translation: Vec3, landmarks: seq<Landmark>)

  /** A leaf's `draw()`: the k-th sample of this sampling call. */
  function Draw(f: Feature, sampler: Sampler, k: nat): Vec3
  {
    match f
    case LandmarkNode(_, params) => sampler.gaussian(params, k)
    case LineNode(_, line, height) => sampler.line(line, height, k)
  }

  /**
   * A landmark draws from the Gaussian it was built with, whatever its
   * caption; a line draws from its line and height.
   */
  lemma DrawFromOwnParams(f: Feature, caption: string, sampler: Sampler, k: nat)
    ensures f.LandmarkNode? ==> Draw(f, sampler, k) == Draw(LandmarkNode(caption, f.params), sampler, k)
    ensures f.LandmarkNode? ==> Draw(f, sampler, k) == sampler.gaussian(f.params, k)
    ensures f.LineNode? ==> Draw(f, sampler, k) == sampler.line(f.line, f.height, k)
  {
  }

  /**
   * How often `drawSamples` draws: its loop compares an unsigned counter with
   * the signed `numbers`, which turns a negative count into 2^32 plus it.
   */
  function DrawCount(numbers: int): (count: nat)
    requires -0x8000_0000 <= numbers < 0x8000_0000
    ensures count < 0x1_0000_0000
    ensures numbers >= 0 ==> count == numbers
    ensures numbers < 0 ==> count == numbers + 0x1_0000_0000
  {
    numbers % 0x1_0000_0000
  }

  /** The record a point landmark contributes to the snapshot. */
  function Record(f: Feature): Landmark
    requires f.LandmarkNode?
  {
    Landmark(f.caption, f.params.mean, f.params.cov)
  }

  /** The snapshot's records for a list of leaves: point landmarks kept, line features skipped. */
  function Records(fs: seq<Feature>): seq<Landmark>
  {
    if fs == [] then []
    else
      var last := fs[|fs| - 1];
      Records(fs[..|fs| - 1]) + (if last.LandmarkNode? then [Record(last)] else [])
  }

  /**
   * Every record comes from a point landmark of the list, and every point
   * landmark of the list has its record.
   */
  lemma {:induction false} RecordsAreLandmarks(fs: seq<Feature>)
    ensures forall r :: r in Records(fs) ==> exists i :: 0 <= i < |fs| && fs[i].LandmarkNode? && r == Record(fs[i])
    ensures forall i :: 0 <= i < |fs| && fs[i].LandmarkNode? ==> Record(fs[i]) in Records(fs)
    decreases |fs|
  {
    if fs != [] {
      var n := |fs| - 1;
      RecordsAreLandmarks(fs[..n]);
      assert forall i :: 0 <= i < n ==> fs[..n][i] == fs[i];
    }
  }

  /** In a list of point landmarks only, the records are one per leaf, in order. */
  lemma {:induction false} RecordsOfLandmarks(fs: seq<Feature>)
    requires forall f :: f in fs ==> f.LandmarkNode?
    ensures |Records(fs)| == |fs|
    ensures forall i :: 0 <= i < |fs| ==> Records(fs)[i] == Record(fs[i])
    decreases |fs|
  {
    if fs != [] {
      var n := |fs| - 1;
      assert forall f :: f in fs[..n] ==> f in fs;
      RecordsOfLandmarks(fs[..n]);
      assert fs[n] in fs;
    }
  }

  /** A non-empty path has to start with "root" to reach anything below the root group. */
  lemma PathsStartAtRoot(children: seq<Node>, path: string, m: Metric, v: Vec3)
    requires Split(path).current != "" && Split(path).current != "root"
    ensures Leafs(Group("root", children), path) == []
    ensures Nearest(Group("root", children), path, m, v) == Sentinel
  {
  }

  /** The metrics and reference a document supplies, or nothing when reading its keys fails. */
  function Metadata(doc: Yaml): Option<(Vec3, Vec3)>
  {
    match ReadDocument(doc)
    case Success(d) => Some((d.metrics, d.reference))
    case Failure(_) => None
  }

  /** `Metadata` of every document of the stream, in stream order. */
  function DocMetas(docs: seq<Yaml>): (metas: seq<Option<(Vec3, Vec3)>>)
    ensures |metas| == |docs|
  {
    if docs == [] then [] else [Metadata(docs[0])] + DocMetas(docs[1..])
  }

  lemma {:induction false} DocMetasAt(docs: seq<Yaml>, k: nat)
    requires k < |docs|
    ensures DocMetas(docs)[k] == Metadata(docs[k])
  {
    if k > 0 {
      DocMetasAt(docs[1..], k - 1);
    }
  }

  /** Document `i` of the stream loaded into `group`, with the metadata it reads. */
  method LoadDocAt(docs: seq<Yaml>, i: nat, group: GroupNode) returns (err: Option<LoadError>, metrics: Vec3, reference: Vec3)
    requires i < |docs|
    modifies group
    ensures group.children == old(group.children) + DocParts(docs)[i].added
    ensures err == DocParts(docs)[i].error
    ensures err.None? ==> DocMetas(docs)[i] == Some((metrics, reference))
  {
    DocPartsAt(docs, i);
    DocMetasAt(docs, i);
    err := LoadDocInto(docs[i], group);
    metrics, reference := Vec3(0.0, 0.0, 0.0), Vec3(0.0, 0.0, 0.0);
    if err.None? {
      var doc := ReadDocument(docs[i]).value;
      metrics, reference := doc.metrics, doc.reference;
    }
  }

  /** One pass after error-free documents: the chain grows by document `i`. */
  method LoadNext(docs: seq<Yaml>, i: nat, group: GroupNode, ghost before: seq<Node>)
    returns (err: Option<LoadError>, metrics: Vec3, reference: Vec3)
    requires i < |docs| && Chain(DocParts(docs)[..i]).error.None?
    requires group.children == before + Chain(DocParts(docs)[..i]).added
    modifies group
    ensures group.children == before + Chain(DocParts(docs)[..i + 1]).added
    ensures err == Chain(DocParts(docs)[..i + 1]).error
    ensures err.None? ==> DocMetas(docs)[i] == Some((metrics, reference))
  {
    err, metrics, reference := LoadDocAt(docs, i, group);
    ChainStep(DocParts(docs), i);
  }

  /**
   * The document loop of `fromYaml`: each document's `metrics`, `reference`
   * and `root` are read and the root is parsed into `group`. The first
   * failure ends the loop, which stops after document `i`.
   */
  method LoadPrefix(docs: seq<Yaml>, group: GroupNode, unsetLimit: Vec3, unsetTranslation: Vec3)
    returns (err: Option<LoadError>, i: nat, parseLimit: Vec3, parseTranslation: Vec3)
    modifies group
    ensures i <= |docs| && (err.None? ==> i == |docs|)
    ensures group.children == old(group.children) + Chain(DocParts(docs)[..i]).added
    ensures err == Chain(DocParts(docs)[..i]).error
    ensures err.None? && i == 0 ==> parseLimit == unsetLimit && parseTranslation == unsetTranslation
    ensures err.None? && i > 0 ==> DocMetas(docs)[i - 1] == Some((parseLimit, parseTranslation))
  {
    parseLimit, parseTranslation := unsetLimit, unsetTranslation;
    err := None;
    i := 0;
    while i < |docs| && err.None?
      invariant 0 <= i <= |docs|
      invariant group.children == old(group.children) + Chain(DocParts(docs)[..i]).added
      invariant err == Chain(DocParts(docs)[..i]).error
      invariant err.None? && i == 0 ==> parseLimit == unsetLimit && parseTranslation == unsetTranslation
      invariant err.None? && i > 0 ==> DocMetas(docs)[i - 1] == Some((parseLimit, parseTranslation))
    {
      var metrics, reference;
      err, metrics, reference := LoadNext(docs, i, group, old(group.children));
      if err.None? {
        parseLimit, parseTranslation := metrics, reference;
      }
      i := i + 1;
    }
  }

  /**
   * The whole document loop: what it adds and the error it ends with are
   * those of `LoadDocs`; the metadata returned is that of the last
   * document, or the unset values when there is none.
   */
  method LoadStream(docs: seq<Yaml>, group: GroupNode, unsetLimit: Vec3, unsetTranslation: Vec3)
    returns (err: Option<LoadError>, parseLimit: Vec3, parseTranslation: Vec3)
    modifies group
    ensures group.children == old(group.children) + LoadDocs(docs).added
    ensures err == LoadDocs(docs).error
    ensures err.None? && |docs| == 0 ==> parseLimit == unsetLimit && parseTranslation == unsetTranslation
    ensures err.None? && |docs| > 0 ==> DocMetas(docs)[|docs| - 1] == Some((parseLimit, parseTranslation))
  {
    var i;
    err, i, parseLimit, parseTranslation := LoadPrefix(docs, group, unsetLimit, unsetTranslation);
    ghost var parts := DocParts(docs);
    if err.Some? {
      ChainStops(parts, i);
    } else {
      assert parts[..i] == parts;
    }
  }

  class NodeMap {
    var root: Node
    var limitations: Vec3
    var translation: Vec3

    /** A map over a tree built elsewhere. */
    constructor (limits: Vec3, t: Vec3, root: Node)
      ensures this.root == root && limitations == limits && translation == t
    {
      this.root := root;
      limitations := limits;
      translation := t;
    }

    /** `getNearestDistance`: the root group's search. */
    method GetNearestDistance(caption: string, v: Vec3, m: Metric) returns (hit: Hit)
      ensures hit == Nearest(root, caption, m, v)
    {
      hit := NodeTree.GetNearestDistance(root, caption, m, v);
    }

    /**
     * `drawSamples`: `rand` is the sequence of leaf indices the uniform
     * integer generator over [0, leaf count - 1] produces. With no leaf in
     * scope that range is empty and no index can be drawn.
     */
    method DrawSamples(caption: string, numbers: int, rand: seq<nat>, sampler: Sampler)
      returns (list: seq<(Feature, Vec3)>)
      requires -0x8000_0000 <= numbers < 0x8000_0000
      requires |rand| >= DrawCount(numbers)
      requires forall k :: 0 <= k < DrawCount(numbers) ==> rand[k] < |Leafs(root, caption)|
      ensures |list| == DrawCount(numbers)
      ensures forall k :: 0 <= k < |list| ==> list[k].0 in Leafs(root, caption)
      ensures forall k :: 0 <= k < |list| ==>
                list[k] == (Leafs(root, caption)[rand[k]], Draw(Leafs(root, caption)[rand[k]], sampler, k))
    {
      list := [];
      var nodes := NodeTree.GetLeafs(root, caption);
      var count := numbers % 0x1_0000_0000;
      var i := 0;
      while i < count
        invariant 0 <= i <= count && |list| == i
        invariant forall k :: 0 <= k < i ==> list[k] == (nodes[rand[k]], Draw(nodes[rand[k]], sampler, k))
      {
        var node := nodes[rand[i]];
        list := list + [(node, Draw(node, sampler, i))];
        i := i + 1;
      }
    }

    /** `toYaml`: writing a map back out is not supported and always reports failure. */
    method ToYaml() returns (ok: bool)
      ensures !ok
    {
      ok := false;
    }

    /**
     * `fromYaml`: `streamOk` is false for a stream that failed to open and
     * `docs` are the documents the YAML parser yields. `unsetLimit` and
     * `unsetTranslation` stand for the uninitialised vectors the metadata
     * takes when there is no document at all.
     */
    method FromYaml(streamOk: bool, docs: seq<Yaml>, unsetLimit: Vec3, unsetTranslation: Vec3)
      returns (r: Result<bool, LoadError>)
      modifies this
      ensures !streamOk ==> r == Success(false) && unchanged(this)
      ensures streamOk ==> root == Group("root", LoadDocs(docs).added)
      ensures streamOk && LoadDocs(docs).error.Some? ==>
                && r == Failure(LoadDocs(docs).error.value)
                && limitations == old(limitations) && translation == old(translation)
      ensures streamOk && LoadDocs(docs).error.None? ==>
                && r == Success(true)
                && (|docs| == 0 ==> limitations == unsetLimit && translation == unsetTranslation)
                && (|docs| > 0 ==> && ReadDocument(docs[|docs| - 1]).Success?
                                   && limitations == ReadDocument(docs[|docs| - 1]).value.metrics
                                   && translation == ReadDocument(docs[|docs| - 1]).value.reference)
    {
      if !streamOk {
        return Success(false);
      }
      var group := new GroupNode("root");
      root := group.Value();
      var err, parseLimit, parseTranslation := LoadStream(docs, group, unsetLimit, unsetTranslation);
      root := group.Value();
      if err.Some? {
        return Failure(err.value);
      }
      if |docs| > 0 {
        DocMetasAt(docs, |docs| - 1);
      }
      limitations := parseLimit;
      translation := parseTranslation;
      r := Success(true);
    }

    /**
     * `getMap`: the snapshot of the first `bound` leaves of the whole tree.
     * The source bounds its loop by a member that this file does not define;
     * over every leaf, the snapshot holds one record per point landmark of
     * the tree, depth first.
     */
    method GetMap(bound: nat) returns (snapshot: MixedMap)
      requires bound <= |Leafs(root, "")|
      ensures snapshot == MixedMap(limitations, translation, Records(Leafs(root, "")[..bound]))
      ensures root.Group? && bound == |Leafs(root, "")| ==> snapshot.landmarks == Records(AllFeatures(root))
    {
      var leafs := NodeTree.GetLeafs(root, "");
      var landmarks: seq<Landmark> := [];
      var i := 0;
      while i < bound
        invariant 0 <= i <= bound
        invariant landmarks == Records(leafs[..i])
      {
        assert leafs[..i + 1][..i] == leafs[..i];
        match leafs[i] {
          case LandmarkNode(caption, params) =>
            landmarks := landmarks + [Landmark(caption, params.mean, params.cov)];
          case LineNode(_, _, _) =>
        }
        i := i + 1;
      }
      snapshot := MixedMap(limitations, translation, landmarks);
      if root.Group? && bound == |leafs| {
        assert leafs[..bound] == leafs;
        LeafsUnscoped(root);
      }
    }
  }
}
