/**
 * A worked load: one document whose `root` holds a group "basin" with one
 * landmark "buoy" at (1, 2, 3) with identity covariance.
 */
module BuoyExample {
  import opened Wrappers
  import opened Geometry
  import opened Paths
  import opened NodeTree
  import opened YamlLoad

  function Num(x: real): Yaml { Scalar("", Some(x)) }

  const Identity: Mat3 := Mat3([[1.0, 0.0, 0.0], [0.0, 1.0, 0.0], [0.0, 0.0, 1.0]])

  const BuoyParams: Gaussian := Gaussian(Vec3(1.0, 2.0, 3.0), Identity)

  const Buoy: Feature := LandmarkNode("buoy", BuoyParams)

  const BuoyDoc: Yaml := Map([
    ("metrics", Seq([Num(10.0), Num(10.0), Num(5.0)])),
    ("reference", Seq([Num(0.0), Num(0.0), Num(0.0)])),
    ("root", Map([("basin", Map([
      ("mean", Seq([Num(1.0), Num(2.0), Num(3.0)])),
      ("cov", Seq([Num(1.0), Num(0.0), Num(0.0), Num(0.0), Num(1.0), Num(0.0), Num(0.0), Num(0.0), Num(1.0)])),
      ("caption", Scalar("buoy", None))]))]))])

  const BasinYaml: Yaml := BuoyDoc.entries[2].1.entries[0].1

  const Basin: Node := Group("basin", [Leaf(Buoy)])

  const LoadedRoot: Node := Group("root", [Basin])

  lemma BuoyCovariance()
    ensures ReadMatrix(BasinYaml.entries[1].1) == Success(Identity)
  {
    var cov := BasinYaml.entries[1].1;
    assert forall k :: 0 <= k < 9 ==> RealAt(cov, k).Success?;
    var c := ReadMatrix(cov).value;
    assert RealAt(cov, 3 * 0 + 1) == Success(0.0) && RealAt(cov, 3 * 1 + 1) == Success(1.0);
    assert c.rows[0] == Identity.rows[0] && c.rows[1] == Identity.rows[1] && c.rows[2] == Identity.rows[2];
  }

  lemma BuoyLandmark()
    ensures Parse(BasinYaml) == Parsed([Leaf(Buoy)], None)
  {
    assert ReadVector(BasinYaml.entries[0].1) == Success(Vec3(1.0, 2.0, 3.0));
    BuoyCovariance();
  }

  const RootYaml: Yaml := BuoyDoc.entries[2].1

  /** The `root` map is no landmark, so its one key "basin" opens a group. */
  lemma BuoyRootParses()
    ensures Parse(RootYaml) == Parsed([Basin], None)
  {
    assert FindValue(RootYaml, "mean").None?;
    BuoyLandmark();
    assert ParseEntries(RootYaml, 0) == Parsed([], None);
    assert ParseEntries(RootYaml, 1) == Parsed([Basin], None);
  }

  lemma BuoyDocReads()
    ensures ReadDocument(BuoyDoc) == Success(Document(Vec3(10.0, 10.0, 5.0), Vec3(0.0, 0.0, 0.0), RootYaml))
  {
    assert Get(BuoyDoc, "metrics") == Success(BuoyDoc.entries[0].1);
    assert ReadVector(BuoyDoc.entries[0].1) == Success(Vec3(10.0, 10.0, 5.0));
    assert Get(BuoyDoc, "reference") == Success(BuoyDoc.entries[1].1);
    assert ReadVector(BuoyDoc.entries[1].1) == Success(Vec3(0.0, 0.0, 0.0));
    assert Get(BuoyDoc, "root") == Success(RootYaml);
  }

  /** The document loads into a root group holding "basin" with the buoy. */
  lemma BuoyLoads()
    ensures LoadDocs([BuoyDoc]) == Parsed(LoadedRoot.children, None)
  {
    BuoyDocReads();
    BuoyRootParses();
    assert LoadDoc(BuoyDoc) == Parsed([Basin], None);
    var parts := DocParts([BuoyDoc]);
    DocPartsAt([BuoyDoc], 0);
    assert Chain(parts[..0]) == Parsed([], None);
    ChainStep(parts, 0);
    assert parts[..1] == parts;
  }

  /** In the basin group, the path "basin" reaches the buoy. */
  lemma BasinItself()
    ensures Leafs(Basin, "basin") == [Buoy]
  {
    assert Split("basin") == PathSplit("basin", "");
    assert InScope("basin", "basin");
    assert LeafsOf(Basin, 0, "") == [];
    assert Reach(Leaf(Buoy), "") == [Buoy];
    assert LeafsOf(Basin, 1, "") == [Buoy];
  }

  /** A leaf is reached whatever the rest of the path says: "basin.buoy" reaches it too. */
  lemma BasinBuoy()
    ensures Leafs(Basin, "basin.buoy") == [Buoy]
  {
    SplitUnique("basin.buoy", "basin", "buoy");
    assert LeafsOf(Basin, 0, "buoy") == [];
    assert Reach(Leaf(Buoy), "buoy") == [Buoy];
    assert LeafsOf(Basin, 1, "buoy") == [Buoy];
  }

  /** The root group is captioned "root", so the bare path "basin" reaches nothing. */
  lemma BasinUnqualified()
    ensures Leafs(LoadedRoot, "basin") == []
  {
    assert Split("basin") == PathSplit("basin", "");
    assert !InScope("root", "basin");
  }

  /** Qualified by "root", the path reaches the buoy. */
  lemma RootQualified()
    ensures Leafs(LoadedRoot, "root.basin") == [Buoy]
  {
    SplitUnique("root.basin", "root", "basin");
    BasinItself();
    assert Reach(Basin, "basin") == [Buoy];
    assert LeafsOf(LoadedRoot, 0, "basin") == [];
    assert LeafsOf(LoadedRoot, 1, "basin") == [Buoy];
  }

  lemma BuoyQualified()
    ensures Leafs(LoadedRoot, "root.basin.buoy") == [Buoy]
  {
    SplitUnique("root.basin.buoy", "root", "basin.buoy");
    assert InScope("root", "root.basin.buoy");
    BasinBuoy();
    assert Reach(Basin, "basin.buoy") == [Buoy];
    assert LeafsOf(LoadedRoot, 0, "basin.buoy") == [];
    assert LeafsOf(LoadedRoot, 1, "basin.buoy") == [Buoy];
  }

  /** A query at the buoy's mean, where its distance is 0, does not beat the sentinel. */
  lemma BuoyAtMean(m: Metric)
    requires m.mahalanobis(BuoyParams, BuoyParams.mean) == 0.0
    ensures Nearest(LoadedRoot, "root.basin.buoy", m, BuoyParams.mean) == Sentinel
  {
    BuoyQualified();
    ZeroScoresReturnSentinel(LoadedRoot, "root.basin.buoy", m, BuoyParams.mean);
  }

  /** Away from the mean, where the distance beats the sentinel, the buoy is the answer. */
  lemma BuoyFound(m: Metric, v: Vec3)
    requires m.mahalanobis(BuoyParams, v) > DoubleMin
    ensures Nearest(LoadedRoot, "root.basin", m, v) == Hit(Some(Buoy), m.mahalanobis(BuoyParams, v))
  {
    RootQualified();
    NearestIsBestOfLeafs(LoadedRoot, "root.basin", m, v);
    SingleLeafWins(Buoy, m, v);
  }
}
