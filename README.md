# Hierarchical landmark map

This project models the landmark map of an underwater localization system.
The map is a tree:

- Inner nodes are named groups.
- Leaves are landmarks, which carry a Gaussian (a mean and a covariance), or lines.
- A dotted path such as `root.basin.buoy` scopes a query:
  - Each group compares the first segment of the path with its caption.
  - A group whose caption differs answers nothing.
  - An empty segment matches any group.
  - The rest of the path goes on to the children.
  - Leaves ignore the path.

The model covers these operations, all from `src/maps/node_map.cpp`:

- Editing a group's children: add, get, remove by index, remove by node, count.
- Collecting the leaves in scope.
- The nearest-landmark search.
  - It scores every leaf in scope and keeps the first strictly greater score.
  - It starts from a sentinel: no node and the score `DoubleMin`. `DoubleMin` is the smallest normal double, 2^-1022.
- Drawing samples from the leaves.
- Loading the map from YAML documents, including the vector and matrix readers and the recursive parser.
- Taking a flat snapshot of the landmarks.

## Modules

- `Paths` (`paths.dfy`): splits a path at its first dot and defines the scope test.
- `NodeTree` (`node_tree.dfy`):
  - The tree as a datatype, with the leaf collection and nearest search stated as specification functions.
  - The source's loops as methods proved equal to those functions.
  - A flat reference search `BestOf`: a left-to-right pass over the collected leaves, proved to return the earliest leaf of greatest score.
  - `GroupNode`: a class whose `children` field is edited in place, modelling `Node`'s child operations.
- `YamlLoad` (`yaml_load.dfy`):
  - YAML nodes as a datatype; the library's exceptions and the parser's assertion become `LoadError`s.
  - Specification functions for reading and parsing.
  - `ParseYamlNode`, which appends to a `GroupNode` in place.
  - The document loop as a chain that stops at the first failure.
- `LandmarkMap` (`node_map.dfy`): the `NodeMap` class with its root, limits and translation fields, and `MixedMap`, the flat snapshot.
- `BuoyExample` (`example.dfy`): a document with one landmark, loaded and searched.
- `Wrappers`, `Geometry`: option and result types; vectors, matrices, Gaussians and lines.

Numerical code and randomness are parameters:

- `Metric` supplies the Mahalanobis distance and the line score.
- `Sampler` supplies the Gaussian and line drawers.
- `DrawSamples` takes the random indices as a sequence.

## Model

| member | source | states |
|---|---|---|
| Paths.Find | src/maps/node_map.cpp:63 | The index of the first occurrence of the character, or -1 exactly when it does not occur. Nothing before that index is the character. |
| Paths.Split | src/maps/node_map.cpp:63-72 | The current segment never contains a dot. With a dot, path == current + "." + next. Without one, current is the whole path and next is empty. |
| Paths.FindAfterHead | src/maps/node_map.cpp:63 | In head + "." + tail with a dot-free head, the first dot is at the length of the head. |
| Paths.SplitUnique | src/maps/node_map.cpp:91-100 | Any cut of a path into a dot-free head, a dot and a tail is the cut the split makes. |
| Paths.EmptyCurrentIsWildcard | src/maps/node_map.cpp:76 | The empty path and any path starting with a dot are in scope for every caption; the latter passes on everything after the dot. |
| NodeTree.GetLeafs | src/maps/node_map.cpp:89-124 | The loop returns exactly `Leafs(n, path)`: depth first, children in order, leaves whatever their caption, nested groups searched along the rest of the path. |
| NodeTree.LeafsOutOfScope | src/maps/node_map.cpp:104 | A group whose caption does not match the current segment collects no leaves. |
| NodeTree.LeafsUnscoped | src/maps/node_map.cpp:89-124 | With the empty path, a group collects every leaf below it, in depth-first order. |
| NodeTree.LeafChildCollected | src/maps/node_map.cpp:113-116 | In an in-scope group, a leaf child appears right after the leaves of the children before it, whatever its caption. |
| NodeTree.GetNearestDistance | src/maps/node_map.cpp:61-86 | The loop returns exactly `Nearest(n, path)`, the recursive search that keeps a child's answer only when its score is strictly greater. |
| NodeTree.NearestIsBestOfLeafs | src/maps/node_map.cpp:74-85 | The recursive search on a group gives the same answer as the flat pass over `Leafs(g, path)`, ties included. |
| NodeTree.BestOfIsEarliestMaximum | src/maps/node_map.cpp:80-81 | The flat pass returns the sentinel when no leaf scores above `DoubleMin`. Otherwise it returns the earliest leaf of greatest score, with that score. |
| NodeTree.NearestIsEarliestMaximum | src/maps/node_map.cpp:61-86 | The search returns the sentinel when no leaf in scope scores above `DoubleMin`. Otherwise it returns the earliest in-scope leaf of greatest score. |
| NodeTree.SingleLeafWins | src/maps/node_map.cpp:146-149 | A landmark scored above `DoubleMin` is its own answer: itself with its score. |
| NodeTree.LeafAnswersItself | src/maps/node_map.cpp:146-149 | A leaf answers with itself whatever the path: a landmark with its Mahalanobis distance to the query point, a line with its line score. |
| NodeTree.NearestOutOfScope | src/maps/node_map.cpp:76 | A group out of scope answers the sentinel for every query point. |
| NodeTree.ZeroScoresReturnSentinel | src/maps/node_map.cpp:74 | When every leaf in scope scores at most 0, for example a query at a mean, the sentinel is returned and not a landmark. |
| NodeTree.BetterAssociative | src/maps/node_map.cpp:80-81 | Keeping the strictly greater score is associative, so nested groups can be flattened. |
| NodeTree.RemoveFirstAbsent | src/maps/node_map.cpp:46-51 | Removing a node that is not a child leaves the children unchanged. |
| NodeTree.RemoveFirstAt | src/maps/node_map.cpp:46-51 | When the first match is at `i`, exactly that element is erased. |
| NodeTree.RemoveFirstMultiset | src/maps/node_map.cpp:42-52 | Removing a present child shortens the list by one and removes exactly one copy of it. |
| NodeTree.GroupNode.constructor | src/maps/node_map.cpp:12-14 | A new node has the given caption and no children. |
| NodeTree.GroupNode.AddChild | src/maps/node_map.cpp:24-27 | The child is appended at the end; the earlier children do not change. |
| NodeTree.GroupNode.GetChild | src/maps/node_map.cpp:30-33 | Returns the child at the index; the index must be in range, as the unchecked vector access requires. |
| NodeTree.GroupNode.RemoveChildAt | src/maps/node_map.cpp:36-39 | The new children are those before the index followed by those after it. |
| NodeTree.GroupNode.RemoveChild | src/maps/node_map.cpp:42-52 | The loop erases the first child equal to the argument and nothing else, or changes nothing. |
| NodeTree.GroupNode.GetChildSize | src/maps/node_map.cpp:55-58 | The number of children as an `unsigned`: the size modulo 2^32. |
| YamlLoad.FindValue | src/maps/node_map.cpp:277 | Finds a value exactly when the node is a map with an entry of that key. The value found is that of the first such entry. |
| YamlLoad.ReadReals | src/maps/node_map.cpp:223-239 | Either every element 0..n-1 reads as a double, in order, or the error of the first that does not. |
| YamlLoad.ReadRealsSucceeds | src/maps/node_map.cpp:223-239 | If every element reads, the read succeeds. |
| YamlLoad.ReadRealsFirstFailure | src/maps/node_map.cpp:223-239 | The error reported is that of the first element that fails. |
| YamlLoad.ReadVector | src/maps/node_map.cpp:223-228 | Succeeds exactly when elements 0, 1 and 2 read as doubles. The vector is (node[0], node[1], node[2]). |
| YamlLoad.ReadMatrix | src/maps/node_map.cpp:231-239 | Succeeds exactly when elements 0..8 read. The result is 3x3 and row-major: entry (i, j) is element 3i+j. |
| YamlLoad.ReadCovariance | src/maps/node_map.cpp:231-239 | The nested loop with its running index computes exactly `ReadMatrix`. |
| YamlLoad.MatrixOfCells | src/maps/node_map.cpp:231-239 | Nine cells read row by row, element 3i+j into entry (i, j), make the matrix `ReadMatrix` returns. |
| YamlLoad.ParseYamlNode | src/maps/node_map.cpp:275-312 | The parent's children become the old children followed by what `Parse(node)` appends, and the error returned is `Parse(node)`'s. |
| YamlLoad.ParseLandmarkInto | src/maps/node_map.cpp:277-291 | A map with `mean` appends exactly what `Parse` gives for it (one landmark, or nothing with the first read's error). |
| YamlLoad.ParseGroupsInto | src/maps/node_map.cpp:292-303 | The key loop appends one group per key, each filled by the recursive call, and stops at the first failing key. The result is `Parse(node)`. |
| YamlLoad.ParseItemsInto | src/maps/node_map.cpp:304-307 | The element loop parses each element into the same parent and stops at the first failure. The result is `Parse(node)`. |
| YamlLoad.ReadLandmarkReads | src/maps/node_map.cpp:285-291 | Succeeds exactly when `mean` exists and reads as a vector, `cov` exists and reads as a matrix, and any `caption` is a scalar. The leaf is a landmark with that mean, covariance and caption (default ""). A missing or unreadable `mean` is the error reported first. |
| YamlLoad.ParseMeanMap | src/maps/node_map.cpp:277-291 | A map with `mean` appends one landmark exactly when `mean` reads as a vector, `cov` exists and reads as a matrix, and any `caption` is a scalar. The landmark has that mean, covariance and caption (default ""). Otherwise it appends nothing and fails with the landmark read's error. |
| YamlLoad.ParseEntriesGroups | src/maps/node_map.cpp:292-303 | Each map key becomes a group of that name holding what its value parsed to, in the library's order. On an error the last group is the failing one, kept with its partial contents, and the following keys are skipped. |
| YamlLoad.ParseMapGroups | src/maps/node_map.cpp:292-303 | A map without `mean` that parses cleanly appends exactly one group per key, in order. |
| YamlLoad.ParseEntriesStops | src/maps/node_map.cpp:292-303 | After a key fails, the remaining keys change nothing. |
| YamlLoad.ParseItemsFlatten | src/maps/node_map.cpp:304-307 | A sequence opens no group: it appends, in order, what each element appends. |
| YamlLoad.ParseItemsStops | src/maps/node_map.cpp:304-307 | After an element fails, the remaining elements change nothing. |
| YamlLoad.ParseItemsInOrder | src/maps/node_map.cpp:304-307 | A sequence parses cleanly exactly when every element does. Otherwise the error is the first failing element's, and what stays appended is what the elements up to and including it appended. |
| YamlLoad.ParseScalarFails | src/maps/node_map.cpp:308-311 | A scalar or null node hits the parser's assertion and appends nothing. |
| YamlLoad.ParseBuildsNoLines | src/maps/node_map.cpp:275-312 | The parser builds only groups and landmarks, never line nodes. |
| YamlLoad.NoLinesLeafs | src/maps/node_map.cpp:89-124 | In a tree without line nodes, every collected leaf is a landmark. |
| YamlLoad.ReadDocumentReads | src/maps/node_map.cpp:260-262 | Succeeds exactly when `metrics` and `reference` exist and read as vectors and `root` exists. The document carries those two vectors and the `root` node. A missing `metrics` is the error reported first. |
| YamlLoad.LoadDocReads | src/maps/node_map.cpp:260-264 | A document whose `metrics`, `reference` and `root` read appends what its `root` parses to. Otherwise it appends nothing and fails with the read's error. So it loads exactly when its keys read and its root parses. |
| YamlLoad.LoadDocInto | src/maps/node_map.cpp:259-265 | One pass of the document loop appends `LoadDoc(doc)` to the new root and returns its error. |
| YamlLoad.ChainStep | src/maps/node_map.cpp:259-265 | After error-free documents, the next one appends its nodes and sets the error. |
| YamlLoad.ChainStops | src/maps/node_map.cpp:259-265 | Once a document fails, the later documents are not loaded. |
| YamlLoad.ChainInOrder | src/maps/node_map.cpp:259-265 | The load succeeds exactly when every document does, and then appends their results in order. |
| YamlLoad.LoadDocsInOrder | src/maps/node_map.cpp:259-265 | A successful load appends, in document order, what each document's `root` parsed to. |
| YamlLoad.LoadDocsSucceed | src/maps/node_map.cpp:259-265 | The whole stream loads exactly when every document's keys read and every document's `root` parses. |
| LandmarkMap.DrawFromOwnParams | src/maps/node_map.cpp:130-143 | A landmark's draw is a sample of the Gaussian it was built with, whatever its caption. A line's draw depends on its line and height. |
| LandmarkMap.DrawCount | src/maps/node_map.cpp:202 | Comparing the `int` count with an `unsigned` counter draws `numbers` samples when it is non-negative and `numbers + 2^32` when it is negative. |
| LandmarkMap.NodeMap.DrawSamples | src/maps/node_map.cpp:196-208 | The list has `DrawCount(numbers)` entries. Entry k pairs the leaf chosen by the k-th random index with a sample drawn from it, and every entry's node is a leaf in scope. |
| LandmarkMap.NodeMap.constructor | src/maps/node_map.cpp:184-187 | The map holds exactly the given limits, translation and root. |
| LandmarkMap.NodeMap.GetNearestDistance | src/maps/node_map.cpp:211-214 | The map's search is the root's search. |
| LandmarkMap.PathsStartAtRoot | src/maps/node_map.cpp:252 | Under the root captioned "root", a path whose first segment is neither empty nor `root` finds no leaves and answers the sentinel. |
| LandmarkMap.NodeMap.ToYaml | src/maps/node_map.cpp:217-220 | Writing is not implemented: it reports failure. |
| LandmarkMap.LoadDocAt | src/maps/node_map.cpp:259-264 | One pass of the loop appends the document's part and returns its error; on success it also returns the document's `metrics` and `reference`. |
| LandmarkMap.LoadNext | src/maps/node_map.cpp:259-264 | After error-free documents, one pass grows the root's children by document `i`'s part and sets the error to its error; on success it returns that document's `metrics` and `reference`. |
| LandmarkMap.LoadPrefix | src/maps/node_map.cpp:259-265 | The loop ends after the first failing document or after the last one. The children are the chain of the parts loaded so far, and the metadata is that of the last document loaded. |
| LandmarkMap.LoadStream | src/maps/node_map.cpp:259-265 | The loop appends exactly `LoadDocs(docs)` and ends with its error. On success the metadata is the last document's, or the unset values when there are no documents. |
| LandmarkMap.NodeMap.FromYaml | src/maps/node_map.cpp:242-271 | A failed stream returns false and changes nothing. Otherwise the root becomes a new "root" group holding what the documents appended, up to the first failure. On a failure the limits and translation stay as they were; on success they come from the last document. |
| LandmarkMap.RecordsAreLandmarks | src/maps/node_map.cpp:326-340 | The snapshot records exactly the landmark leaves, and no line leaf. |
| LandmarkMap.RecordsOfLandmarks | src/maps/node_map.cpp:326-340 | Over landmark leaves only, record k is leaf k's caption, mean and covariance. |
| LandmarkMap.NodeMap.GetMap | src/maps/node_map.cpp:316-343 | The snapshot holds the limits, the translation and the records of the first `bound` leaves. With the full bound it records every landmark of the tree, in order. |
| BuoyExample.BuoyLoads | src/maps/node_map.cpp:259-303 | The one-landmark document loads into `root` → `basin` → the buoy. |
| BuoyExample.BasinUnqualified | src/maps/node_map.cpp:76 | On the loaded tree, the bare path `basin` finds no leaves, because the root's caption is "root". |
| BuoyExample.RootQualified | src/maps/node_map.cpp:89-124 | On the loaded tree, `root.basin` finds the buoy. |
| BuoyExample.BuoyAtMean | src/maps/node_map.cpp:74-85 | A query at the buoy's own mean, at distance 0, returns the sentinel and not the buoy. |
| BuoyExample.BuoyFound | src/maps/node_map.cpp:74-85 | A query scoring the buoy above `DoubleMin` returns the buoy with that score. |

## Left out

- File input: the path constructor `NodeMap(const std::string&)`, opening the stream and YAML text parsing. The input is a failure flag and the sequence of already-parsed documents.
  - A YAML syntax error after document k is not expressible. In the source, `GetNextDocument` throws with the first k documents loaded and the metadata untouched. Given those k documents, the model reports success and sets the metadata from document k.
- `node_map.hpp` and the `Map` base class are not part of this model. Because of that:
  - `getLeafs()` called without a caption is taken to pass the empty path.
  - `landmarks.size()` in `getMap` is the caller's `bound`.
  - `getLimitations()` is the `limitations` field.
- LandmarkMap.NodeMap.GetMap: requires `bound` to be at most the number of leaves. In the source, a larger `landmarks.size()` reads past the end of the leaf vector, which is undefined behaviour.
- LandmarkMap.NodeMap.DrawSamples requires these (the source checks none of them):
  - `numbers` fits an `int`, which the source's parameter type guarantees.
  - One random index is supplied per sample.
  - Every index falls among the leaves. With no leaves, the source's `uniform_int(0, nodes.size() - 1)` bound wraps around and indexing is undefined.
- The random generator (`uniform_int`), the Gaussian drawer and `LineNode::draw` are the `Sampler` and index parameters.
  - `LineNode::draw` returns a default-constructed `Eigen::Vector3d()`, whose contents Eigen leaves uninitialised. The model takes it from the parameter `line`.
- `LandmarkNode::draw` returns the Gaussian drawer's sample, and `Draw` defers it to the parameter.
- The Mahalanobis distance and the line score are the `Metric` parameter.
  - `LineNode::getNearestDistance` has an empty body, so its result is undefined. It is the parameter `lineScore`.
- Floating point: scores, vectors and matrices are exact reals. NaN and rounding are not modelled. `DoubleMin` is exactly 2^-1022.
- Node identity: nodes are values, not `Node*` addresses.
  - NodeTree.GroupNode.RemoveChild: erases the first child *equal* to the argument. The source compares addresses, so two equal but distinct children are not told apart.
  - A YAML group is appended after its subtree is parsed. The source appends the `Node*` first and fills it afterwards. The final tree is the same, including after a failure.
- Destructors and `delete`: no memory is modelled. A null root, which `fromYaml` tests before deleting, is not a state of the model.
- Console and error output (`std::cout`, `std::cerr`) is left out.
- `BOOST_ASSERT(0)` in `parseYamlNode` is modelled as the assertion failing, which ends the load with `Unrecognised`. A build that compiles assertions out would skip the node instead.
- YAML detail:
  - Keys are taken as strings.
  - A map's keys are unique in the library, so `FindValue` finding the first entry with a key finds the only one.
  - An integer index into a map node fails like a missing index.
  - A double is whatever the library reads; the model records it as the scalar's `number`.
- Eigen's `Translation3d` is a plain vector.
- Type errors in `drawSamples`, which do not compile as written:
  - It stores `Node*` results in a vector of `LandmarkNode*`.
  - It uses the type name `kNode`.
- `getLeafs` has the same mismatch: it assigns the `vector<Node*>` returned by a child's `getLeafs` to a `vector<LandmarkNode*>`. The model returns the leaves' features.
  - The model returns leaves paired with their samples.
- The fall-through from `NODE_LANDMARK` into `NODE_LINE` in `getMap` only reaches `break`, and is not modelled separately.
- Leaves never have children in the model. The source's `Node` lets any node hold children, but leaf classes never receive any.
- The zero-document case of `fromYaml` assigns uninitialised Eigen vectors. The model takes them as the caller's `unsetLimit` and `unsetTranslation`.
- The GUI (`viz/`) is left out.
