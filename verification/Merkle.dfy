/** Merkle trees and proofs (ethcoder/merkle_proof.go). Keccak-256 is an arbitrary function
    with 32-byte results. */
module Merkle {
  import opened Wrappers
  import opened Sequences
  import opened BigEndian

  type Bytes = seq<byte>

  /** One step of a path: the sibling, and whether it stands on the left. */
  datatype ProofNode = ProofNode(isLeft: bool, data: Bytes)

  /** How pairs are hashed. */
  datatype Hasher = Hasher(keccak: Bytes -> Bytes, sortPairs: bool)

  ghost predicate Sound(h: Hasher)
  {
    forall x: Bytes :: |h.keccak(x)| == 32
  }

  // ---- lexicographic order ----------------------------------------------------------------

  /** bytes.Compare. */
  function Compare(a: Bytes, b: Bytes): (c: int)
    ensures c == -1 || c == 0 || c == 1
  {
    if a == [] && b == [] then 0
    else if a == [] then -1
    else if b == [] then 1
    else if a[0] < b[0] then -1
    else if a[0] > b[0] then 1
    else Compare(a[1..], b[1..])
  }

  lemma {:induction false} CompareSwap(a: Bytes, b: Bytes)
    ensures Compare(a, b) == -Compare(b, a)
    ensures Compare(a, b) == 0 <==> a == b
    decreases |a|
  {
    if a != [] && b != [] {
      CompareSwap(a[1..], b[1..]);
      assert a == [a[0]] + a[1..] && b == [b[0]] + b[1..];
    }
  }

  /** The order is lexicographic: a comes first exactly if it is a proper prefix of b or has the smaller
      byte where they first differ. */
  lemma {:induction false} CompareLexicographic(a: Bytes, b: Bytes)
    ensures Compare(a, b) < 0 <==> (a < b || exists i :: FirstDiffers(a, b, i) && a[i] < b[i])
    decreases |a|
  {
    if a != [] && b != [] {
      CompareLexicographic(a[1..], b[1..]);
      assert a == [a[0]] + a[1..] && b == [b[0]] + b[1..];
      if a[0] != b[0] {
        assert FirstDiffers(a, b, 0);
      } else {
        if i :| FirstDiffers(a[1..], b[1..], i) && a[1..][i] < b[1..][i] {
          assert a[..i + 1] == [a[0]] + a[1..][..i] && b[..i + 1] == [b[0]] + b[1..][..i];
          assert FirstDiffers(a, b, i + 1);
        }
        if i :| FirstDiffers(a, b, i) && a[i] < b[i] {
          assert a[1..][..i - 1] == a[..i][1..] && b[1..][..i - 1] == b[..i][1..];
          assert FirstDiffers(a[1..], b[1..], i - 1);
        }
      }
    }
  }

  ghost predicate FirstDiffers(a: Bytes, b: Bytes, i: int)
  {
    0 <= i < |a| && i < |b| && a[..i] == b[..i] && a[i] != b[i]
  }

  lemma {:induction false} CompareTransitive(a: Bytes, b: Bytes, c: Bytes)
    requires Compare(a, b) <= 0 && Compare(b, c) <= 0
    ensures Compare(a, c) <= 0
    decreases |a|
  {
    if a != [] && b != [] && c != [] && a[0] == b[0] && b[0] == c[0] {
      CompareTransitive(a[1..], b[1..], c[1..]);
    }
  }

  // ---- the tree as a function of its bottom layer -------------------------------------------

  /** Two nodes in the order in which they are hashed. */
  function Pair(h: Hasher, left: Bytes, right: Bytes): (r: Bytes)
  {
    if h.sortPairs && Compare(left, right) > 0 then right + left else left + right
  }

  function Combine(h: Hasher, left: Bytes, right: Bytes): (r: Bytes)
  {
    h.keccak(Pair(h, left, right))
  }

  /** The layer above: pairs are hashed, an odd node at the end moves up as it is. */
  function PairUp(h: Hasher, nodes: seq<Bytes>): (r: seq<Bytes>)
    ensures |nodes| <= 2 * |r| <= |nodes| + 1
  {
    if |nodes| <= 1 then nodes
    else [Combine(h, nodes[0], nodes[1])] + PairUp(h, nodes[2..])
  }

  /** All layers, leaves first, up to the root. */
  function Layers(h: Hasher, nodes: seq<Bytes>): (r: seq<seq<Bytes>>)
    ensures |r| >= 1 && r[0] == nodes
    decreases |nodes|
  {
    if |nodes| <= 1 then [nodes] else [nodes] + Layers(h, PairUp(h, nodes))
  }

  function Root(h: Hasher, nodes: seq<Bytes>): (r: Bytes)
    requires nodes != []
    decreases |nodes|
  {
    if |nodes| == 1 then nodes[0] else Root(h, PairUp(h, nodes))
  }

  function Last<T>(s: seq<T>): (x: T)
    requires s != []
  {
    s[|s| - 1]
  }

  lemma LastAbove<T>(x: T, s: seq<T>)
    requires s != []
    ensures Last([x] + s) == Last(s)
  {
  }

  /** The top layer is the root alone. */
  lemma {:induction false} TopLayer(h: Hasher, nodes: seq<Bytes>)
    requires nodes != []
    ensures Last(Layers(h, nodes)) == [Root(h, nodes)]
    decreases |nodes|
  {
    if |nodes| == 1 {
      assert nodes == [nodes[0]];
    } else {
      var up := PairUp(h, nodes);
      TopLayer(h, up);
      LastAbove(nodes, Layers(h, up));
    }
  }

  /** The sibling of a node, if it has one. */
  function Sibling(i: nat): (j: nat) { if i % 2 == 0 then i + 1 else i - 1 }

  lemma {:induction false} PairAt(h: Hasher, nodes: seq<Bytes>, i: nat)
    requires 2 * i < |nodes|
    ensures 2 * i + 1 < |nodes| ==> PairUp(h, nodes)[i] == Combine(h, nodes[2 * i], nodes[2 * i + 1])
    ensures 2 * i + 1 == |nodes| ==> PairUp(h, nodes)[i] == nodes[2 * i]
    decreases i
  {
    if i > 0 {
      var rest := nodes[2..];
      PairAt(h, rest, i - 1);
      assert PairUp(h, nodes) == [Combine(h, nodes[0], nodes[1])] + PairUp(h, rest);
      assert PairUp(h, nodes)[i] == PairUp(h, rest)[i - 1];
      assert rest[2 * (i - 1)] == nodes[2 * i];
    }
  }

  /** Node k of the layer above is the hash of the two nodes below it, the left one first, or with sorted
      pairs the smaller one. */
  lemma PairHash(h: Hasher, nodes: seq<Bytes>, k: nat)
    requires 2 * k + 1 < |nodes|
    ensures var a, b := nodes[2 * k], nodes[2 * k + 1];
            PairUp(h, nodes)[k] == h.keccak(if h.sortPairs && Compare(b, a) < 0 then b + a else a + b)
  {
    PairAt(h, nodes, k);
    CompareSwap(nodes[2 * k], nodes[2 * k + 1]);
  }

  /** A node's parent is the hash of the node and its sibling in their order, or the node. */
  lemma PairUpAt(h: Hasher, nodes: seq<Bytes>, i: nat)
    requires i < |nodes|
    ensures PairUp(h, nodes)[i / 2] ==
            if Sibling(i) >= |nodes| then nodes[i]
            else if i % 2 == 0 then Combine(h, nodes[i], nodes[i + 1])
            else Combine(h, nodes[i - 1], nodes[i])
  {
    var k := i / 2;
    PairAt(h, nodes, k);
    if i % 2 == 0 {
      assert i == 2 * k;
    } else {
      assert i == 2 * k + 1;
    }
  }

  // ---- proofs -----------------------------------------------------------------------------

  /** The path from node i of the bottom layer to the top, sibling by sibling. */
  function ProofFor(layers: seq<seq<Bytes>>, i: nat): (p: seq<ProofNode>)
    ensures |p| <= if |layers| == 0 then 0 else |layers| - 1
  {
    if |layers| <= 1 then []
    else
      var rest := ProofFor(layers[1..], i / 2);
      if Sibling(i) < |layers[0]| then [ProofNode(i % 2 != 0, layers[0][Sibling(i)])] + rest else rest
  }

  /** What one step of the verifier hashes. */
  function ClimbInput(h: Hasher, hash: Bytes, node: ProofNode): (r: Bytes)
  {
    if h.sortPairs then
      if Compare(hash, node.data) < 0 then hash + node.data else node.data + hash
    else if node.isLeft then node.data + hash
    else hash + node.data
  }

  function Climb(h: Hasher, hash: Bytes, node: ProofNode): (r: Bytes)
  {
    h.keccak(ClimbInput(h, hash, node))
  }

  function ClimbAll(h: Hasher, hash: Bytes, proof: seq<ProofNode>): (r: Bytes)
    decreases |proof|
  {
    if proof == [] then hash else ClimbAll(h, Climb(h, hash, proof[0]), proof[1..])
  }

  /** The verifier's step with the right sibling is the builder's step, in all sort modes. */
  lemma ClimbIsCombine(h: Hasher, left: Bytes, right: Bytes)
    ensures Climb(h, left, ProofNode(false, right)) == Combine(h, left, right)
    ensures Climb(h, right, ProofNode(true, left)) == Combine(h, left, right)
  {
    CompareSwap(left, right);
  }

  /** From every leaf, its proof climbs to the root. */
  lemma {:induction false} ProofReachesRoot(h: Hasher, nodes: seq<Bytes>, i: nat)
    requires i < |nodes|
    ensures ClimbAll(h, nodes[i], ProofFor(Layers(h, nodes), i)) == Root(h, nodes)
    decreases |nodes|
  {
    if |nodes| > 1 {
      var up := PairUp(h, nodes);
      ProofReachesRoot(h, up, i / 2);
      PairUpAt(h, nodes, i);
      assert Layers(h, nodes)[1..] == Layers(h, up);
      var rest, j := ProofFor(Layers(h, up), i / 2), Sibling(i);
      if j < |nodes| {
        var step := ProofNode(i % 2 != 0, nodes[j]);
        assert ([step] + rest)[1..] == rest;
        ClimbIsCombine(h, nodes[if i % 2 == 0 then i else j], nodes[if i % 2 == 0 then j else i]);
      }
    }
  }

  function CeilLog2(n: nat): (k: nat)
  {
    if n <= 1 then 0 else 1 + CeilLog2((n + 1) / 2)
  }

  lemma {:induction false} CeilLog2Exact(n: nat)
    requires n > 0
    ensures n <= Pow2(CeilLog2(n)) && (n > 1 ==> Pow2(CeilLog2(n) - 1) < n)
  {
    if n > 1 {
      CeilLog2Exact((n + 1) / 2);
    }
  }

  lemma {:induction false} LayerCount(h: Hasher, nodes: seq<Bytes>)
    requires nodes != []
    ensures |Layers(h, nodes)| == CeilLog2(|nodes|) + 1
    decreases |nodes|
  {
    if |nodes| > 1 {
      LayerCount(h, PairUp(h, nodes));
    }
  }

  /** The root is not empty: it is a hash of two nodes, or the hash of the only leaf. */
  lemma {:induction false} RootNonEmpty(h: Hasher, nodes: seq<Bytes>)
    requires Sound(h) && nodes != [] && (|nodes| == 1 ==> nodes[0] != [])
    ensures Root(h, nodes) != []
    decreases |nodes|
  {
    if |nodes| > 1 {
      var up := PairUp(h, nodes);
      if |up| == 1 {
        assert up[0] == Combine(h, nodes[0], nodes[1]);
      }
      RootNonEmpty(h, up);
    }
  }

  // ---- sorted leaves -----------------------------------------------------------------------

  ghost predicate Sorted(nodes: seq<Bytes>)
  {
    forall i, j :: 0 <= i < j < |nodes| ==> Compare(nodes[i], nodes[j]) <= 0
  }

  /** Two sorted arrangements of one collection are the same. */
  lemma {:induction false} SortedUnique(a: seq<Bytes>, b: seq<Bytes>)
    requires Sorted(a) && Sorted(b) && multiset(a) == multiset(b)
    ensures a == b
    decreases |a|
  {
    if a == [] {
      assert |multiset(b)| == 0;
    } else {
      assert |multiset(a)| == |a| && |multiset(b)| == |b|;
      SmallestFirst(a, b);
      assert a == [a[0]] + a[1..] && b == [b[0]] + b[1..];
      ConsMultiset(a[0], a[1..]);
      ConsMultiset(b[0], b[1..]);
      CancelOne(multiset(a[1..]), multiset(b[1..]), a[0]);
      SortedUnique(a[1..], b[1..]);
    }
  }

  lemma SmallestFirst(a: seq<Bytes>, b: seq<Bytes>)
    requires Sorted(a) && Sorted(b) && multiset(a) == multiset(b) && a != [] && b != []
    ensures a[0] == b[0]
  {
    assert a[0] in multiset(b) && b[0] in multiset(a);
    var i :| 0 <= i < |b| && b[i] == a[0];
    var j :| 0 <= j < |a| && a[j] == b[0];
    CompareSwap(a[0], b[0]);
  }

  /** With sorted leaf hashes the root depends only on which leaves there are. */
  lemma RootIgnoresOrder(h: Hasher, a: seq<Bytes>, b: seq<Bytes>)
    requires Sorted(a) && Sorted(b) && multiset(a) == multiset(b) && a != []
    ensures b != [] && Root(h, a) == Root(h, b)
  {
    SortedUnique(a, b);
  }

  // ---- soundness ---------------------------------------------------------------------------

  /** y is the pair number j of this layer. */
  ghost predicate HashedAt(h: Hasher, nodes: seq<Bytes>, y: Bytes, j: nat)
  {
    2 * j + 1 < |nodes| && y == Pair(h, nodes[2 * j], nodes[2 * j + 1])
  }

  /** y was hashed while the layers over these nodes were built. */
  ghost predicate TreeInput(h: Hasher, nodes: seq<Bytes>, y: Bytes)
    decreases |nodes|
  {
    || (exists j: nat :: HashedAt(h, nodes, y, j))
    || (|nodes| > 1 && TreeInput(h, PairUp(h, nodes), y))
  }

  /** What the verifier hashes in its step k. */
  ghost function StepInput(h: Hasher, hash: Bytes, proof: seq<ProofNode>, k: nat): (x: Bytes)
    requires k < |proof|
  {
    ClimbInput(h, ClimbAll(h, hash, proof[..k]), proof[k])
  }

  /** One of the inputs the verifier hashes has the same hash as a different input that the builder
      hashed: a second preimage, written down by the proof. */
  ghost predicate Clash(h: Hasher, nodes: seq<Bytes>, hash: Bytes, proof: seq<ProofNode>)
  {
    exists k, y ::
      && 0 <= k < |proof| && TreeInput(h, nodes, y)
      && y != StepInput(h, hash, proof, k) && h.keccak(y) == h.keccak(StepInput(h, hash, proof, k))
  }

  ghost predicate AllHashes(nodes: seq<Bytes>)
  {
    forall i :: 0 <= i < |nodes| ==> |nodes[i]| == 32
  }

  ghost predicate ProofHashes(proof: seq<ProofNode>)
  {
    forall i :: 0 <= i < |proof| ==> |proof[i].data| == 32
  }

  lemma {:induction false} LayerHashes(h: Hasher, nodes: seq<Bytes>)
    requires Sound(h) && AllHashes(nodes)
    ensures AllHashes(PairUp(h, nodes))
    decreases |nodes|
  {
    if |nodes| > 1 {
      LayerHashes(h, nodes[2..]);
    }
  }

  /** The same siblings, on the same sides where the verifier looks at the sides. */
  ghost predicate SamePath(h: Hasher, p: seq<ProofNode>, q: seq<ProofNode>)
  {
    && |p| == |q|
    && forall i :: 0 <= i < |p| ==> p[i].data == q[i].data && (h.sortPairs || p[i].isLeft == q[i].isLeft)
  }

  /** After k steps the verifier is at node i of layer d, and the rest of the proof is the path the
      tree itself has from there. A proof that does not start in the tree enters it at a leaf. */
  ghost predicate JoinsAt(h: Hasher, layers: seq<seq<Bytes>>, hash: Bytes, proof: seq<ProofNode>, k: nat, d: nat, i: nat)
  {
    && k <= |proof| && d < |layers| && i < |layers[d]| && (k == 0 || d == 0)
    && ClimbAll(h, hash, proof[..k]) == layers[d][i]
    && SamePath(h, proof[k..], ProofFor(layers[d..], i))
  }

  ghost predicate FollowsTree(h: Hasher, nodes: seq<Bytes>, hash: Bytes, proof: seq<ProofNode>)
  {
    exists k: nat, d: nat, i: nat :: JoinsAt(h, Layers(h, nodes), hash, proof, k, d, i)
  }

  lemma {:induction false} ClimbSplit(h: Hasher, hash: Bytes, proof: seq<ProofNode>, k: nat)
    requires k <= |proof|
    ensures ClimbAll(h, hash, proof) == ClimbAll(h, ClimbAll(h, hash, proof[..k]), proof[k..])
    decreases |proof|
  {
    if k == 0 {
      assert proof[k..] == proof;
    } else {
      ClimbSplit(h, Climb(h, hash, proof[0]), proof[1..], k - 1);
      assert proof[..k][1..] == proof[1..][..k - 1] && proof[1..][k - 1..] == proof[k..];
    }
  }

  lemma {:induction false} ClimbStep(h: Hasher, hash: Bytes, proof: seq<ProofNode>, k: nat)
    requires k < |proof|
    ensures ClimbAll(h, hash, proof[..k + 1]) == h.keccak(StepInput(h, hash, proof, k))
  {
    ClimbSplit(h, hash, proof[..k + 1], k);
    assert proof[..k + 1][..k] == proof[..k] && proof[..k + 1][k..] == [proof[k]];
    assert [proof[k]][1..] == [];
  }

  lemma {:induction false} ClimbLength(h: Hasher, hash: Bytes, proof: seq<ProofNode>)
    requires Sound(h) && |hash| == 32
    ensures |ClimbAll(h, hash, proof)| == 32
    decreases |proof|
  {
    if proof != [] {
      ClimbLength(h, Climb(h, hash, proof[0]), proof[1..]);
    }
  }

  lemma {:induction false} SamePathClimbs(h: Hasher, hash: Bytes, p: seq<ProofNode>, q: seq<ProofNode>)
    requires SamePath(h, p, q)
    ensures ClimbAll(h, hash, p) == ClimbAll(h, hash, q)
    decreases |p|
  {
    if p != [] {
      SamePathClimbs(h, Climb(h, hash, p[0]), p[1..], q[1..]);
    }
  }

  /** From every node of every layer, its path climbs to the root. */
  lemma {:induction false} LayerReachesRoot(h: Hasher, nodes: seq<Bytes>, d: nat, i: nat)
    requires nodes != [] && d < |Layers(h, nodes)| && i < |Layers(h, nodes)[d]|
    ensures ClimbAll(h, Layers(h, nodes)[d][i], ProofFor(Layers(h, nodes)[d..], i)) == Root(h, nodes)
    decreases d
  {
    var layers := Layers(h, nodes);
    if d == 0 {
      ProofReachesRoot(h, nodes, i);
      assert layers[0..] == layers;
    } else {
      var up := PairUp(h, nodes);
      assert layers == [nodes] + Layers(h, up);
      assert layers[d..] == Layers(h, up)[d - 1..];
      LayerReachesRoot(h, up, d - 1, i);
    }
  }

  /** Whatever joins the tree is accepted. */
  lemma FollowingIsAccepted(h: Hasher, nodes: seq<Bytes>, hash: Bytes, proof: seq<ProofNode>)
    requires nodes != [] && FollowsTree(h, nodes, hash, proof)
    ensures ClimbAll(h, hash, proof) == Root(h, nodes)
  {
    var layers := Layers(h, nodes);
    var k: nat, d: nat, i: nat :| JoinsAt(h, layers, hash, proof, k, d, i);
    ClimbSplit(h, hash, proof, k);
    SamePathClimbs(h, layers[d][i], proof[k..], ProofFor(layers[d..], i));
    LayerReachesRoot(h, nodes, d, i);
  }

  /** Two ordered pairs of hashes are equal only if the verifier holds one of the two nodes and the
      proof gives the other, on its side. */
  lemma SamePair(h: Hasher, hash: Bytes, node: ProofNode, l: Bytes, r: Bytes)
    requires |hash| == |node.data| == |l| == |r| && ClimbInput(h, hash, node) == Pair(h, l, r)
    ensures || (hash == l && node.data == r && (h.sortPairs || !node.isLeft))
            || (hash == r && node.data == l && (h.sortPairs || node.isLeft))
  {
    var x := ClimbInput(h, hash, node);
    var n := |hash|;
    assert (hash + node.data)[..n] == hash && (hash + node.data)[n..] == node.data;
    assert (node.data + hash)[..n] == node.data && (node.data + hash)[n..] == hash;
    assert (l + r)[..n] == l && (l + r)[n..] == r && (r + l)[..n] == r && (r + l)[n..] == l;
    assert (x[..n] == hash && x[n..] == node.data) || (x[..n] == node.data && x[n..] == hash);
  }

  /** A proof that joins the layer above at a hashed pair joins this layer one step earlier, at one
      of the two nodes, unless what it hashed there clashes. */
  lemma JoinBelowPair(h: Hasher, nodes: seq<Bytes>, hash: Bytes, proof: seq<ProofNode>, k: nat, i: nat)
    requires Sound(h) && AllHashes(nodes) && |hash| == 32 && ProofHashes(proof)
    requires |nodes| > 1 && JoinsAt(h, Layers(h, PairUp(h, nodes)), hash, proof, k + 1, 0, i) && 2 * i + 1 < |nodes|
    ensures FollowsTree(h, nodes, hash, proof) || Clash(h, nodes, hash, proof)
  {
    var l, r := nodes[2 * i], nodes[2 * i + 1];
    PairAt(h, nodes, i);
    ClimbStep(h, hash, proof, k);
    if StepInput(h, hash, proof, k) == Pair(h, l, r) {
      var left := WhichSide(h, hash, proof, k, l, r);
      JoinOneLower(h, Layers(h, nodes), nodes, Layers(h, PairUp(h, nodes)), hash, proof, k, i, left);
    } else {
      assert HashedAt(h, nodes, Pair(h, l, r), i);
    }
  }

  /** Which of the two nodes the verifier holds. */
  lemma WhichSide(h: Hasher, hash: Bytes, proof: seq<ProofNode>, k: nat, l: Bytes, r: Bytes) returns (left: bool)
    requires Sound(h) && |hash| == |l| == |r| == 32 && ProofHashes(proof) && k < |proof|
    requires StepInput(h, hash, proof, k) == Pair(h, l, r)
    ensures ClimbAll(h, hash, proof[..k]) == (if left then l else r) && proof[k].data == (if left then r else l)
    ensures h.sortPairs || proof[k].isLeft == !left
  {
    var c := ClimbAll(h, hash, proof[..k]);
    ClimbLength(h, hash, proof[..k]);
    SamePair(h, c, proof[k], l, r);
    left := c == l && proof[k].data == r && (h.sortPairs || !proof[k].isLeft);
  }

  lemma JoinOneLower(h: Hasher, layers: seq<seq<Bytes>>, nodes: seq<Bytes>, above: seq<seq<Bytes>>, hash: Bytes,
                     proof: seq<ProofNode>, k: nat, i: nat, left: bool)
    requires layers == [nodes] + above && JoinsAt(h, above, hash, proof, k + 1, 0, i) && 2 * i + 1 < |nodes|
    requires ClimbAll(h, hash, proof[..k]) == nodes[if left then 2 * i else 2 * i + 1]
    requires proof[k].data == nodes[if left then 2 * i + 1 else 2 * i] && (h.sortPairs || proof[k].isLeft == !left)
    ensures JoinsAt(h, layers, hash, proof, k, 0, if left then 2 * i else 2 * i + 1)
  {
    var j, other := if left then 2 * i else 2 * i + 1, if left then 2 * i + 1 else 2 * i;
    assert Sibling(j) == other && j / 2 == i && (j % 2 != 0) == !left;
    PathThrough(layers, nodes, above, j);
    var step, path := ProofNode(!left, nodes[other]), ProofFor(above, i);
    assert proof[k..] == [proof[k]] + proof[k + 1..];
    SamePathCons(h, proof[k], proof[k + 1..], step, path);
    assert ProofFor(layers, j) == [step] + path;
  }

  lemma SamePathCons(h: Hasher, x: ProofNode, p: seq<ProofNode>, y: ProofNode, q: seq<ProofNode>)
    requires SamePath(h, p, q) && x.data == y.data && (h.sortPairs || x.isLeft == y.isLeft)
    ensures SamePath(h, [x] + p, [y] + q)
  {
  }

  /** The path of a node through the layer above. */
  lemma PathThrough(layers: seq<seq<Bytes>>, nodes: seq<Bytes>, above: seq<seq<Bytes>>, j: nat)
    requires layers == [nodes] + above && above != []
    ensures layers[0..] == layers && above[0..] == above
    ensures ProofFor(layers, j) ==
            (if Sibling(j) < |nodes| then [ProofNode(j % 2 != 0, nodes[Sibling(j)])] else []) + ProofFor(above, j / 2)
  {
    assert layers[1..] == above;
  }

  /** An odd node at the end is the same node in both layers. */
  lemma JoinBelowOdd(h: Hasher, layers: seq<seq<Bytes>>, nodes: seq<Bytes>, above: seq<seq<Bytes>>, hash: Bytes,
                     proof: seq<ProofNode>, k: nat, i: nat)
    requires layers == [nodes] + above && JoinsAt(h, above, hash, proof, k, 0, i)
    requires 2 * i + 1 == |nodes| && above[0][i] == nodes[2 * i]
    ensures JoinsAt(h, layers, hash, proof, k, 0, 2 * i)
  {
    PathThrough(layers, nodes, above, 2 * i);
    assert 2 * i / 2 == i && Sibling(2 * i) == |nodes|;
    NoneRight(ProofFor(above, i));
  }

  /** What joins an upper layer at its start joins it here too. */
  lemma JoinAbove(h: Hasher, layers: seq<seq<Bytes>>, nodes: seq<Bytes>, above: seq<seq<Bytes>>, hash: Bytes,
                  proof: seq<ProofNode>, d: nat, i: nat)
    requires layers == [nodes] + above && JoinsAt(h, above, hash, proof, 0, d, i)
    ensures JoinsAt(h, layers, hash, proof, 0, d + 1, i)
  {
    assert layers[d + 1..] == above[d..];
  }

  /** What joins the tree over the layer above joins the tree, or it clashes. */
  lemma JoinDown(h: Hasher, nodes: seq<Bytes>, hash: Bytes, proof: seq<ProofNode>)
    requires Sound(h) && AllHashes(nodes) && |hash| == 32 && ProofHashes(proof)
    requires |nodes| > 1 && FollowsTree(h, PairUp(h, nodes), hash, proof)
    ensures FollowsTree(h, nodes, hash, proof) || Clash(h, nodes, hash, proof)
  {
    var above := Layers(h, PairUp(h, nodes));
    var k: nat, d: nat, i: nat :| JoinsAt(h, above, hash, proof, k, d, i);
    if k == 0 {
      JoinAbove(h, Layers(h, nodes), nodes, above, hash, proof, d, i);
    } else if 2 * i + 1 < |nodes| {
      JoinBelowPair(h, nodes, hash, proof, k - 1, i);
    } else {
      PairAt(h, nodes, i);
      JoinBelowOdd(h, Layers(h, nodes), nodes, above, hash, proof, k, i);
    }
  }

  /** A proof of hashes that climbs to the root joins the tree, along the tree's own path, or it
      shows a clash with what was hashed for the tree. */
  lemma {:induction false} AcceptedIsInTree(h: Hasher, nodes: seq<Bytes>, hash: Bytes, proof: seq<ProofNode>)
    requires Sound(h) && nodes != [] && AllHashes(nodes) && |hash| == 32 && ProofHashes(proof)
    requires ClimbAll(h, hash, proof) == Root(h, nodes)
    ensures FollowsTree(h, nodes, hash, proof) || Clash(h, nodes, hash, proof)
    decreases |nodes|
  {
    if |nodes| == 1 {
      var k := |proof|;
      assert proof[..k] == proof && proof[k..] == [];
      assert JoinsAt(h, Layers(h, nodes), hash, proof, k, 0, 0);
    } else {
      LayerHashes(h, nodes);
      AcceptedIsInTree(h, PairUp(h, nodes), hash, proof);
      if FollowsTree(h, PairUp(h, nodes), hash, proof) {
        JoinDown(h, nodes, hash, proof);
      }
    }
  }

  /** Without the lengths this fails: what was hashed for the root of two leaves, taken for a leaf hash,
      is accepted with an empty sibling, outside the tree and without a clash. */
  lemma LengthsMatter(h: Hasher, a: Bytes, b: Bytes)
    requires Sound(h) && |a| == |b| == 32 && Combine(h, a, b) !in [a, b]
    ensures var nodes, hash, proof := [a, b], Pair(h, a, b), [ProofNode(true, [])];
            && ClimbAll(h, hash, proof) == Root(h, nodes)
            && !FollowsTree(h, nodes, hash, proof) && !Clash(h, nodes, hash, proof)
  {
    var nodes, hash, node := [a, b], Pair(h, a, b), ProofNode(true, []);
    var up := [Combine(h, a, b)];
    NoneRight(hash);
    assert ClimbInput(h, hash, node) == hash;
    assert [node][1..] == [] && [node][..0] == [] && [node][..1] == [node];
    assert nodes[2..] == [] && PairUp(h, nodes) == up && Layers(h, nodes) == [nodes, up];
    forall y | TreeInput(h, nodes, y) ensures y == hash {
      OnlyPair(h, a, b, y);
    }
    forall k: nat, d: nat, i: nat ensures !JoinsAt(h, Layers(h, nodes), hash, [node], k, d, i) {
    }
  }

  lemma OnlyPair(h: Hasher, a: Bytes, b: Bytes, y: Bytes)
    requires TreeInput(h, [a, b], y)
    ensures y == Pair(h, a, b)
  {
    var nodes := [a, b];
    assert |PairUp(h, nodes)| == 1;
    var j: nat :| HashedAt(h, nodes, y, j);
    assert j == 0;
  }

  // ---- the tree object ---------------------------------------------------------------------

  datatype Error = HashError | LeafNotFound | InvalidProofLeafOrRoot

  /** The bytes sort.Slice compares: a hash error is ignored and counts as empty. */
  function Key<L>(hashFn: L -> Option<Bytes>, leaf: L): (k: Bytes)
  {
    var h := hashFn(leaf); if h.Some? then h.value else []
  }

  ghost function Keys<L>(hashFn: L -> Option<Bytes>, leaves: seq<L>): (ks: seq<Bytes>)
    ensures |ks| == |leaves| && forall i :: 0 <= i < |leaves| ==> ks[i] == Key(hashFn, leaves[i])
  {
    if leaves == [] then [] else [Key(hashFn, leaves[0])] + Keys(hashFn, leaves[1..])
  }

  ghost predicate SortedLeaves<L>(hashFn: L -> Option<Bytes>, leaves: seq<L>)
  {
    forall i, j :: 0 <= i < j < |leaves| ==> Compare(Key(hashFn, leaves[i]), Key(hashFn, leaves[j])) <= 0
  }

  /** Stands for sort.Slice: some arrangement of the leaves with ascending hashes. */
  method SortLeaves<L>(hashFn: L -> Option<Bytes>, leaves: seq<L>) returns (r: seq<L>)
    ensures multiset(r) == multiset(leaves) && SortedLeaves(hashFn, r)
  {
    r := [];
    for i := 0 to |leaves|
      invariant multiset(r) == multiset(leaves[..i]) && SortedLeaves(hashFn, r)
    {
      var x := leaves[i];
      var k := InsertPosition(hashFn, r, x);
      assert leaves[..i + 1] == leaves[..i] + [x];
      InsertSorted(hashFn, r, k, x);
      r := r[..k] + [x] + r[k..];
    }
    assert leaves[..|leaves|] == leaves;
  }

  method InsertPosition<L>(hashFn: L -> Option<Bytes>, r: seq<L>, x: L) returns (k: nat)
    requires SortedLeaves(hashFn, r)
    ensures k <= |r|
    ensures forall i :: 0 <= i < k ==> Compare(Key(hashFn, r[i]), Key(hashFn, x)) <= 0
    ensures forall i :: k <= i < |r| ==> Compare(Key(hashFn, x), Key(hashFn, r[i])) <= 0
  {
    k := 0;
    while k < |r| && Compare(Key(hashFn, r[k]), Key(hashFn, x)) <= 0
      invariant k <= |r|
      invariant forall i :: 0 <= i < k ==> Compare(Key(hashFn, r[i]), Key(hashFn, x)) <= 0
    {
      k := k + 1;
    }
    forall i | k <= i < |r| ensures Compare(Key(hashFn, x), Key(hashFn, r[i])) <= 0 {
      CompareSwap(Key(hashFn, r[k]), Key(hashFn, x));
      if i > k {
        CompareTransitive(Key(hashFn, x), Key(hashFn, r[k]), Key(hashFn, r[i]));
      }
    }
  }

  lemma InsertSorted<L>(hashFn: L -> Option<Bytes>, r: seq<L>, k: nat, x: L)
    requires k <= |r| && SortedLeaves(hashFn, r)
    requires forall i :: 0 <= i < k ==> Compare(Key(hashFn, r[i]), Key(hashFn, x)) <= 0
    requires forall i :: k <= i < |r| ==> Compare(Key(hashFn, x), Key(hashFn, r[i])) <= 0
    ensures var s := r[..k] + [x] + r[k..]; multiset(s) == multiset(r) + multiset{x} && SortedLeaves(hashFn, s)
  {
    var s := r[..k] + [x] + r[k..];
    assert r == r[..k] + r[k..];
    forall i, j | 0 <= i < j < |s| ensures Compare(Key(hashFn, s[i]), Key(hashFn, s[j])) <= 0 {
      var i', j' := if i < k then i else i - 1, if j < k then j else j - 1;
      if i != k && j != k {
        assert s[i] == r[i'] && s[j] == r[j'];
      }
    }
  }

  class MerkleTree<L(==)> {
    const hashFn: L -> Option<Bytes>
    const h: Hasher
    const sortLeaves: bool
    var leaves: seq<L>
    var layers: seq<seq<Bytes>>

    /** The layers are those over the leaves' hashes. */
    ghost predicate Built()
      reads this
    {
      && (forall i :: 0 <= i < |leaves| ==> hashFn(leaves[i]).Some?)
      && layers == Layers(h, Keys(hashFn, leaves))
    }

    constructor (given: seq<L>, hashFn: L -> Option<Bytes>, h: Hasher, sortLeaves: bool)
      ensures this.hashFn == hashFn && this.h == h && this.sortLeaves == sortLeaves
      ensures multiset(leaves) == multiset(given) && (!sortLeaves ==> leaves == given)
      ensures sortLeaves ==> Sorted(Keys(hashFn, leaves))
      ensures (forall i :: 0 <= i < |leaves| ==> hashFn(leaves[i]).Some?) ==> Built()
      ensures (exists i :: 0 <= i < |leaves| && hashFn(leaves[i]).None?) ==> layers == []
    {
      this.hashFn, this.h, this.sortLeaves := hashFn, h, sortLeaves;
      leaves, layers := given, [];
      new;
      if sortLeaves {
        leaves := SortLeaves(hashFn, given);
      }
      var nodes := [];
      for i := 0 to |leaves|
        invariant |nodes| == i && layers == []
        invariant forall k :: 0 <= k < i ==> hashFn(leaves[k]) == Some(nodes[k])
      {
        var node := hashFn(leaves[i]);
        if node == None {
          return;
        }
        nodes := nodes + [node.value];
      }
      assert nodes == Keys(hashFn, leaves);
      CreateHashes(nodes);
    }

    /** Builds layer upon layer until one node is left. */
    method CreateHashes(given: seq<Bytes>)
      modifies this`layers
      ensures layers == Layers(h, given)
    {
      var nodes := given;
      layers := [nodes];
      while |nodes| > 1
        invariant |layers| > 0 && layers[..|layers| - 1] + Layers(h, nodes) == Layers(h, given)
        invariant layers[|layers| - 1] == nodes
        decreases |nodes|
      {
        var next := NextLayer(nodes);
        ghost var below := layers[..|layers| - 1];
        assert below + Layers(h, nodes) == (below + [nodes]) + Layers(h, next);
        layers := layers + [next];
        assert layers[..|layers| - 1] == below + [nodes];
        nodes := next;
      }
      assert layers == layers[..|layers| - 1] + [nodes];
    }

    /** Hashes the nodes two by two. */
    method NextLayer(nodes: seq<Bytes>) returns (next: seq<Bytes>)
      ensures next == PairUp(h, nodes)
    {
      next := [];
      var i := 0;
      assert nodes[0..] == nodes;
      while i < |nodes|
        invariant 0 <= i <= |nodes| && next + PairUp(h, nodes[i..]) == PairUp(h, nodes)
      {
        PairStep(h, nodes, i);
        if i + 1 == |nodes| {
          NoneRight([nodes[i]]);
          next := next + [nodes[i]];
          i := i + 1;
        } else {
          Assoc(next, [Combine(h, nodes[i], nodes[i + 1])], PairUp(h, nodes[i + 2..]));
          next := next + [Combine(h, nodes[i], nodes[i + 1])];
          i := i + 2;
        }
      }
    }

    /** The top of the layers; empty if a leaf could not be hashed. On a tree without leaves the top
        layer has no node and its index panics, which is None here. */
    method GetRoot() returns (root: Option<Bytes>)
      requires layers == [] || Built()
      ensures root == None <==> layers != [] && leaves == []
      ensures layers == [] ==> root == Some([])
      ensures layers != [] && leaves != [] ==> root == Some(Root(h, Keys(hashFn, leaves)))
    {
      if |layers| == 0 {
        return Some([]);
      }
      var top := layers[|layers| - 1];
      if leaves != [] {
        TopLayer(h, Keys(hashFn, leaves));
      }
      root := if |top| == 0 then None else Some(top[0]);
    }

    /** The path of the first leaf with the same hash. */
    method GetProof(leaf: L) returns (proof: Option<seq<ProofNode>>, err: Option<Error>)
      ensures hashFn(leaf) == None ==> err == Some(HashError)
      ensures hashFn(leaf).Some? ==> err == if hashFn(leaf).value in Keys(hashFn, leaves) then None else Some(LeafNotFound)
      ensures err == None <==> proof.Some?
      ensures err == None ==>
                exists i :: 0 <= i < |leaves| && Key(hashFn, leaves[i]) == hashFn(leaf).value && proof.value == ProofFor(layers, i)
    {
      var target := hashFn(leaf);
      if target == None {
        return None, Some(HashError);
      }
      var leafIndex := 0;
      while leafIndex < |leaves| && Key(hashFn, leaves[leafIndex]) != target.value
        invariant leafIndex <= |leaves|
        invariant forall k :: 0 <= k < leafIndex ==> Key(hashFn, leaves[k]) != target.value
      {
        leafIndex := leafIndex + 1;
      }
      if leafIndex == |leaves| {
        return None, Some(LeafNotFound);
      }
      assert Keys(hashFn, leaves)[leafIndex] == target.value;
      var path := PathFrom(leafIndex);
      return Some(path), None;
    }

    /** Collects siblings on the way up. */
    method PathFrom(leafIndex: nat) returns (proof: seq<ProofNode>)
      ensures proof == ProofFor(layers, leafIndex)
    {
      proof := [];
      var index, i := leafIndex, 0;
      assert layers[0..] == layers;
      while i < |layers| - 1
        invariant i <= |layers| && proof + ProofFor(layers[i..], index) == ProofFor(layers, leafIndex)
      {
        PathStep(layers, i, index);
        ghost var above := ProofFor(layers[i + 1..], index / 2);
        var pairIndex := if index % 2 == 0 then index + 1 else index - 1;
        if pairIndex < |layers[i]| {
          var node := ProofNode(index % 2 != 0, layers[i][pairIndex]);
          Assoc(proof, [node], above);
          proof := proof + [node];
        } else {
          NoneRight(above);
        }
        index, i := index / 2, i + 1;
      }
    }

    method Verify(proof: Option<seq<ProofNode>>, leaf: L, root: Bytes) returns (ok: bool, err: Option<Error>)
      ensures hashFn(leaf) == None ==> !ok && err == Some(HashError)
      ensures hashFn(leaf).Some? && (proof == None || hashFn(leaf).value == [] || root == []) ==>
                !ok && err == Some(InvalidProofLeafOrRoot)
      ensures hashFn(leaf).Some? && proof.Some? && hashFn(leaf).value != [] && root != [] ==>
                err == None && (ok <==> ClimbAll(h, hashFn(leaf).value, proof.value) == root)
    {
      var start := hashFn(leaf);
      if start == None {
        return false, Some(HashError);
      }
      if proof == None || start.value == [] || root == [] {
        return false, Some(InvalidProofLeafOrRoot);
      }
      var hash, p := start.value, proof.value;
      assert p[0..] == p;
      for i := 0 to |p|
        invariant ClimbAll(h, hash, p[i..]) == ClimbAll(h, start.value, p)
      {
        assert p[i..][1..] == p[i + 1..];
        hash := Climb(h, hash, p[i]);
      }
      return hash == root, None;
    }
  }

  /** The next pair of a layer, or the odd node at its end. */
  lemma {:induction false} PairStep(h: Hasher, nodes: seq<Bytes>, i: nat)
    requires i < |nodes|
    ensures i + 1 == |nodes| ==> PairUp(h, nodes[i..]) == [nodes[i]] && PairUp(h, nodes[i + 1..]) == []
    ensures i + 1 < |nodes| ==> PairUp(h, nodes[i..]) == [Combine(h, nodes[i], nodes[i + 1])] + PairUp(h, nodes[i + 2..])
  {
    var rest := nodes[i..];
    if i + 1 == |nodes| {
      assert rest == [nodes[i]];
    } else {
      assert rest[0] == nodes[i] && rest[1] == nodes[i + 1] && rest[2..] == nodes[i + 2..];
    }
  }

  /** One layer of a proof. */
  lemma PathStep(layers: seq<seq<Bytes>>, i: nat, index: nat)
    requires i < |layers| - 1
    ensures var pairIndex := if index % 2 == 0 then index + 1 else index - 1;
            ProofFor(layers[i..], index)
            == (if pairIndex < |layers[i]| then [ProofNode(index % 2 != 0, layers[i][pairIndex])] else [])
               + ProofFor(layers[i + 1..], index / 2)
  {
    assert layers[i..][1..] == layers[i + 1..] && layers[i..][0] == layers[i];
  }

  /** The promise of the package: the proof of any leaf of a tree verifies against its root,
      with or without sorted leaves and sorted pairs, and it is short. */
  method ProveAndVerify<L(==)>(given: seq<L>, hashFn: L -> Option<Bytes>, h: Hasher, sortLeaves: bool, leaf: L)
    returns (ok: bool, length: nat)
    requires Sound(h) && leaf in given && (forall l :: l in given ==> hashFn(l).Some?)
    requires hashFn(leaf).value != []
    ensures ok && length <= CeilLog2(|given|)
  {
    var tree := new MerkleTree(given, hashFn, h, sortLeaves);
    assert forall i :: 0 <= i < |tree.leaves| ==> tree.leaves[i] in multiset(given);
    assert leaf in multiset(tree.leaves);
    assert |multiset(tree.leaves)| == |multiset(given)|;
    ghost var nodes := Keys(hashFn, tree.leaves);
    ghost var at :| 0 <= at < |tree.leaves| && tree.leaves[at] == leaf;
    assert nodes[at] == hashFn(leaf).value;
    var proof, err := tree.GetProof(leaf);
    var root := tree.GetRoot();
    RootNonEmpty(h, nodes);
    ghost var i :| 0 <= i < |tree.leaves| && Key(hashFn, tree.leaves[i]) == hashFn(leaf).value && proof.value == ProofFor(tree.layers, i);
    ProofReachesRoot(h, nodes, i);
    LayerCount(h, nodes);
    var err';
    ok, err' := tree.Verify(proof, leaf, root.value);
    length := |proof.value|;
  }

  /** Verify against GetRoot of a tree accepts exactly the proofs that join the tree, in which the
      leaf's hash is a node or is carried up to a leaf by the first steps; any other accepted proof
      of hashes shows a clash. */
  method VerifyAgainst<L(==)>(tree: MerkleTree<L>, proof: seq<ProofNode>, leaf: L) returns (ok: bool)
    requires Sound(tree.h) && tree.Built() && tree.leaves != [] && AllHashes(Keys(tree.hashFn, tree.leaves))
    requires tree.hashFn(leaf).Some? && |tree.hashFn(leaf).value| == 32 && ProofHashes(proof)
    ensures var nodes, hash := Keys(tree.hashFn, tree.leaves), tree.hashFn(leaf).value;
            && (FollowsTree(tree.h, nodes, hash, proof) ==> ok)
            && (ok ==> FollowsTree(tree.h, nodes, hash, proof) || Clash(tree.h, nodes, hash, proof))
  {
    ghost var nodes, hash := Keys(tree.hashFn, tree.leaves), tree.hashFn(leaf).value;
    var root := tree.GetRoot();
    RootNonEmpty(tree.h, nodes);
    var err;
    ok, err := tree.Verify(Some(proof), leaf, root.value);
    if ok {
      AcceptedIsInTree(tree.h, nodes, hash, proof);
    }
    if FollowsTree(tree.h, nodes, hash, proof) {
      FollowingIsAccepted(tree.h, nodes, hash, proof);
    }
  }

  /** The same leaves in another order have the same hashes in another order. */
  lemma {:induction false} KeysMultiset<L>(hashFn: L -> Option<Bytes>, a: seq<L>, b: seq<L>)
    requires multiset(a) == multiset(b)
    ensures multiset(Keys(hashFn, a)) == multiset(Keys(hashFn, b))
    decreases |a|
  {
    if a == [] {
      assert |multiset(b)| == |multiset(a)| == 0;
    } else {
      var j := TakeOut(a, b);
      KeysMultiset(hashFn, a[1..], b[..j] + b[j + 1..]);
      KeysWithout(hashFn, b, j);
      ConsMultiset(Key(hashFn, a[0]), Keys(hashFn, a[1..]));
    }
  }

  lemma ConsMultiset<T>(x: T, s: seq<T>)
    ensures multiset([x] + s) == multiset(s) + multiset{x}
  {
  }

  lemma CancelOne<T>(a: multiset<T>, b: multiset<T>, x: T)
    requires a + multiset{x} == b + multiset{x}
    ensures a == b
  {
    assert a == (a + multiset{x}) - multiset{x};
  }

  /** Where the first element of one arrangement is in another. */
  lemma TakeOut<L>(a: seq<L>, b: seq<L>) returns (j: nat)
    requires multiset(a) == multiset(b) && a != []
    ensures j < |b| && b[j] == a[0] && multiset(a[1..]) == multiset(b[..j] + b[j + 1..])
  {
    var x := a[0];
    assert x in multiset(b);
    j :| 0 <= j < |b| && b[j] == x;
    var rest := b[..j] + b[j + 1..];
    assert a == [x] + a[1..];
    assert b == b[..j] + [x] + b[j + 1..];
    assert multiset(b) == multiset(rest) + multiset{x};
    assert multiset(a) == multiset(a[1..]) + multiset{x};
    CancelOne(multiset(a[1..]), multiset(rest), x);
  }

  lemma {:induction false} KeysWithout<L>(hashFn: L -> Option<Bytes>, b: seq<L>, j: nat)
    requires j < |b|
    ensures multiset(Keys(hashFn, b)) == multiset(Keys(hashFn, b[..j] + b[j + 1..])) + multiset{Key(hashFn, b[j])}
    decreases j
  {
    var rest := b[..j] + b[j + 1..];
    KeysCons(hashFn, b);
    if j == 0 {
      assert rest == b[1..];
    } else {
      KeysWithout(hashFn, b[1..], j - 1);
      RestCons(b, j);
      KeysCons(hashFn, rest);
      SwapTwo(multiset(Keys(hashFn, rest[1..])), Key(hashFn, b[j]), Key(hashFn, b[0]));
    }
  }

  lemma RestCons<L>(b: seq<L>, j: nat)
    requires 0 < j < |b|
    ensures var rest := b[..j] + b[j + 1..]; rest[0] == b[0] && rest[1..] == b[1..][..j - 1] + b[1..][j..] && b[1..][j - 1] == b[j]
  {
  }

  lemma KeysCons<L>(hashFn: L -> Option<Bytes>, b: seq<L>)
    requires b != []
    ensures multiset(Keys(hashFn, b)) == multiset(Keys(hashFn, b[1..])) + multiset{Key(hashFn, b[0])}
  {
    assert Keys(hashFn, b) == [Key(hashFn, b[0])] + Keys(hashFn, b[1..]);
    ConsMultiset(Key(hashFn, b[0]), Keys(hashFn, b[1..]));
  }

  lemma SwapTwo<T>(m: multiset<T>, x: T, y: T)
    ensures m + multiset{x} + multiset{y} == m + multiset{y} + multiset{x}
  {
  }

  /** With sorted leaves, trees over the same leaves in any order have the same root. */
  method SameRoot<L(==)>(a: seq<L>, b: seq<L>, hashFn: L -> Option<Bytes>, h: Hasher) returns (rootA: Option<Bytes>, rootB: Option<Bytes>)
    requires multiset(a) == multiset(b)
    requires forall l :: l in multiset(a) ==> hashFn(l).Some?
    ensures rootA == rootB
  {
    var s := new MerkleTree<L>(a, hashFn, h, true);
    var t := new MerkleTree<L>(b, hashFn, h, true);
    assert |multiset(s.leaves)| == |multiset(a)| == |multiset(t.leaves)|;
    assert forall i :: 0 <= i < |s.leaves| ==> s.leaves[i] in multiset(a);
    assert forall i :: 0 <= i < |t.leaves| ==> t.leaves[i] in multiset(a);
    rootA := s.GetRoot();
    rootB := t.GetRoot();
    KeysMultiset(hashFn, s.leaves, t.leaves);
    if a != [] {
      RootIgnoresOrder(h, Keys(hashFn, s.leaves), Keys(hashFn, t.leaves));
    }
  }
}
