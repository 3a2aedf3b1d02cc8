/** Binary Merkle roots, membership proofs and the node tree. */
module Merkle {
  /** Hashes built from leaf hashes: Keccak of two hashes laid end to end. */
  datatype Hash = EmptyHash | Atom(id: int) | Keccak(left: Hash, right: Hash)

  /** The right partner of an even position; the last of an odd level is its own. */
  function Partner(level: seq<Hash>, i: nat): Hash
    requires i < |level|
  {
    if i + 1 < |level| then level[i + 1] else level[i]
  }

  function Next(level: seq<Hash>): (r: seq<Hash>)
    ensures |r| == (|level| + 1) / 2
    ensures forall i {:trigger r[i]} :: 0 <= i < |r| ==> r[i] == Keccak(level[2 * i], Partner(level, 2 * i))
  {
    seq((|level| + 1) / 2, i requires 0 <= 2 * i < |level| => Keccak(level[2 * i], Partner(level, 2 * i)))
  }

  function Root(level: seq<Hash>): Hash
    decreases |level|
  {
    if |level| == 0 then EmptyHash else if |level| == 1 then level[0] else Root(Next(level))
  }

  /** The loop both functions build a level with. */
  method NextLevel(level: seq<Hash>) returns (next: seq<Hash>)
    ensures next == Next(level)
  {
    next := [];
    var i := 0;
    while i + 1 < |level|
      invariant i == 2 * |next| && i <= |level|
      invariant next == Next(level)[..|next|]
    {
      next := next + [Keccak(level[i], level[i + 1])];
      i := i + 2;
    }
    if |level| % 2 == 1 {
      next := next + [Keccak(level[|level| - 1], level[|level| - 1])];
    }
  }

  method GetBinaryMerkleRoot(level: seq<Hash>) returns (root: Hash)
    ensures root == Root(level)
    decreases |level|
  {
    if |level| == 0 {
      return EmptyHash;
    }
    if |level| == 1 {
      return level[0];
    }
    var next := NextLevel(level);
    root := GetBinaryMerkleRoot(next);
  }

  // ---------- proofs ----------

  function Sibling(level: seq<Hash>, index: nat): Hash
    requires index < |level|
  {
    if index % 2 == 0 then Partner(level, index) else level[index - 1]
  }

  /** The siblings on the way up. */
  function Proof(level: seq<Hash>, index: nat): seq<Hash>
    requires index < |level|
    decreases |level|
  {
    if |level| == 1 then [] else [Sibling(level, index)] + Proof(Next(level), index / 2)
  }

  /** How a proof is checked: the position tells on which side the sibling goes. */
  function Fold(hash: Hash, index: nat, proof: seq<Hash>): Hash
    decreases |proof|
  {
    if proof == [] then hash
    else Fold(if index % 2 == 0 then Keccak(hash, proof[0]) else Keccak(proof[0], hash), index / 2, proof[1..])
  }

  /** Folding a leaf with its proof gives the root. */
  lemma {:induction false} ProofFolds(level: seq<Hash>, index: nat)
    requires index < |level|
    ensures Fold(level[index], index, Proof(level, index)) == Root(level)
    decreases |level|
  {
    if |level| > 1 {
      var proof, next := Proof(level, index), Next(level);
      assert proof == [Sibling(level, index)] + Proof(next, index / 2);
      assert proof[1..] == Proof(next, index / 2);
      assert next[index / 2] ==
        if index % 2 == 0 then Keccak(level[index], proof[0]) else Keccak(proof[0], level[index]);
      ProofFolds(next, index / 2);
    }
  }

  /** No other hash and no other proof of that length folds to the root. */
  lemma {:induction false} ProofBinds(level: seq<Hash>, index: nat, hash: Hash, proof: seq<Hash>)
    requires index < |level| && |proof| == |Proof(level, index)| && Fold(hash, index, proof) == Root(level)
    ensures hash == level[index] && proof == Proof(level, index)
    decreases |level|
  {
    if |level| > 1 {
      var next := Next(level);
      assert Proof(level, index) == [Sibling(level, index)] + Proof(next, index / 2);
      var up := if index % 2 == 0 then Keccak(hash, proof[0]) else Keccak(proof[0], hash);
      ProofBinds(next, index / 2, up, proof[1..]);
      assert next[index / 2] == Keccak(level[index / 2 * 2], Partner(level, index / 2 * 2));
      assert proof == [proof[0]] + proof[1..];
    }
  }

  /** The levels of the tree from the leaves to the root. */
  ghost predicate Levels(leaves: seq<Hash>, tree: seq<seq<Hash>>) {
    && |tree| > 0 && tree[0] == leaves
    && forall d {:trigger Above(tree, d)} :: 0 <= d < |tree| - 1 ==> Above(tree, d)
  }

  ghost predicate Above(tree: seq<seq<Hash>>, d: nat)
    requires d + 1 < |tree|
  {
    |tree[d]| > 1 && tree[d + 1] == Next(tree[d])
  }

  /** GetMerkleProof: build all levels, then collect the siblings. */
  method GetMerkleProof(leafLevel: seq<Hash>, index: nat) returns (proof: seq<Hash>)
    requires index < |leafLevel|
    ensures proof == Proof(leafLevel, index)
  {
    if |leafLevel| == 1 {
      return [];
    }
    var tree, depth := [leafLevel], 0;
    while |tree[depth]| > 1
      invariant |tree| == depth + 1 && Levels(leafLevel, tree) && |tree[depth]| >= 1
      decreases |tree[depth]|
    {
      var next := NextLevel(tree[depth]);
      ghost var before := tree;
      tree := tree + [next];
      forall d | 0 <= d < |tree| - 1 ensures Above(tree, d) {
        if d < depth { assert Above(before, d); }
      }
      depth := depth + 1;
    }
    proof := CollectSiblings(tree, depth, leafLevel, index);
  }

  method CollectSiblings(tree: seq<seq<Hash>>, depth: nat, ghost leafLevel: seq<Hash>, index: nat)
    returns (proof: seq<Hash>)
    requires |tree| == depth + 1 && Levels(leafLevel, tree) && |tree[depth]| == 1 && index < |leafLevel|
    ensures proof == Proof(leafLevel, index)
  {
    proof := [];
    var nodeIndex: nat := index;
    for i := 0 to depth
      invariant nodeIndex < |tree[i]| && proof + Proof(tree[i], nodeIndex) == Proof(leafLevel, index)
    {
      assert Above(tree, i);
      var level := tree[i];
      var sibling := SiblingOf(level, nodeIndex);
      ProofStep(proof, level, nodeIndex);
      proof := proof + [sibling];
      nodeIndex := nodeIndex / 2;
    }
    assert Proof(tree[depth], nodeIndex) == [] && proof + [] == proof;
  }

  /** The sibling of a position in a level; the last of an odd level is its own. */
  method SiblingOf(level: seq<Hash>, nodeIndex: nat) returns (h: Hash)
    requires nodeIndex < |level|
    ensures h == Sibling(level, nodeIndex)
  {
    if nodeIndex % 2 == 0 {
      var siblingIndex := nodeIndex + 1;
      if |level| == siblingIndex {
        siblingIndex := nodeIndex;
      }
      h := level[siblingIndex];
    } else {
      h := level[nodeIndex - 1];
    }
  }

  lemma ProofStep(proof: seq<Hash>, level: seq<Hash>, index: nat)
    requires index < |level| && |level| > 1
    ensures index / 2 < |Next(level)|
    ensures proof + [Sibling(level, index)] + Proof(Next(level), index / 2) == proof + Proof(level, index)
  {
    assert proof + [Sibling(level, index)] + Proof(Next(level), index / 2) ==
      proof + ([Sibling(level, index)] + Proof(Next(level), index / 2));
  }

  // ---------- the node tree ----------

  datatype Node = Leaf(hash: Hash, content: int, dup: bool) | Inner(left: Node, right: Node, hash: Hash)

  /** The hash of a content. */
  function ContentHash(content: int): Hash {
    Atom(content)
  }

  /** calculateHashRecursively */
  function Recalculated(n: Node): Hash {
    match n
    case Leaf(_, content, _) => ContentHash(content)
    case Inner(left, right, _) => Keccak(Recalculated(left), Recalculated(right))
  }

  /** The same shape with the same leaf contents, whatever hashes the nodes store. */
  ghost predicate SameContents(m: Node, n: Node) {
    match m
    case Leaf(_, content, _) => n.Leaf? && n.content == content
    case Inner(left, right, _) => n.Inner? && SameContents(left, n.left) && SameContents(right, n.right)
  }

  /** A recalculation tells trees with different shapes or contents apart. */
  lemma {:induction false} RecalculatedBinds(m: Node, n: Node)
    ensures Recalculated(m) == Recalculated(n) <==> SameContents(m, n)
  {
    if m.Inner? && n.Inner? {
      RecalculatedBinds(m.left, n.left);
      RecalculatedBinds(m.right, n.right);
    }
  }

  function HashesOf(nodes: seq<Node>): (r: seq<Hash>)
    ensures |r| == |nodes| && forall i {:trigger r[i]} :: 0 <= i < |nodes| ==> r[i] == nodes[i].hash
  {
    seq(|nodes|, i requires 0 <= i < |nodes| => nodes[i].hash)
  }

  /** Stored hashes are what a recalculation gives. */
  ghost predicate AllSound(nodes: seq<Node>) {
    forall i :: 0 <= i < |nodes| ==> Recalculated(nodes[i]) == nodes[i].hash
  }

  /** The loop of buildIntermediate: one level of inner nodes. */
  method BuildLevel(nodeList: seq<Node>) returns (nodes: seq<Node>)
    requires AllSound(nodeList)
    ensures HashesOf(nodes) == Next(HashesOf(nodeList)) && AllSound(nodes)
  {
    nodes := [];
    ghost var hashes := HashesOf(nodeList);
    var i := 0;
    while i < |nodeList|
      invariant i == 2 * |nodes| && i <= |nodeList| + 1 && AllSound(nodes)
      invariant forall k {:trigger nodes[k]} :: 0 <= k < |nodes| ==> nodes[k].hash == Next(hashes)[k]
    {
      var left, right := i, i + 1;
      if i + 1 == |nodeList| {
        right := i;
      }
      assert Keccak(nodeList[left].hash, nodeList[right].hash) == Next(hashes)[|nodes|];
      nodes := nodes + [Inner(nodeList[left], nodeList[right], Keccak(nodeList[left].hash, nodeList[right].hash))];
      i := i + 2;
    }
  }

  /** buildIntermediate: the root of the levels above a list of at least two nodes. */
  method BuildIntermediate(nodeList: seq<Node>) returns (root: Node)
    requires |nodeList| >= 2 && AllSound(nodeList)
    ensures root.hash == Root(HashesOf(nodeList)) && Recalculated(root) == root.hash
    decreases |nodeList|
  {
    var nodes := BuildLevel(nodeList);
    assert |nodes| == |HashesOf(nodes)| == (|nodeList| + 1) / 2;
    if |nodeList| == 2 {
      root := nodes[0];
      assert HashesOf(nodes)[0] == root.hash;
    } else {
      root := BuildIntermediate(nodes);
    }
  }

  function ContentHashes(contents: seq<int>): (r: seq<Hash>)
    ensures |r| == |contents| && forall i {:trigger r[i]} :: 0 <= i < |contents| ==> r[i] == ContentHash(contents[i])
  {
    seq(|contents|, i requires 0 <= i < |contents| => ContentHash(contents[i]))
  }

  /** Contents with the last one doubled if their number is odd. */
  function Evened(contents: seq<int>): seq<int> {
    if |contents| % 2 == 1 then contents + [contents[|contents| - 1]] else contents
  }

  /** Doubling the last of an odd number of at least three leaves does not change the root. */
  lemma EvenedRoot(contents: seq<int>)
    ensures |contents| != 1 ==> Root(ContentHashes(Evened(contents))) == Root(ContentHashes(contents))
    ensures |contents| == 1 ==>
      Root(ContentHashes(Evened(contents))) == Keccak(ContentHash(contents[0]), ContentHash(contents[0]))
  {
    var a, b := ContentHashes(contents), ContentHashes(Evened(contents));
    if |contents| % 2 == 1 {
      assert Next(a) == Next(b);
      if |contents| == 1 {
        assert Next(b) == [Keccak(a[0], a[0])];
      }
    }
  }

  /** The node tree has the binary root exactly if there is not a single content. */
  lemma EvenedExactly(contents: seq<int>)
    ensures Root(ContentHashes(Evened(contents))) == Root(ContentHashes(contents)) <==> |contents| != 1
  {
    EvenedRoot(contents);
  }

  /** Contents of a list of leaves. */
  ghost predicate LeavesFor(leaves: seq<Node>, contents: seq<int>) {
    |leaves| == |contents| && forall i :: 0 <= i < |leaves| ==>
      leaves[i].Leaf? && leaves[i].content == contents[i] && leaves[i].hash == ContentHash(contents[i])
  }

  /** buildWithContent, for at least one content. */
  method BuildWithContent(contents: seq<int>) returns (root: Node, leaves: seq<Node>)
    requires |contents| > 0
    ensures LeavesFor(leaves, Evened(contents)) && root.hash == Root(ContentHashes(Evened(contents)))
    ensures Recalculated(root) == root.hash
  {
    leaves := [];
    for i := 0 to |contents|
      invariant LeavesFor(leaves, contents[..i])
    {
      leaves := leaves + [Leaf(ContentHash(contents[i]), contents[i], false)];
    }
    assert contents[..|contents|] == contents;
    if |leaves| % 2 == 1 {
      var last := leaves[|leaves| - 1];
      leaves := leaves + [Leaf(last.hash, last.content, true)];
    }
    assert HashesOf(leaves) == ContentHashes(Evened(contents));
    root := BuildIntermediate(leaves);
  }

  class MerkleTree {
    var root: Node
    var merkleRoot: Hash
    var leaves: seq<Node>

    /** The tree is the one built from the contents of its leaves. */
    ghost predicate Valid(contents: seq<int>)
      reads this
    {
      && |contents| > 0 && |contents| % 2 == 0 && LeavesFor(leaves, contents)
      && merkleRoot == root.hash == Root(ContentHashes(contents)) && Recalculated(root) == root.hash
    }

    constructor (contents: seq<int>)
      requires |contents| > 0
      ensures Valid(Evened(contents))
      ensures |contents| >= 2 ==> merkleRoot == Root(ContentHashes(contents))
      ensures |contents| == 1 ==> merkleRoot == Keccak(ContentHash(contents[0]), ContentHash(contents[0]))
    {
      EvenedRoot(contents);
      var r, ls := BuildWithContent(contents);
      root, merkleRoot, leaves := r, r.hash, ls;
    }

    /** RebuildTree: the root stays, whatever the number of leaves. */
    method RebuildTree(ghost contents: seq<int>)
      requires Valid(contents)
      modifies this
      ensures Valid(contents) && merkleRoot == old(merkleRoot)
    {
      var cs := [];
      for i := 0 to |leaves|
        invariant cs == contents[..i] && leaves == old(leaves) && merkleRoot == old(merkleRoot)
      {
        cs := cs + [leaves[i].content];
      }
      assert cs == contents;
      var r, ls := BuildWithContent(cs);
      root, leaves, merkleRoot := r, ls, r.hash;
    }

    /** VerifyTree accepts every tree as it was built; and of a tree `built` that the root is from it accepts exactly
        the node trees with its shape and leaf contents, so any change of a content is found. */
    method VerifyTree(ghost contents: seq<int>, ghost built: Node) returns (ok: bool)
      ensures Valid(contents) ==> ok
      ensures merkleRoot == Recalculated(built) ==> (ok <==> SameContents(root, built))
    {
      RecalculatedBinds(root, built);
      ok := merkleRoot == Recalculated(root);
    }
  }

  /** NewTree fails on an empty list of contents only. */
  method NewTree(contents: seq<int>) returns (t: MerkleTree?)
    ensures t == null <==> contents == []
    ensures t != null ==> fresh(t) && t.Valid(Evened(contents))
    ensures |contents| >= 2 ==> t.merkleRoot == Root(ContentHashes(contents))
  {
    if |contents| == 0 {
      return null;
    }
    t := new MerkleTree(contents);
  }
}
