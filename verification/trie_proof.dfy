/** GetProof and VerifyProof. */
module TrieProof {
  import opened TrieNodes
  import opened TrieInsert
  import opened TrieGet
  import opened TrieHash

  // ---------- GetProof ----------

  /** The nodes on the path of `key`, each under its hash. A leaf is included only if its key matches,
      and the descent stops when the key is used up. */
  function ProofMap(link: Link, key: Nibbles): Db
    decreases link
  {
    if |key| == 0 || link.NoLink? || link.hash.Raw? then map[]
    else
      var here := map[link.hash := Encoded(link.hash.body)];
      match link.hash.body
      case LeafEnc(k, _) => if k <= key then here else map[]
      case ExtEnc(k, next) => if k <= key then here + ProofMap(next, key[|k|..]) else here
      case BranchEnc(cs) => if key[0] < |cs| then here + ProofMap(cs[key[0]], key[1..]) else here
  }

  /** encodeNode: children are encoded by their hashes. */
  function EncodeNode(node: Node, db: Db): Encoding
    requires node.Leaf? || node.Ext? || node.Branch?
  {
    match node
    case Leaf(_, _, key, value) => LeafEnc(key, value)
    case Ext(_, _, key, next) => ExtEnc(key, NodeHash(next, false, db).link)
    case Branch(_, _, cs) => BranchEnc(HashAll(cs, false, db).links)
  }

  lemma EncodeIsHashed(node: Node, db: Db)
    requires node.Leaf? || node.Ext? || node.Branch?
    requires Sound(node, db) && Honest(db)
    ensures To(Digest(EncodeNode(node, db))) == LinkOf(node) == NodeHash(node, false, db).link
  {
    NodeHashOk(node, false, db);
    if node.Ext? { NodeHashOk(node.next, false, db); }
    if node.Branch? { HashAllIsOk(node.children, false, db); }
  }

  ghost predicate Real(nodes: seq<Node>) {
    forall n :: n in nodes ==> n.Leaf? || n.Ext? || n.Branch?
  }

  /** State of the collecting loop: what was collected and what is still to come make the proof. */
  ghost predicate OnPath(nodes: seq<Node>, tn: Node, key: Nibbles, ended: bool, db: Db, total: Db) {
    && WF(LinkOf(tn), ended) && KeyOk(key, ended) && Sound(tn, db)
    && Real(nodes) && (forall n :: n in nodes ==> Sound(n, db))
    && PathMap(nodes) + ProofMap(LinkOf(tn), key) == total
  }

  lemma PathExt(nodes: seq<Node>, n: Node, key: Nibbles, db: Db, total: Db)
    requires OnPath(nodes, n, key, false, db, total) && n.Ext?
    ensures n.key <= key ==> OnPath(nodes + [n], n.next, key[|n.key|..], false, db, total)
    ensures !(n.key <= key) ==> OnPath(nodes + [n], Nil, key, false, db, total)
  {
    PathMapSnoc(nodes, n);
    if n.key <= key { ThroughExt(n.key, key); }
  }

  lemma PathBranch(nodes: seq<Node>, n: Node, key: Nibbles, db: Db, total: Db)
    requires OnPath(nodes, n, key, false, db, total) && n.Branch?
    ensures key[0] < |n.children| && LinkOf(n.children[key[0]]) == EncOf(n).children[key[0]]
    ensures OnPath(nodes + [n], n.children[key[0]], key[1..], key[0] == TERMINATOR, db, total)
  {
    CutKey(key, 0);
    BranchShape(n.cached, n.status, n.children, db);
    PathMapSnoc(nodes, n);
    assert Links(n.children)[key[0]] == LinkOf(n.children[key[0]]);
  }

  lemma PathLeaf(nodes: seq<Node>, n: Node, key: Nibbles, ended: bool, db: Db, total: Db)
    requires OnPath(nodes, n, key, ended, db, total) && n.Leaf? && |key| > 0
    ensures n.key <= key ==> OnPath(nodes + [n], Nil, key, ended, db, total)
    ensures !(n.key <= key) ==> OnPath(nodes, Nil, key, ended, db, total)
  {
    var rest := ProofMap(LinkOf(Nil), key);
    assert rest == map[];
    if n.key <= key {
      PathMapSnoc(nodes, n);
      assert PathMap(nodes + [n]) + rest == PathMap(nodes) + ProofMap(LinkOf(n), key);
    } else {
      assert ProofMap(LinkOf(n), key) == map[];
    }
  }

  /** The collecting loop. */
  method CollectPath(root: Node, hex: Nibbles, db: Db) returns (nodes: seq<Node>, failed: bool)
    requires WF(LinkOf(root), false) && Terminated(hex) && Sound(root, db)
    ensures !failed && Real(nodes)
    ensures forall n :: n in nodes ==> Sound(n, db)
    ensures PathMap(nodes) == ProofMap(LinkOf(root), hex)
  {
    var key, tn := hex, root;
    nodes, failed := [], false;
    ghost var ended := false;
    while |key| > 0 && !tn.Nil?
      invariant !failed && OnPath(nodes, tn, key, ended, db, ProofMap(LinkOf(root), hex))
      decreases !tn.Nil?, LinkOf(tn), tn.HashRef?
    {
      match tn {
        case HashRef(h) =>
          DecodeSound(h, db);
          var loaded := LoadNode(db, h);
          if loaded.None? {
            return nodes, true;
          }
          tn := loaded.value;
        case Ext(_, _, k, next) =>
          PathExt(nodes, tn, key, db, ProofMap(LinkOf(root), hex));
          nodes := nodes + [tn];
          if !(k <= key) {
            tn := Nil;
          } else {
            key, tn := key[|k|..], next;
          }
        case Branch(_, _, cs) =>
          PathBranch(nodes, tn, key, db, ProofMap(LinkOf(root), hex));
          nodes := nodes + [tn];
          ended := key[0] == TERMINATOR;
          tn, key := cs[key[0]], key[1..];
        case Leaf(_, _, k, _) =>
          PathLeaf(nodes, tn, key, ended, db, ProofMap(LinkOf(root), hex));
          if k <= key {
            nodes := nodes + [tn];
          }
          tn := Nil;
      }
    }
  }

  /** The nodes of a path, each under its recomputed hash. */
  ghost function PathMap(nodes: seq<Node>): Db
    requires Real(nodes)
  {
    if nodes == [] then map[]
    else
      var n := nodes[|nodes| - 1];
      PathMap(nodes[..|nodes| - 1])[Digest(EncOf(n)) := Encoded(EncOf(n))]
  }

  lemma PathMapSnoc(nodes: seq<Node>, n: Node)
    requires Real(nodes)
    requires n.Leaf? || n.Ext? || n.Branch?
    ensures PathMap(nodes + [n]) == PathMap(nodes) + map[LinkOf(n).hash := Encoded(LinkOf(n).hash.body)]
  {
    assert (nodes + [n])[..|nodes|] == nodes;
  }

  /** GetProof: the path is collected, then every node is hashed and encoded. */
  method GetProof(root: Node, hex: Nibbles, db: Db) returns (proof: Db, failed: bool)
    requires WF(LinkOf(root), false) && Terminated(hex) && Sound(root, db) && Honest(db)
    ensures !failed && proof == ProofMap(LinkOf(root), hex)
  {
    proof := map[];
    var nodes;
    nodes, failed := CollectPath(root, hex, db);
    if failed {
      return;
    }
    for i := 0 to |nodes|
      invariant proof == PathMap(nodes[..i])
    {
      var n := nodes[i];
      EncodeIsHashed(n, db);
      PathMapSnoc(nodes[..i], n);
      assert nodes[..i + 1] == nodes[..i] + [n];
      var hash := NodeHash(n, false, db).link.hash;
      proof := proof[hash := Encoded(EncodeNode(n, db))];
    }
    assert nodes[..|nodes|] == nodes;
  }

  // ---------- VerifyProof ----------

  datatype Verdict = BadProof | Absent | Found(value: Bytes)

  /** Where one proof node sends the search. */
  datatype Next = Gone | Value(value: Bytes) | Follow(key: Nibbles, hash: Hash)

  /** What the inner search finds in one decoded node. */
  function Advance(enc: Encoding, key: Nibbles): (n: Next)
    ensures n.Follow? ==> n.hash < enc
  {
    if key == [] then Gone
    else match enc
      case LeafEnc(k, v) => if k <= key then Value(v) else Gone
      case ExtEnc(k, next) =>
        if !(k <= key) || |k| == |key| || next.NoLink? then Gone else Follow(key[|k|..], next.hash)
      case BranchEnc(cs) =>
        if key[0] >= |cs| || |key| == 1 || cs[key[0]].NoLink? then Gone
        else assert cs[key[0]] < enc; Follow(key[1..], cs[key[0]].hash)
  }

  function Parses(proof: Db, hash: Hash): bool {
    hash in proof && proof[hash].Encoded? &&
    (proof[hash].enc.BranchEnc? ==> |proof[hash].enc.children| == NUM_BRANCH_CHILDREN)
  }

  /** What VerifyProof answers, as a recursion over the hashes it follows. */
  function Verify(hash: Hash, key: Nibbles, proof: Db): Verdict
    decreases hash
  {
    if !Parses(proof, hash) || hash != Digest(proof[hash].enc) then BadProof
    else match Advance(proof[hash].enc, key)
      case Gone => Absent
      case Value(v) => Found(v)
      case Follow(rest, h) => Verify(h, rest, proof)
  }

  /** The inner loop of proof verification over a decoded node. */
  method SearchNode(node: Node, hex: Nibbles) returns (key: Nibbles, tn: Node)
    requires node.Leaf? || node.Ext? || node.Branch?
    requires forall i :: 0 <= i < |hex| ==> hex[i] <= TERMINATOR
    requires node.Branch? ==> |node.children| == NUM_BRANCH_CHILDREN
    requires exists h, enc :: node == DecodeNode(h, enc)
    ensures forall i :: 0 <= i < |key| ==> key[i] <= TERMINATOR
    ensures match Advance(EncOf(node), hex)
      case Gone => tn.Nil?
      case Value(v) => tn.Leaf? && tn.value == v
      case Follow(rest, h) => tn == HashRef(h) && key == rest
  {
    ghost var h, enc :| node == DecodeNode(h, enc);
    DecodeKeepsHash(h, enc);
    key, tn := hex, node;
    while true
      invariant forall i :: 0 <= i < |key| ==> key[i] <= TERMINATOR
      invariant (tn == node && key == hex) ||
        ((node.Ext? || node.Branch?) && hex != [] && (tn.Nil? || tn.HashRef?) &&
         (if node.Ext? then node.key <= hex && key == hex[|node.key|..] && tn == node.next
          else key == hex[1..] && tn == node.children[hex[0]]))
      decreases tn == node
    {
      if |key| == 0 {
        return [], Nil;
      }
      match tn {
        case Ext(_, _, k, next) =>
          if !(k <= key) {
            return [], Nil;
          }
          tn, key := next, key[|k|..];
        case Branch(_, _, cs) =>
          tn, key := cs[key[0]], key[1..];
        case HashRef(_) =>
          return key, tn;
        case Nil =>
          return key, Nil;
        case Leaf(_, _, k, _) =>
          if !(k <= key) {
            return [], Nil;
          }
          return [], tn;
      }
    }
  }

  /** VerifyProof: follow the hashes, re-hashing every decoded node before it is used. */
  method VerifyProof(rootHash: Hash, hex: Nibbles, proof: Db) returns (v: Verdict)
    requires Terminated(hex)
    ensures v == Verify(rootHash, hex, proof)
  {
    var key, wantHash := hex, rootHash;
    assert forall i :: 0 <= i < |hex| - 1 ==> hex[i] == hex[..|hex| - 1][i];
    while true
      invariant forall i :: 0 <= i < |key| ==> key[i] <= TERMINATOR
      invariant Verify(wantHash, key, proof) == Verify(rootHash, hex, proof)
      decreases wantHash
    {
      if wantHash !in proof {
        return BadProof;
      }
      var n := LoadNode(proof, wantHash);
      if n.None? {
        return BadProof;
      }
      var node := n.value;
      DecodeKeepsHash(wantHash, proof[wantHash].enc);
      // the status is set to dirty, so the hash is recomputed from the decoded content
      if wantHash != LinkOf(node).hash {
        return BadProof;
      }
      var rest, cld := SearchNode(node, key);
      match cld {
        case Nil =>
          return Absent;
        case HashRef(h) =>
          key, wantHash := rest, h;
        case Leaf(_, _, _, value) =>
          return Found(value);
        case _ =>
          assert false;
      }
    }
  }
}
