/** The light client's trie: a node cache filled from validated proofs, read through Trie.Get. */
module LightTrie {
  import opened Options
  import opened TrieNodes
  import opened TrieKeys
  import opened TrieInsert
  import opened TrieGet
  import opened TrieProof
  import opened TrieProofLaws
  import opened TrieUniform
  import opened Trie

  datatype ProofNode = ProofNode(key: Hash, value: Blob)

  /** The last entry of a key wins. */
  ghost function ToMap(nodes: seq<ProofNode>): Db {
    if nodes == [] then map[]
    else ToMap(nodes[..|nodes| - 1])[nodes[|nodes| - 1].key := nodes[|nodes| - 1].value]
  }

  method ArrayToMap(nodes: seq<ProofNode>) returns (proof: Db)
    ensures proof == ToMap(nodes)
  {
    proof := map[];
    for i := 0 to |nodes|
      invariant proof == ToMap(nodes[..i])
    {
      assert nodes[..i + 1][..i] == nodes[..i];
      proof := proof[nodes[i].key := nodes[i].value];
    }
    assert nodes[..|nodes|] == nodes;
  }

  /** The entries come in any order; reading them back gives the map again. */
  method MapToArray(proof: Db) returns (nodes: seq<ProofNode>)
    ensures ToMap(nodes) == proof
  {
    nodes := [];
    var rest := proof.Keys;
    while rest != {}
      invariant rest <= proof.Keys
      invariant ToMap(nodes) == map k | k in proof.Keys - rest :: proof[k]
      decreases |rest|
    {
      var k :| k in rest;
      rest := rest - {k};
      assert (nodes + [ProofNode(k, proof[k])])[..|nodes|] == nodes;
      nodes := nodes + [ProofNode(k, proof[k])];
    }
  }

  /** Every node on the path of `key` is in the database. */
  ghost predicate PathIn(db: Db, link: Link, key: Nibbles)
    decreases link
  {
    link.NoLink? ||
    (link.hash.Digest? && link.hash in db && db[link.hash] == Encoded(link.hash.body) &&
    match link.hash.body
    case LeafEnc(_, _) => true
    case ExtEnc(k, next) => k <= key ==> PathIn(db, next, key[|k|..])
    case BranchEnc(cs) => |key| > 0 && key[0] < |cs| ==> PathIn(db, cs[key[0]], key[1..]))
  }

  lemma {:induction false} PathInIsGenuine(db: Db, link: Link, key: Nibbles)
    requires PathIn(db, link, key)
    ensures GenuineOn(db, link, key)
    decreases link
  {
    if link.To? {
      match link.hash.body
      case LeafEnc(_, _) =>
      case ExtEnc(k, next) => if k <= key { PathInIsGenuine(db, next, key[|k|..]); }
      case BranchEnc(cs) => if |key| > 0 && key[0] < |cs| { PathInIsGenuine(db, cs[key[0]], key[1..]); }
    }
  }

  /** A verified proof leaves every node of the path in the cache it is copied to. */
  lemma {:induction false} VerifiedPathIn(hash: Hash, key: Nibbles, proof: Db, db: Db)
    requires WF(To(hash), false) && Terminated(key) && !AtTerminator(To(hash), key)
    requires Verify(hash, key, proof) != BadProof
    requires forall h :: h in proof ==> h in db && db[h] == proof[h]
    ensures PathIn(db, To(hash), key)
    decreases hash
  {
    match hash.body
    case LeafEnc(_, _) =>
    case ExtEnc(k, next) =>
      if k <= key {
        ThroughExt(k, key);
        VerifiedPathIn(next.hash, key[|k|..], proof, db);
      }
    case BranchEnc(cs) =>
      CutKey(key, 0);
      assert WF(cs[key[0]], key[0] == TERMINATOR);
      if |key| > 1 && cs[key[0]].To? {
        assert key[0] != TERMINATOR;
        VerifiedPathIn(cs[key[0]].hash, key[1..], proof, db);
      }
  }

  /** With the path in the cache, Get does not fail. */
  lemma {:induction false} GetOverPath(db: Db, node: Node, key: Nibbles, ended: bool)
    requires WF(LinkOf(node), ended) && KeyOk(key, ended) && PathIn(db, LinkOf(node), key)
    requires GenuineOn(db, LinkOf(node), key)
    ensures !Get(db, node, key, ended).failed
    decreases LinkOf(node), node.HashRef?
  {
    match node
    case Nil =>
    case HashRef(h) =>
      DecodeKeepsHash(h, h.body);
      GetOverPath(db, LoadNode(db, h).value, key, ended);
    case Leaf(_, _, _, _) =>
    case Ext(_, _, k, next) =>
      if k <= key {
        ThroughExt(k, key);
        GetOverPath(db, next, key[|k|..], false);
      }
    case Branch(_, _, cs) =>
      CutKey(key, 0);
      assert WF(Links(cs)[key[0]], key[0] == TERMINATOR);
      GetOverPath(db, cs[key[0]], key[1..], key[0] == TERMINATOR);
  }

  datatype LightResult = Failure | Success(value: Option<Bytes>)

  /** The root hash a trie reports. */
  ghost function RootHash(s: State): Hash {
    if s.root.Nil? then EMPTY_HASH else LinkOf(s.root).hash
  }

  ghost predicate OneLength(s: State, len: nat) {
    Trie.Valid(s) && !s.root.HashRef? && Uniform(LinkOf(s.root), 2 * len + 1)
  }

  /** What a verified response establishes about the cache it was copied to. */
  lemma CacheHoldsPath(full: State, len: nat, key: Bytes, proof: Db, kvs: Db)
    requires OneLength(full, len) && Verify(RootHash(full), Hex(key), proof) != BadProof
    requires forall h :: h in proof ==> h in kvs && kvs[h] == proof[h]
    ensures !full.root.Nil? && WF(To(RootHash(full)), false)
    ensures PathIn(kvs, To(RootHash(full)), Hex(key)) && GenuineOn(kvs, To(RootHash(full)), Hex(key))
  {
    HexTerminated(key);
    UniformNeverEnds(full, len, key);
    VerifiedPathIn(RootHash(full), Hex(key), proof, kvs);
    PathInIsGenuine(kvs, To(RootHash(full)), Hex(key));
  }

  /** Trie.Get over a cache that holds the path. */
  method ReadThrough(kvs: Db, node: Node, key: Bytes) returns (node': Node, r: LightResult)
    requires WF(LinkOf(node), false) && PathIn(kvs, LinkOf(node), Hex(key)) && GenuineOn(kvs, LinkOf(node), Hex(key))
    ensures LinkOf(node') == LinkOf(node) && r == Success(Lookup(LinkOf(node), Hex(key)))
  {
    HexTerminated(key);
    GetCorrect(kvs, node, Hex(key), false);
    GetOverPath(kvs, node, Hex(key), false);
    var got := TrieGet.Get(kvs, node, Hex(key), false);
    node', r := got.node, if got.failed then Failure else Success(got.value);
  }

  class OdrTrie {
    const root: Hash
    var kvs: Db
    var trie: Option<Node>
    /** The full trie with this root, whose stored keys have `len` bytes. */
    ghost const full: State
    ghost const len: nat

    ghost predicate Valid()
      reads this
    {
      OneLength(full, len) && root == RootHash(full) && (trie.Some? ==> LinkOf(trie.value) == To(root))
    }

    constructor (root: Hash, ghost full: State, ghost len: nat)
      requires OneLength(full, len) && root == RootHash(full)
      ensures Valid() && this.full == full && this.root == root && this.len == len
    {
      this.root, this.full, this.len := root, full, len;
      kvs, trie := map[], None;
    }

    /** Copy the nodes of a response into the cache. */
    method Fill(nodes: seq<ProofNode>)
      modifies this`kvs
      ensures kvs == old(kvs) + ToMap(nodes)
    {
      for i := 0 to |nodes|
        modifies this`kvs
        invariant kvs == old(kvs) + ToMap(nodes[..i])
      {
        assert nodes[..i + 1][..i] == nodes[..i];
        kvs := kvs[nodes[i].key := nodes[i].value];
      }
      assert nodes[..|nodes|] == nodes;
    }

    /** Get with the response of the network: None for a retrieval error, otherwise any list of nodes.
        It succeeds exactly when the response passes verification, and then answers what the full trie
        holds, whatever earlier responses put in the cache. */
    method Get(key: Bytes, response: Option<seq<ProofNode>>) returns (r: LightResult)
      requires Valid()
      modifies this
      ensures Valid()
      ensures r.Failure? <==> response.None? || Verify(root, Hex(key), ToMap(response.value)) == BadProof
      ensures r.Success? ==> r.value == if key in View(full) then Some(View(full)[key]) else None
    {
      if response.None? {
        return Failure;
      }
      HexTerminated(key);
      var proof := ArrayToMap(response.value);
      var verdict := VerifyProof(root, Hex(key), proof);
      if verdict == BadProof {
        return Failure;
      }
      Fill(response.value);
      CacheHoldsPath(full, len, key, proof, kvs);
      if trie.None? {
        DecodeKeepsHash(root, root.body);
        trie := LoadNode(kvs, root);
        if trie.None? {
          return Failure;
        }
      }
      var node;
      node, r := ReadThrough(kvs, trie.value, key);
      trie := Some(node);
    }
  }
}
