/** In-memory and encoded nodes of the Merkle Patricia trie.

    The node hash is idealised: `Digest(e)` is the hash of the encoding `e`, so equal
    hashes come only from equal encodings, and no hash occurs inside its own preimage.
    A byte string that is the hash of nothing is a `Raw` value. */
module TrieNodes {
  import opened Options

  type byte = b: int | 0 <= b < 256

  type Bytes = seq<byte>

  /** A key in hex form: nibbles below 16, closed by the terminator 16. */
  type Nibbles = seq<nat>

  const NUM_BRANCH_CHILDREN := 17
  const TERMINATOR: nat := 16

  datatype Hash = Digest(body: Encoding) | Raw(id: nat)

  datatype Link = NoLink | To(hash: Hash)

  datatype Encoding =
    | LeafEnc(key: Nibbles, value: Bytes)
    | ExtEnc(key: Nibbles, next: Link)
    | BranchEnc(children: seq<Link>)

  const EMPTY_HASH := Raw(0)

  datatype Status = Dirty | Updated | Persisted

  datatype Node =
    | Nil
    | HashRef(ref: Hash)
    | Leaf(cached: Hash, status: Status, key: Nibbles, value: Bytes)
    | Ext(cached: Hash, status: Status, key: Nibbles, next: Node)
    | Branch(cached: Hash, status: Status, children: seq<Node>)

  /** What a database or a proof holds under a hash: bytes that parse, or bytes that do not. */
  datatype Blob = Encoded(enc: Encoding) | Malformed

  type Db = map<Hash, Blob>

  // ---------- the hash of a node, recomputed from scratch ----------

  /** The reference a parent keeps to `node`, recomputed without looking at any cached hash. */
  function LinkOf(node: Node): Link {
    match node
    case Nil => NoLink
    case HashRef(h) => To(h)
    case Leaf(_, _, key, value) => To(Digest(LeafEnc(key, value)))
    case Ext(_, _, key, next) => To(Digest(ExtEnc(key, LinkOf(next))))
    case Branch(_, _, children) => To(Digest(BranchEnc(Links(children))))
  }

  function Links(children: seq<Node>): (links: seq<Link>)
    ensures |links| == |children|
    ensures forall i :: 0 <= i < |children| ==> links[i] == LinkOf(children[i])
  {
    seq(|children|, i requires 0 <= i < |children| => LinkOf(children[i]))
  }

  function EncOf(node: Node): Encoding
    requires node.Leaf? || node.Ext? || node.Branch?
  {
    LinkOf(node).hash.body
  }

  // ---------- decoding ----------

  function RefOf(link: Link): Node {
    if link.NoLink? then Nil else HashRef(link.hash)
  }

  /** decodeNode: one level is decoded, children stay references. */
  function DecodeNode(hash: Hash, enc: Encoding): (n: Node)
    ensures n.Leaf? || n.Ext? || n.Branch?
    ensures n.status == Persisted && n.cached == hash
  {
    match enc
    case LeafEnc(key, value) => Leaf(hash, Persisted, key, value)
    case ExtEnc(key, next) => Ext(hash, Persisted, key, RefOf(next))
    case BranchEnc(children) =>
      Branch(hash, Persisted, seq(|children|, i requires 0 <= i < |children| => RefOf(children[i])))
  }

  lemma DecodeKeepsHash(hash: Hash, enc: Encoding)
    ensures LinkOf(DecodeNode(hash, enc)) == To(Digest(enc))
  {
    if enc.BranchEnc? {
      var n := DecodeNode(hash, enc);
      assert Links(n.children) == enc.children;
    }
  }

  /** loadNode: a missing or unparsable entry is an error. */
  function LoadNode(db: Db, hash: Hash): Option<Node> {
    if hash in db && db[hash].Encoded? && (db[hash].enc.BranchEnc? ==> |db[hash].enc.children| == NUM_BRANCH_CHILDREN)
    then Some(DecodeNode(hash, db[hash].enc))
    else None
  }

  // ---------- reference meaning of a trie ----------

  /** The value stored under `key` below `link`: the whole remaining key must be matched. */
  function Lookup(link: Link, key: Nibbles): Option<Bytes>
    decreases link
  {
    if link.NoLink? || link.hash.Raw? then None else
    match link.hash.body
    case LeafEnc(k, v) => if k == key then Some(v) else None
    case ExtEnc(k, next) => if k <= key then Lookup(next, key[|k|..]) else None
    case BranchEnc(cs) => if |key| > 0 && key[0] < |cs| then Lookup(cs[key[0]], key[1..]) else None
  }

  ghost predicate AllNibbles(key: Nibbles) {
    forall i :: 0 <= i < |key| ==> key[i] < TERMINATOR
  }

  ghost predicate Terminated(key: Nibbles) {
    |key| > 0 && key[|key| - 1] == TERMINATOR && AllNibbles(key[..|key| - 1])
  }

  /** Remaining keys that can reach a subtree; `ended` says that the terminator was consumed above it. */
  ghost predicate KeyOk(key: Nibbles, ended: bool) {
    if ended then key == [] else Terminated(key)
  }

  /** Shape of every trie the operations build. An extension may point at any node and a branch
      may have one child or none: deletions leave such shapes behind. */
  ghost predicate WF(link: Link, ended: bool)
    decreases link
  {
    link.NoLink? ||
    (link.hash.Digest? &&
    match link.hash.body
    case LeafEnc(k, _) => KeyOk(k, ended)
    case ExtEnc(k, next) => !ended && |k| > 0 && AllNibbles(k) && next.To? && WF(next, false)
    case BranchEnc(cs) =>
      !ended && |cs| == NUM_BRANCH_CHILDREN && forall i :: 0 <= i < |cs| ==> WF(cs[i], i == TERMINATOR))
  }

  // ---------- cached hashes and the database ----------

  /** The database holds the encoding of every node of the trie below `link`. */
  ghost predicate InDb(link: Link, db: Db)
    decreases link
  {
    link.NoLink? ||
    (link.hash.Digest? && link.hash in db && db[link.hash] == Encoded(link.hash.body) &&
    match link.hash.body
    case LeafEnc(_, _) => true
    case ExtEnc(_, next) => InDb(next, db)
    case BranchEnc(cs) => forall i :: 0 <= i < |cs| ==> InDb(cs[i], db))
  }

  predicate Clean(node: Node) {
    node.Nil? || node.HashRef? || node.status != Dirty
  }

  /** Hash cache coherence: a clean node stores its recomputed hash and has only clean children;
      the whole subtree of a persisted node, and of a hash reference, is in the database. */
  ghost predicate Sound(node: Node, db: Db) {
    match node
    case Nil => true
    case HashRef(h) => InDb(To(h), db)
    case Leaf(_, _, _, _) => SoundHere(node, db)
    case Ext(_, _, _, next) => SoundHere(node, db) && Sound(next, db) && (node.status != Dirty ==> Clean(next))
    case Branch(_, _, cs) =>
      SoundHere(node, db) && forall i :: 0 <= i < |cs| ==> Sound(cs[i], db) && (node.status != Dirty ==> Clean(cs[i]))
  }

  ghost predicate SoundHere(node: Node, db: Db)
    requires node.Leaf? || node.Ext? || node.Branch?
  {
    && (node.status != Dirty ==> To(node.cached) == LinkOf(node))
    && (node.status == Persisted ==> InDb(LinkOf(node), db))
  }
}
