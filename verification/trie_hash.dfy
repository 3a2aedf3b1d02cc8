/** nodeHash: hashing with cached hashes, and persisting when a batch is given.
    The batch is modelled by the database it is written to. */
module TrieHash {
  import opened TrieNodes
  import opened TrieGet

  datatype Hashed = Hashed(node: Node, link: Link, db: Db)
  datatype HashedAll = HashedAll(nodes: seq<Node>, links: seq<Link>, db: Db)

  /** Store the hash of `enc` in the node if it is dirty; write the encoding if a batch is given. */
  function Finish(node: Node, enc: Encoding, commit: bool, db: Db): (r: Hashed)
    requires node.Leaf? || node.Ext? || node.Branch?
  {
    var hash := if node.status == Dirty then Digest(enc) else node.cached;
    var status := if commit then Persisted else Updated;
    var node' := match node
      case Leaf(_, _, key, value) => Leaf(hash, status, key, value)
      case Ext(_, _, key, next) => Ext(hash, status, key, next)
      case Branch(_, _, children) => Branch(hash, status, children);
    Hashed(node', To(hash), if commit then db[hash := Encoded(enc)] else db)
  }

  function NodeHash(node: Node, commit: bool, db: Db): Hashed {
    match node
    case Nil => Hashed(Nil, NoLink, db)
    case HashRef(h) => Hashed(node, To(h), db)
    case Leaf(cached, status, key, value) =>
      if status == Persisted || (status == Updated && !commit) then Hashed(node, To(cached), db)
      else Finish(node, LeafEnc(key, value), commit, db)
    case Ext(cached, status, key, next) =>
      if status == Persisted || (status == Updated && !commit) then Hashed(node, To(cached), db)
      else
        var r := NodeHash(next, commit, db);
        Finish(Ext(cached, status, key, r.node), ExtEnc(key, r.link), commit, r.db)
    case Branch(cached, status, children) =>
      if status == Persisted || (status == Updated && !commit) then Hashed(node, To(cached), db)
      else
        var r := HashAll(children, commit, db);
        Finish(Branch(cached, status, r.nodes), BranchEnc(r.links), commit, r.db)
  }

  /** The loop over a branch's children. */
  function HashAll(cs: seq<Node>, commit: bool, db: Db): HashedAll {
    if cs == [] then HashedAll([], [], db)
    else
      var first := NodeHash(cs[0], commit, db);
      var rest := HashAll(cs[1..], commit, first.db);
      HashedAll([first.node] + rest.nodes, [first.link] + rest.links, rest.db)
  }

  // ---------- growing the database ----------

  ghost predicate Grows(db: Db, db': Db) {
    Honest(db') && forall h :: h in db ==> h in db' && db'[h] == db[h]
  }

  lemma {:induction false} InDbGrows(link: Link, db: Db, db': Db)
    requires InDb(link, db) && Grows(db, db')
    ensures InDb(link, db')
    decreases link
  {
    if link.To? {
      match link.hash.body
      case LeafEnc(_, _) =>
      case ExtEnc(_, next) => InDbGrows(next, db, db');
      case BranchEnc(cs) => forall i | 0 <= i < |cs| ensures InDb(cs[i], db') { InDbGrows(cs[i], db, db'); }
    }
  }

  lemma {:induction false} SoundGrows(node: Node, db: Db, db': Db)
    requires Sound(node, db) && Grows(db, db')
    ensures Sound(node, db')
  {
    if (node.Leaf? || node.Ext? || node.Branch?) && node.status == Persisted { InDbGrows(LinkOf(node), db, db'); }
    match node
    case Nil =>
    case HashRef(h) => InDbGrows(To(h), db, db');
    case Leaf(_, _, _, _) =>
    case Ext(_, _, _, next) => SoundGrows(next, db, db');
    case Branch(_, _, cs) => forall i | 0 <= i < |cs| ensures Sound(cs[i], db') { SoundGrows(cs[i], db, db'); }
  }

  // ---------- correctness ----------

  /** What hashing a node establishes. */
  ghost predicate HashOk(node: Node, commit: bool, db: Db, r: Hashed) {
    && r.link == LinkOf(node) == LinkOf(r.node)
    && Clean(r.node) && Sound(r.node, r.db)
    && Grows(db, r.db) && (!commit ==> r.db == db) && (commit ==> InDb(r.link, r.db))
  }

  ghost predicate HashAllOk(cs: seq<Node>, commit: bool, db: Db, r: HashedAll) {
    && |r.nodes| == |r.links| == |cs| && r.links == Links(cs) == Links(r.nodes)
    && (forall i :: 0 <= i < |cs| ==>
        Clean(r.nodes[i]) && Sound(r.nodes[i], r.db) && (commit ==> InDb(r.links[i], r.db)))
    && Grows(db, r.db) && (!commit ==> r.db == db)
  }

  lemma FinishOk(node: Node, enc: Encoding, commit: bool, db: Db)
    requires node.Leaf? || node.Ext? || node.Branch?
    requires LinkOf(node) == To(Digest(enc)) && Honest(db) && node.status != Persisted
    requires node.status != Dirty ==> node.cached == Digest(enc)
    requires node.Ext? ==> Sound(node.next, db) && Clean(node.next)
    requires node.Branch? ==>
      forall i :: 0 <= i < |node.children| ==> Sound(node.children[i], db) && Clean(node.children[i])
    requires commit && node.Ext? ==> InDb(LinkOf(node.next), db)
    requires commit && node.Branch? ==> forall i :: 0 <= i < |node.children| ==> InDb(LinkOf(node.children[i]), db)
    ensures HashOk(node, commit, db, Finish(node, enc, commit, db))
  {
    var r := Finish(node, enc, commit, db);
    assert Grows(db, r.db);
    if commit {
      match node
      case Leaf(_, _, _, _) =>
      case Ext(_, _, _, next) =>
        InDbGrows(LinkOf(next), db, r.db);
        SoundGrows(next, db, r.db);
      case Branch(_, _, cs) =>
        forall i | 0 <= i < |cs| ensures InDb(Links(cs)[i], r.db) && Sound(cs[i], r.db) {
          InDbGrows(LinkOf(cs[i]), db, r.db);
          SoundGrows(cs[i], db, r.db);
        }
    }
  }

  /** nodeHash returns the hash a recomputation from scratch gives, leaves the whole subtree clean and
      coherent, and with a batch puts the whole subtree in the database. */
  lemma {:induction false} NodeHashOk(node: Node, commit: bool, db: Db)
    requires Sound(node, db) && Honest(db)
    ensures HashOk(node, commit, db, NodeHash(node, commit, db))
  {
    match node
    case Nil =>
    case HashRef(_) =>
    case Leaf(cached, status, key, value) =>
      if status == Dirty || (status == Updated && commit) { FinishOk(node, LeafEnc(key, value), commit, db); }
    case Ext(cached, status, key, next) =>
      if status == Dirty || (status == Updated && commit) {
        NodeHashOk(next, commit, db);
        var r := NodeHash(next, commit, db);
        FinishOk(Ext(cached, status, key, r.node), ExtEnc(key, r.link), commit, r.db);
      }
    case Branch(cached, status, cs) =>
      if status == Dirty || (status == Updated && commit) {
        HashAllIsOk(cs, commit, db);
        var r := HashAll(cs, commit, db);
        FinishOk(Branch(cached, status, r.nodes), BranchEnc(r.links), commit, r.db);
      }
  }

  lemma {:induction false} HashAllIsOk(cs: seq<Node>, commit: bool, db: Db)
    requires Honest(db) && forall i :: 0 <= i < |cs| ==> Sound(cs[i], db)
    ensures HashAllOk(cs, commit, db, HashAll(cs, commit, db))
  {
    if cs != [] {
      var first := NodeHash(cs[0], commit, db);
      NodeHashOk(cs[0], commit, db);
      forall i | 0 <= i < |cs[1..]| ensures Sound(cs[1..][i], first.db) { SoundGrows(cs[1..][i], db, first.db); }
      HashAllIsOk(cs[1..], commit, first.db);
      var rest := HashAll(cs[1..], commit, first.db);
      SoundGrows(first.node, first.db, rest.db);
      if commit { InDbGrows(first.link, first.db, rest.db); }
      HashAllCons(cs, commit, db, first, rest);
    }
  }

  lemma HashAllCons(cs: seq<Node>, commit: bool, db: Db, first: Hashed, rest: HashedAll)
    requires cs != [] && HashOk(cs[0], commit, db, first) && HashAllOk(cs[1..], commit, first.db, rest)
    requires Sound(first.node, rest.db) && (commit ==> InDb(first.link, rest.db))
    ensures HashAllOk(cs, commit, db, HashedAll([first.node] + rest.nodes, [first.link] + rest.links, rest.db))
  {
    var nodes, links := [first.node] + rest.nodes, [first.link] + rest.links;
    forall i | 0 <= i < |cs| ensures links[i] == LinkOf(cs[i]) == LinkOf(nodes[i]) {
      if i > 0 { assert rest.links[i - 1] == Links(cs[1..])[i - 1] == Links(rest.nodes)[i - 1]; }
    }
    assert links == Links(cs);
    assert links == Links(nodes);
  }
}
