/** Trie.get: descent by key, loading references on the way and keeping what was loaded. */
module TrieGet {
  import opened Options
  import opened TrieNodes
  import opened TrieInsert

  datatype GetResult = GetResult(value: Option<Bytes>, node: Node, failed: bool)

  /** Along the path of `key`, whatever the database holds under a node's hash is that node. */
  ghost predicate GenuineOn(db: Db, link: Link, key: Nibbles)
    decreases link
  {
    link.NoLink? ||
    (link.hash.Digest? && (link.hash in db ==> db[link.hash] == Encoded(link.hash.body)) &&
    match link.hash.body
    case LeafEnc(_, _) => true
    case ExtEnc(k, next) => k <= key ==> GenuineOn(db, next, key[|k|..])
    case BranchEnc(cs) => |key| > 0 && key[0] < |cs| ==> GenuineOn(db, cs[key[0]], key[1..]))
  }

  function Get(db: Db, node: Node, key: Nibbles, ghost ended: bool): GetResult
    requires WF(LinkOf(node), ended) && KeyOk(key, ended) && GenuineOn(db, LinkOf(node), key)
    decreases LinkOf(node), node.HashRef?
  {
    match node
    case Nil => GetResult(None, Nil, false)
    case HashRef(h) =>
      var loaded := LoadNode(db, h);
      if loaded.None? then GetResult(None, node, true)
      else
        DecodeKeepsHash(h, h.body);
        Get(db, loaded.value, key, ended)
    case Leaf(_, _, k, v) =>
      GetResult(if k <= key then Some(v) else None, node, false)
    case Ext(cached, st, k, next) =>
      if !(k <= key) then GetResult(None, node, false)
      else
        ThroughExt(k, key);
        var r := Get(db, next, key[|k|..], false);
        GetResult(r.value, Ext(cached, st, k, r.node), r.failed)
    case Branch(cached, st, cs) =>
      CutKey(key, 0);
      assert WF(Links(cs)[key[0]], key[0] == TERMINATOR);
      var r := Get(db, cs[key[0]], key[1..], key[0] == TERMINATOR);
      GetResult(r.value, Branch(cached, st, cs[key[0] := r.node]), r.failed)
  }

  /** An error-free Get returns the stored value; loading never changes what the trie hashes to. */
  lemma {:induction false} GetCorrect(db: Db, node: Node, key: Nibbles, ended: bool)
    requires WF(LinkOf(node), ended) && KeyOk(key, ended) && GenuineOn(db, LinkOf(node), key)
    ensures var r := Get(db, node, key, ended);
      && LinkOf(r.node) == LinkOf(node)
      && (!r.failed ==> r.value == Lookup(LinkOf(node), key))
      && (r.failed ==> r.value == None)
    decreases LinkOf(node), node.HashRef?
  {
    match node
    case Nil =>
    case HashRef(h) =>
      DecodeKeepsHash(h, h.body);
      if LoadNode(db, h).Some? {
        GetCorrect(db, LoadNode(db, h).value, key, ended);
      }
    case Leaf(_, _, k, v) =>
      LeafKeysPart(k, key, ended);
      if k <= key { PrefixMatches(k, key); }
    case Ext(_, _, k, next) =>
      if k <= key {
        ThroughExt(k, key);
        GetCorrect(db, next, key[|k|..], false);
      }
    case Branch(cached, st, cs) =>
      CutKey(key, 0);
      assert WF(Links(cs)[key[0]], key[0] == TERMINATOR);
      GetCorrect(db, cs[key[0]], key[1..], key[0] == TERMINATOR);
      var r := Get(db, cs[key[0]], key[1..], key[0] == TERMINATOR);
      assert Links(cs[key[0] := r.node]) == Links(cs);
      BranchLookup(cached, st, cs, key);
  }

  lemma PrefixMatches(k: Nibbles, key: Nibbles)
    requires k <= key
    ensures MatchLen(k, key) == |k|
  {
    var m := MatchLen(k, key);
    if m < |k| { assert false; }
  }

  /** The database says nothing false, so every descent through it is genuine. */
  ghost predicate Honest(db: Db) {
    forall h :: h in db ==> h.Digest? && db[h] == Encoded(h.body)
  }

  lemma {:induction false} HonestIsGenuine(db: Db, link: Link, ended: bool, key: Nibbles)
    requires Honest(db) && WF(link, ended)
    ensures GenuineOn(db, link, key)
    decreases link
  {
    if link.To? {
      match link.hash.body
      case LeafEnc(_, _) =>
      case ExtEnc(k, next) => if k <= key { HonestIsGenuine(db, next, false, key[|k|..]); }
      case BranchEnc(cs) =>
        if |key| > 0 && key[0] < |cs| { HonestIsGenuine(db, cs[key[0]], key[0] == TERMINATOR, key[1..]); }
    }
  }

  /** On a sound trie Get never fails and keeps the trie sound. */
  lemma {:induction false} GetSound(db: Db, node: Node, key: Nibbles, ended: bool)
    requires WF(LinkOf(node), ended) && KeyOk(key, ended) && GenuineOn(db, LinkOf(node), key) && Sound(node, db)
    ensures var r := Get(db, node, key, ended);
      !r.failed && Sound(r.node, db) && (Clean(node) ==> Clean(r.node))
    decreases LinkOf(node), node.HashRef?
  {
    match node
    case Nil =>
    case HashRef(h) =>
      DecodeSound(h, db);
      GetSound(db, LoadNode(db, h).value, key, ended);
    case Leaf(_, _, k, v) =>
    case Ext(cached, st, k, next) =>
      if k <= key {
        ThroughExt(k, key);
        GetSound(db, next, key[|k|..], false);
        GetCorrect(db, next, key[|k|..], false);
      }
    case Branch(cached, st, cs) =>
      CutKey(key, 0);
      assert WF(Links(cs)[key[0]], key[0] == TERMINATOR);
      GetSound(db, cs[key[0]], key[1..], key[0] == TERMINATOR);
      GetCorrect(db, cs[key[0]], key[1..], key[0] == TERMINATOR);
      var r := Get(db, cs[key[0]], key[1..], key[0] == TERMINATOR);
      assert Links(cs[key[0] := r.node]) == Links(cs);
  }
}
