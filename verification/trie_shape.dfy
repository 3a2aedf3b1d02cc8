/** Canonical tries: what Put alone builds, what deletions leave behind, and uniqueness. */
module TrieShape {
  import opened TrieNodes
  import opened TrieInsert
  import opened TrieDelete

  predicate IsBranch(link: Link) {
    link.To? && link.hash.Digest? && link.hash.body.BranchEnc?
  }

  ghost predicate HasOther(cs: seq<Link>, i: nat) {
    exists j :: 0 <= j < |cs| && j != i && cs[j].To?
  }

  /** `strict`: every branch has two children or more and every extension leads to a branch.
      Not strict: no branch is empty, and a branch with one child has a branch below it. */
  ghost predicate Shape(link: Link, strict: bool)
    decreases link
  {
    link.NoLink? || link.hash.Raw? ||
    match link.hash.body
    case LeafEnc(_, _) => true
    case ExtEnc(_, next) => Shape(next, strict) && (strict ==> IsBranch(next))
    case BranchEnc(cs) =>
      forall i :: 0 <= i < |cs| ==>
        Shape(cs[i], strict) && (HasOther(cs, i) || (!strict && IsBranch(cs[i])))
  }

  lemma {:induction false} StrictIsShape(link: Link)
    requires Shape(link, true)
    ensures Shape(link, false)
    decreases link
  {
    if link.To? && link.hash.Digest? {
      match link.hash.body
      case LeafEnc(_, _) =>
      case ExtEnc(_, next) => StrictIsShape(next);
      case BranchEnc(cs) =>
        forall i | 0 <= i < |cs| ensures Shape(cs[i], false) && HasOther(cs, i) { StrictIsShape(cs[i]); }
    }
  }

  // ---------- insert keeps both shapes ----------

  lemma ForkStrict(prefix: Nibbles, i: nat, left: Node, j: nat, right: Node, strict: bool)
    requires i < NUM_BRANCH_CHILDREN && j < NUM_BRANCH_CHILDREN && i != j
    requires Shape(LinkOf(left), strict) && Shape(LinkOf(right), strict) && LinkOf(left).To? && LinkOf(right).To?
    ensures Shape(LinkOf(Fork(prefix, i, left, j, right)), strict)
  {
    var links := Links(TwoChildren(i, left, j, right));
    assert links[i].To? && links[j].To?;
    forall x | 0 <= x < |links| ensures Shape(links[x], strict) && HasOther(links, x) {
      var y := if x == i then j else i;
      assert links[y].To?;
    }
    var branch := Branch(EMPTY_HASH, Dirty, TwoChildren(i, left, j, right));
    assert LinkOf(branch) == To(Digest(BranchEnc(links)));
    assert Shape(LinkOf(branch), strict);
  }

  lemma ReplaceChildShape(cs: seq<Link>, i: nat, n: Link, strict: bool)
    requires i < |cs| && n.To? && Shape(n, strict) && Shape(To(Digest(BranchEnc(cs))), strict)
    requires IsBranch(cs[i]) ==> IsBranch(n)
    ensures Shape(To(Digest(BranchEnc(cs[i := n]))), strict)
  {
    var cs' := cs[i := n];
    forall x | 0 <= x < |cs'| ensures Shape(cs'[x], strict) && (HasOther(cs', x) || (!strict && IsBranch(cs'[x]))) {
      assert Shape(cs[x], strict);
      if HasOther(cs, x) {
        var j :| 0 <= j < |cs| && j != x && cs[j].To?;
        assert cs'[j].To?;
      }
    }
  }

  ghost predicate Grown(before: Link, after: Link, strict: bool) {
    after.To? && Shape(after, strict) && (IsBranch(before) ==> IsBranch(after))
  }

  lemma InsertLeafShape(db: Db, node: Node, key: Nibbles, value: Bytes, ended: bool, strict: bool)
    requires WF(LinkOf(node), ended) && KeyOk(key, ended) && Sound(node, db) && node.Leaf?
    requires Insert(db, node, key, value, ended).Some?
    ensures Grown(LinkOf(node), LinkOf(Insert(db, node, key, value, ended).value), strict)
  {
    var k := node.key;
    LeafKeysPart(k, key, ended);
    var m := MatchLen(k, key);
    if m < |k| {
      CutKey(k, m);
      CutKey(key, m);
      ForkStrict(key[..m], k[m], Leaf(node.cached, Dirty, k[m + 1..], node.value),
                 key[m], NewLeaf(key[m + 1..], value), strict);
    }
  }

  lemma InsertSplitsExtShape(db: Db, node: Node, key: Nibbles, value: Bytes, strict: bool)
    requires WF(LinkOf(node), false) && Terminated(key) && Sound(node, db) && node.Ext? && Shape(LinkOf(node), strict)
    requires MatchLen(node.key, key) < |node.key|
    requires Insert(db, node, key, value, false).Some?
    ensures Grown(LinkOf(node), LinkOf(Insert(db, node, key, value, false).value), strict)
  {
    var k := node.key;
    ExtKeysPart(k, key);
    var m := MatchLen(k, key);
    CutKey(key, m);
    var rest := if m != |k| - 1 then Ext(node.cached, Dirty, k[m + 1..], node.next) else node.next;
    ForkStrict(key[..m], k[m], rest, key[m], NewLeaf(key[m + 1..], value), strict);
  }

  lemma InsertBranchShape(db: Db, node: Node, key: Nibbles, value: Bytes, strict: bool)
    requires WF(LinkOf(node), false) && Terminated(key) && Sound(node, db) && node.Branch?
    requires Shape(LinkOf(node), strict)
    requires |node.children| == NUM_BRANCH_CHILDREN && key[0] <= TERMINATOR
    requires WF(LinkOf(node.children[key[0]]), key[0] == TERMINATOR) && KeyOk(key[1..], key[0] == TERMINATOR)
    requires var r := Insert(db, node.children[key[0]], key[1..], value, key[0] == TERMINATOR);
      r.Some? && Grown(LinkOf(node.children[key[0]]), LinkOf(r.value), strict)
    ensures Insert(db, node, key, value, false).Some?
    ensures Grown(LinkOf(node), LinkOf(Insert(db, node, key, value, false).value), strict)
  {
    var cs := node.children;
    var n := Insert(db, cs[key[0]], key[1..], value, key[0] == TERMINATOR).value;
    ReplaceChildShape(Links(cs), key[0], LinkOf(n), strict);
    assert Links(cs[key[0] := n]) == Links(cs)[key[0] := LinkOf(n)];
  }

  /** Insert keeps the canonical shape and the weaker one; a branch stays a branch. */
  lemma {:induction false} InsertShape(db: Db, node: Node, key: Nibbles, value: Bytes, ended: bool, strict: bool)
    requires WF(LinkOf(node), ended) && KeyOk(key, ended) && Sound(node, db) && Shape(LinkOf(node), strict)
    ensures Insert(db, node, key, value, ended).Some?
    ensures Grown(LinkOf(node), LinkOf(Insert(db, node, key, value, ended).value), strict)
    decreases LinkOf(node), node.HashRef?
  {
    InsertKeeps(db, node, key, value, ended);
    match node
    case Nil =>
    case HashRef(h) =>
      DecodeSound(h, db);
      InsertShape(db, LoadNode(db, h).value, key, value, ended, strict);
    case Leaf(_, _, _, _) =>
      InsertLeafShape(db, node, key, value, ended, strict);
    case Ext(_, _, k, next) =>
      ExtKeysPart(k, key);
      if MatchLen(k, key) == |k| {
        InsertShape(db, next, key[|k|..], value, false, strict);
      } else {
        InsertSplitsExtShape(db, node, key, value, strict);
      }
    case Branch(cached, st, cs) =>
      CutKey(key, 0);
      BranchShape(cached, st, cs, db);
      assert Shape(Links(cs)[key[0]], strict);
      InsertShape(db, cs[key[0]], key[1..], value, key[0] == TERMINATOR, strict);
      InsertBranchShape(db, node, key, value, strict);
  }

  // ---------- deleting one key keeps the weaker shape ----------

  lemma CollapseShape(db: Db, cached: Hash, cs: seq<Node>)
    requires |cs| == NUM_BRANCH_CHILDREN
    requires forall i :: 0 <= i < |cs| ==> Sound(cs[i], db) && Shape(LinkOf(cs[i]), false)
    requires exists i :: 0 <= i < |cs| && !cs[i].Nil?
    requires Collapse(db, cached, cs).Removed?
    ensures var n := Collapse(db, cached, cs).node; !n.Nil? && Shape(LinkOf(n), false)
  {
    var links := Links(cs);
    var pos := LastSet(cs);
    if CountSet(cs) == 1 {
      LoneShape(db, cached, cs, pos);
    } else {
      var p, q := SecondSet(cs);
      forall i | 0 <= i < |links| ensures Shape(links[i], false) && HasOther(links, i) {
        assert links[if i == p then q else p].To?;
      }
    }
  }

  lemma LoneShape(db: Db, cached: Hash, cs: seq<Node>, pos: nat)
    requires |cs| == NUM_BRANCH_CHILDREN && CountSet(cs) == 1 && pos == LastSet(cs) && pos < |cs|
    requires forall i :: 0 <= i < |cs| ==> Sound(cs[i], db) && Shape(LinkOf(cs[i]), false)
    requires Collapse(db, cached, cs).Removed?
    ensures var n := Collapse(db, cached, cs).node; !n.Nil? && Shape(LinkOf(n), false)
  {
    var links := Links(cs);
    if cs[pos].HashRef? { DecodeSound(cs[pos].ref, db); }
    var child := if cs[pos].HashRef? then LoadNode(db, cs[pos].ref).value else cs[pos];
    assert LinkOf(child) == links[pos];
    assert forall i :: 0 <= i < |links| ==> Shape(links[i], false) && (i != pos ==> HasOther(links, i));
  }

  lemma SecondSet(cs: seq<Node>) returns (p: nat, q: nat)
    requires CountSet(cs) >= 2
    ensures p < |cs| && q < |cs| && p != q && !cs[p].Nil? && !cs[q].Nil?
  {
    var pos := LastSet(cs);
    p := pos;
    if forall i :: 0 <= i < |cs| && i != pos ==> cs[i].Nil? {
      OneSet(cs, pos);
      assert false;
    }
    q :| q < |cs| && q != p && !cs[q].Nil?;
  }

  lemma {:induction false} OneSet(cs: seq<Node>, pos: int)
    requires forall i :: 0 <= i < |cs| && i != pos ==> cs[i].Nil?
    ensures CountSet(cs) <= if 0 <= pos < |cs| then 1 else 0
  {
    if cs != [] {
      OneSet(cs[..|cs| - 1], pos);
    }
  }

  /** A branch without empty branches below it, after one child was replaced by what a deletion left of it. */
  lemma ReplacedChildShape(db: Db, node: Node, i: nat, n: Node)
    requires Sound(node, db) && node.Branch? && Shape(LinkOf(node), false)
    requires |node.children| == NUM_BRANCH_CHILDREN && i <= TERMINATOR
    requires Sound(n, db) && Shape(LinkOf(n), false) && (IsBranch(LinkOf(node.children[i])) ==> !n.Nil?)
    ensures var cs := node.children[i := n];
      && (exists x :: 0 <= x < |cs| && !cs[x].Nil?)
      && forall x :: 0 <= x < |cs| ==> Sound(cs[x], db) && Shape(LinkOf(cs[x]), false)
  {
    var links, cs := Links(node.children), node.children[i := n];
    assert Shape(links[i], false) && (HasOther(links, i) || IsBranch(links[i]));
    if HasOther(links, i) {
      var j :| 0 <= j < |links| && j != i && links[j].To?;
      assert !cs[j].Nil?;
    } else {
      assert !cs[i].Nil?;
    }
    forall x | 0 <= x < |cs| ensures Sound(cs[x], db) && Shape(LinkOf(cs[x]), false) {
      assert Shape(links[x], false);
    }
  }

  lemma DeleteBranchShape(db: Db, node: Node, key: Nibbles)
    requires WF(LinkOf(node), false) && Terminated(key) && Sound(node, db) && node.Branch? && Shape(LinkOf(node), false)
    requires |node.children| == NUM_BRANCH_CHILDREN && key[0] <= TERMINATOR
    requires WF(LinkOf(node.children[key[0]]), key[0] == TERMINATOR) && KeyOk(key[1..], key[0] == TERMINATOR)
    requires var r := Delete(db, node.children[key[0]], key[1..], false, key[0] == TERMINATOR);
      GoodResult(r, db, key[0] == TERMINATOR) &&
      (r.Removed? ==> Shape(LinkOf(r.node), false) && (IsBranch(LinkOf(node.children[key[0]])) ==> !r.node.Nil?))
    requires GoodResult(Delete(db, node, key, false, false), db, false)
    ensures var r := Delete(db, node, key, false, false);
      r.Removed? ==> Shape(LinkOf(r.node), false) && !r.node.Nil?
  {
    var r := Delete(db, node.children[key[0]], key[1..], false, key[0] == TERMINATOR);
    if r.Removed? {
      CollapseShape(db, node.cached, node.children[key[0] := r.node]) by {
        ReplacedChildShape(db, node, key[0], r.node);
      }
    }
  }

  lemma {:induction false} DeleteShape(db: Db, node: Node, key: Nibbles, ended: bool)
    requires WF(LinkOf(node), ended) && KeyOk(key, ended) && Sound(node, db) && Shape(LinkOf(node), false)
    ensures var r := Delete(db, node, key, false, ended);
      r.Removed? ==> Shape(LinkOf(r.node), false) && (IsBranch(LinkOf(node)) ==> !r.node.Nil?)
    decreases LinkOf(node), node.HashRef?
  {
    DeleteKeeps(db, node, key, false, ended);
    match node
    case Nil =>
    case HashRef(h) =>
      DecodeSound(h, db);
      DeleteShape(db, LoadNode(db, h).value, key, ended);
    case Leaf(_, _, _, _) =>
    case Ext(_, _, k, next) =>
      if MatchLen(key, k) == |k| {
        DelThroughExt(k, key, false);
        DeleteShape(db, next, key[|k|..], false);
      }
    case Branch(cached, st, cs) =>
      DelThroughBranch(key, false);
      BranchShape(cached, st, cs, db);
      assert Shape(Links(cs)[key[0]], false);
      DeleteShape(db, cs[key[0]], key[1..], key[0] == TERMINATOR);
      DeleteKeeps(db, cs[key[0]], key[1..], false, key[0] == TERMINATOR);
      DeleteBranchShape(db, node, key);
  }
}
