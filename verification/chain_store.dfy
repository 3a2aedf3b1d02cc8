/** The height-to-hash map of the canonical chain and the two loops that rewrite it. */
module CanonicalChain {
  type Hash = int
  const EMPTY_HASH: Hash := 0

  datatype Header = Header(height: nat, parent: Hash, difficulty: int)

  type Headers = map<Hash, Header>
  type Heights = map<nat, Hash>

  // ---------- block trees ----------

  /** Where a parent is stored, it is one height below. */
  ghost predicate LinkedAt(headers: Headers, h: Hash)
    requires h in headers
  {
    headers[h].parent in headers ==> headers[headers[h].parent].height + 1 == headers[h].height
  }

  ghost predicate Linked(headers: Headers) {
    forall h {:trigger LinkedAt(headers, h)} :: h in headers ==> LinkedAt(headers, h)
  }

  /** A block but a root has its parent stored; a root has height 0 and the empty parent hash. */
  ghost predicate TreeAt(headers: Headers, h: Hash)
    requires h in headers
  {
    && LinkedAt(headers, h) && (headers[h].parent == EMPTY_HASH <==> headers[h].height == 0)
    && (headers[h].parent != EMPTY_HASH ==> headers[h].parent in headers)
  }

  ghost predicate Tree(headers: Headers) {
    EMPTY_HASH !in headers && forall h {:trigger TreeAt(headers, h)} :: h in headers ==> TreeAt(headers, h)
  }

  lemma TreeLinked(headers: Headers)
    requires Tree(headers)
    ensures Linked(headers)
  {
    forall h | h in headers ensures LinkedAt(headers, h) {
      assert TreeAt(headers, h);
    }
  }

  /** The chain of ancestors of a block, by height. */
  ghost function ChainOf(headers: Headers, h: Hash): Heights
    requires Tree(headers) && h in headers
    decreases headers[h].height
  {
    var hd := headers[h];
    assert TreeAt(headers, h);
    (if hd.parent == EMPTY_HASH then map[] else ChainOf(headers, hd.parent))[hd.height := h]
  }

  /** The map is the chain of the head: no gap and nothing above. */
  ghost predicate Canonical(headers: Headers, canon: Heights, head: Hash) {
    Tree(headers) && head in headers && canon == ChainOf(headers, head)
  }

  lemma {:induction false} ChainDomain(headers: Headers, h: Hash)
    requires Tree(headers) && h in headers
    ensures forall k: nat :: k in ChainOf(headers, h) <==> k <= headers[h].height
    ensures forall k: nat :: k <= headers[h].height ==>
      ChainOf(headers, h)[k] in headers && headers[ChainOf(headers, h)[k]].height == k
    decreases headers[h].height
  {
    assert TreeAt(headers, h);
    if headers[h].parent != EMPTY_HASH {
      ChainDomain(headers, headers[h].parent);
    }
  }

  /** The blocks below one of the chain are its ancestors. */
  lemma {:induction false} ChainPrefix(headers: Headers, h: Hash, k: nat)
    requires Tree(headers) && h in headers && k in ChainOf(headers, h)
    ensures var a := ChainOf(headers, h)[k]; a in headers && headers[a].height == k
    ensures var a := ChainOf(headers, h)[k]; forall i: nat :: i <= k ==>
      i in ChainOf(headers, a) && i in ChainOf(headers, h) && ChainOf(headers, a)[i] == ChainOf(headers, h)[i]
    decreases headers[h].height
  {
    assert TreeAt(headers, h);
    ChainDomain(headers, h);
    if k < headers[h].height {
      ChainPrefix(headers, headers[h].parent, k);
    }
  }

  /** Storing one more block changes no other chain. */
  lemma {:induction false} ChainGrows(headers: Headers, n: Hash, nd: Header, h: Hash)
    requires Tree(headers) && h in headers && Tree(headers[n := nd]) && (n in headers ==> headers[n] == nd)
    ensures ChainOf(headers[n := nd], h) == ChainOf(headers, h)
    decreases headers[h].height
  {
    assert TreeAt(headers, h);
    if headers[h].parent != EMPTY_HASH {
      ChainGrows(headers, n, nd, headers[h].parent);
    }
  }

  // ---------- deleting larger heights ----------

  datatype Rewrite = Rewrite(canon: Heights, ok: bool)

  /** The loop of DeleteLargerHeightBlocks from height i on: delete until a height is missing; a missing block is an
      error. */
  function DeleteFrom(headers: Headers, canon: Heights, i: nat): Rewrite
    decreases canon.Keys
  {
    if i !in canon then Rewrite(canon, true)
    else if canon[i] !in headers then Rewrite(canon, false)
    else DeleteFrom(headers, canon - {i}, i + 1)
  }

  /** DeleteLargerHeightBlocks: the first height may be missing already. */
  function DeleteLarger(headers: Headers, canon: Heights, h: nat): Rewrite {
    if h !in canon then DeleteFrom(headers, canon, h + 1)
    else if canon[h] !in headers then Rewrite(canon, false)
    else DeleteFrom(headers, canon - {h}, h + 1)
  }

  /** Heights h .. top - 1 are in the map, and nothing from top on. */
  ghost predicate UpTo(canon: Heights, h: nat, top: nat) {
    h <= top && forall k: nat :: k >= h ==> (k in canon <==> k < top)
  }

  ghost predicate Known(headers: Headers, canon: Heights) {
    forall k: nat :: k in canon ==> canon[k] in headers
  }

  function Below(canon: Heights, h: nat): Heights {
    map k | k in canon && k < h :: canon[k]
  }

  lemma {:induction false} DeleteFromAll(headers: Headers, canon: Heights, h: nat, top: nat)
    requires UpTo(canon, h, top) && Known(headers, canon)
    ensures DeleteFrom(headers, canon, h) == Rewrite(Below(canon, h), true)
    decreases top - h
  {
    if h < top {
      assert h in canon;
      DeleteFromAll(headers, canon - {h}, h + 1, top);
      assert Below(canon - {h}, h + 1) == Below(canon, h);
    } else {
      assert h !in canon;
      assert Below(canon, h) == canon;
    }
  }

  /** Deleting from a height on removes everything at or above it, whether or not that height was deleted before. */
  lemma DeleteLargerAll(headers: Headers, canon: Heights, h: nat, top: nat)
    requires Known(headers, canon) && (UpTo(canon, h, top) || (h !in canon && UpTo(canon, h + 1, top)))
    ensures DeleteLarger(headers, canon, h) == Rewrite(Below(canon, h), true)
  {
    if h in canon {
      DeleteFromAll(headers, canon - {h}, h + 1, top);
      assert Below(canon - {h}, h + 1) == Below(canon, h);
    } else {
      var top' := if top > h then top else h + 1;
      DeleteFromAll(headers, canon, h + 1, top');
      assert Below(canon, h + 1) == Below(canon, h);
    }
  }

  // ---------- overwriting stale blocks ----------

  datatype Single = Failed | Unchanged(previous: Hash) | Overwritten(canon: Heights, previous: Hash)

  /** overwriteSingleStaleBlock */
  function OverwriteSingle(headers: Headers, canon: Heights, hash: Hash): Single {
    if hash !in headers then Failed
    else
      var hd := headers[hash];
      if hd.height in canon && canon[hd.height] == hash then Unchanged(hd.parent)
      else if hd.height in canon && canon[hd.height] !in headers then Failed
      else Overwritten(canon[hd.height := hash], hd.parent)
  }

  function HeightOf(headers: Headers, hash: Hash): int {
    if hash in headers then headers[hash].height else -1
  }

  /** The loop of OverwriteStaleBlocks: up the ancestors until one is in place already. */
  function OverwriteFrom(headers: Headers, canon: Heights, stale: Hash): Rewrite
    requires Linked(headers)
    decreases HeightOf(headers, stale) + 1
  {
    if stale == EMPTY_HASH then Rewrite(canon, true)
    else
      assert stale in headers ==> LinkedAt(headers, stale);
      match OverwriteSingle(headers, canon, stale)
      case Failed => Rewrite(canon, false)
      case Unchanged(_) => Rewrite(canon, true)
      case Overwritten(canon', previous) => OverwriteFrom(headers, canon', previous)
  }

  /** OverwriteStaleBlocks: the first block may be in place already. */
  function Overwrite(headers: Headers, canon: Heights, stale: Hash): Rewrite
    requires Linked(headers)
  {
    match OverwriteSingle(headers, canon, stale)
    case Failed => Rewrite(canon, false)
    case Unchanged(previous) => OverwriteFrom(headers, canon, previous)
    case Overwritten(canon', previous) => OverwriteFrom(headers, canon', previous)
  }

  /** Up to height k, the map follows some stored chain. */
  ghost predicate Follows(headers: Headers, canon: Heights, k: int, tip: Hash)
    requires Tree(headers) && tip in headers
  {
    forall i: nat :: i <= k ==>
      (i in canon <==> i in ChainOf(headers, tip)) && (i in canon ==> canon[i] == ChainOf(headers, tip)[i])
  }

  /** The map with the chain of `h` laid over its heights. */
  ghost function Overlay(headers: Headers, canon: Heights, h: Hash): Heights
    requires Tree(headers) && (h != EMPTY_HASH ==> h in headers)
  {
    if h == EMPTY_HASH then canon else canon + ChainOf(headers, h)
  }

  lemma OverlayStep(headers: Headers, canon: Heights, h: Hash)
    requires Tree(headers) && h in headers
    ensures TreeAt(headers, h)
    ensures var hd := headers[h]; Overlay(headers, canon[hd.height := h], hd.parent) == canon + ChainOf(headers, h)
  {
    var hd := headers[h];
    assert TreeAt(headers, h);
    if hd.parent != EMPTY_HASH {
      ChainDomain(headers, hd.parent);
    }
    var l, r := Overlay(headers, canon[hd.height := h], hd.parent), canon + ChainOf(headers, h);
    assert l.Keys == r.Keys;
    assert forall k :: k in l ==> l[k] == r[k];
  }

  /** Walking up from a block lays its chain over a map that follows a stored chain so far. */
  lemma {:induction false} OverwriteFromAll(headers: Headers, canon: Heights, stale: Hash, tip: Hash)
    requires Tree(headers) && Known(headers, canon) && tip in headers && (stale != EMPTY_HASH ==> stale in headers)
    requires Follows(headers, canon, HeightOf(headers, stale), tip)
    ensures Linked(headers) && OverwriteFrom(headers, canon, stale) == Rewrite(Overlay(headers, canon, stale), true)
    decreases HeightOf(headers, stale) + 1
  {
    TreeLinked(headers);
    if stale != EMPTY_HASH {
      var hd := headers[stale];
      assert TreeAt(headers, stale);
      ChainDomain(headers, stale);
      if hd.height in canon && canon[hd.height] == stale {
        ChainPrefix(headers, tip, hd.height);
        assert canon + ChainOf(headers, stale) == canon;
      } else {
        var canon' := canon[hd.height := stale];
        OverwriteFromAll(headers, canon', hd.parent, tip);
        OverlayStep(headers, canon, stale);
      }
    }
  }

  /** The same for the whole operation, with or without its first block done. */
  lemma OverwriteAll(headers: Headers, canon: Heights, stale: Hash, tip: Hash)
    requires Tree(headers) && Known(headers, canon) && tip in headers && stale in headers
    requires Follows(headers, canon, headers[stale].height - 1, tip)
    ensures Linked(headers) && Overwrite(headers, canon, stale) == Rewrite(canon + ChainOf(headers, stale), true)
  {
    TreeLinked(headers);
    var hd := headers[stale];
    assert TreeAt(headers, stale);
    if hd.height in canon && canon[hd.height] == stale {
      OverwriteFromAll(headers, canon, hd.parent, tip);
      OverlayStep(headers, canon, stale);
      assert canon[hd.height := stale] == canon;
    } else {
      var canon' := canon[hd.height := stale];
      OverwriteFromAll(headers, canon', hd.parent, tip);
      OverlayStep(headers, canon, stale);
    }
  }
}
