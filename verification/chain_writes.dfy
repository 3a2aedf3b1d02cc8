/** Writing blocks: what one write does to the store, and what every run of writes keeps. */
module ChainWrites {
  import opened CanonicalChain

  /** The part of the store a write touches; tds holds total difficulties. */
  datatype Store = Store(headers: Headers, tds: map<Hash, int>, canon: Heights, head: Hash)

  datatype Block = Block(hash: Hash, header: Header)

  ghost predicate Valid(s: Store) {
    Canonical(s.headers, s.canon, s.head) && TdsOk(s.headers, s.tds)
  }

  /** Total difficulties are the sums along the chains. */
  ghost predicate TdsOk(headers: Headers, tds: map<Hash, int>) {
    tds.Keys == headers.Keys && forall h {:trigger TdAt(headers, tds, h)} :: h in headers ==> TdAt(headers, tds, h)
  }

  ghost predicate TdAt(headers: Headers, tds: map<Hash, int>, h: Hash)
    requires tds.Keys == headers.Keys && h in headers
  {
    headers[h].parent in headers ==> tds[h] == tds[headers[h].parent] + headers[h].difficulty
  }

  /** What header validation demands: a stored parent one height below. The hash of a block determines its header. */
  predicate Fits(s: Store, b: Block) {
    && b.hash != EMPTY_HASH && b.header.parent in s.headers && b.header.parent in s.tds
    && b.header.height == s.headers[b.header.parent].height + 1
    && (b.hash in s.headers ==> s.headers[b.hash] == b.header)
  }

  function TdOf(s: Store, b: Block): int
    requires Fits(s, b)
  {
    s.tds[b.header.parent] + b.header.difficulty
  }

  datatype Result = Ok(store: Store) | Error(store: Store)

  /** putBlockInternal: one batch; the block that loses its height must be readable. */
  function Put(s: Store, b: Block, td: int, isHead: bool): Result {
    var s' := s.(headers := s.headers[b.hash := b.header], tds := s.tds[b.hash := td]);
    if !isHead then Ok(s')
    else if b.header.height in s.canon && s.canon[b.header.height] !in s.headers then Error(s)
    else Ok(s'.(canon := s.canon[b.header.height := b.hash], head := b.hash))
  }

  /** The rewriting of the map after the batch. */
  function Rewritten(s: Store, b: Block): Result
    requires Linked(s.headers)
  {
    var r := DeleteLarger(s.headers, s.canon, b.header.height + 1);
    if !r.ok then Error(s.(canon := r.canon))
    else
      var o := Overwrite(s.headers, r.canon, b.header.parent);
      if o.ok then Ok(s.(canon := o.canon)) else Error(s.(canon := o.canon))
  }

  lemma PutLinked(s: Store, b: Block, isHead: bool)
    requires Tree(s.headers) && Fits(s, b)
    ensures Tree(s.headers[b.hash := b.header]) && Linked(Put(s, b, TdOf(s, b), isHead).store.headers)
  {
    var headers := s.headers[b.hash := b.header];
    forall h | h in headers ensures TreeAt(headers, h) {
      if h != b.hash { assert TreeAt(s.headers, h); }
      if h != b.hash && headers[h].parent == b.hash { assert b.hash in s.headers; }
    }
    TreeLinked(headers);
    TreeLinked(s.headers);
  }

  lemma PutTds(s: Store, b: Block, s1: Store)
    requires Tree(s.headers) && TdsOk(s.headers, s.tds) && Fits(s, b) && s1.headers == s.headers[b.hash := b.header]
    requires s1.tds == s.tds[b.hash := TdOf(s, b)]
    ensures TdsOk(s1.headers, s1.tds)
  {
    forall h | h in s1.headers ensures TdAt(s1.headers, s1.tds, h) {
      if h in s.headers { assert TdAt(s.headers, s.tds, h) && TreeAt(s.headers, h); }
      if b.hash in s.headers { assert TdAt(s.headers, s.tds, b.hash); }
    }
  }

  /** doWriteBlock, as far as the store is concerned: the new block always becomes the head. */
  function Write(s: Store, b: Block): Result
    requires Tree(s.headers)
  {
    if !Fits(s, b) then Error(s)
    else
      PutLinked(s, b, true);
      var r := Put(s, b, TdOf(s, b), true);
      if r.Error? then r else Rewritten(r.store, b)
  }

  /** The first height above the old head and the new block. */
  ghost function TopOf(s: Store, b: Block): nat
    requires s.head in s.headers
  {
    if s.headers[s.head].height > b.header.height then s.headers[s.head].height + 1 else b.header.height + 1
  }

  /** The state after the batch: the map below the new block still follows the old head. */
  lemma AfterPut(s: Store, b: Block, s1: Store)
    requires Valid(s) && Fits(s, b) && Put(s, b, TdOf(s, b), true) == Ok(s1)
    ensures Tree(s1.headers) && Known(s1.headers, s1.canon) && TdsOk(s1.headers, s1.tds) && s.head in s1.headers
    ensures Follows(s1.headers, s1.canon, b.header.height - 1, s.head)
    ensures UpTo(s1.canon, b.header.height + 1, TopOf(s, b))
  {
    PutLinked(s, b, true);
    PutTds(s, b, s1);
    ChainDomain(s.headers, s.head);
    ChainGrows(s.headers, b.hash, b.header, s.head);
  }

  /** Everything above the new block leaves the map. */
  lemma DeletePhase(s: Store, b: Block, s1: Store)
    requires Valid(s) && Fits(s, b) && Put(s, b, TdOf(s, b), true) == Ok(s1)
    ensures DeleteLarger(s1.headers, s1.canon, b.header.height + 1) ==
      Rewrite(Below(s1.canon, b.header.height + 1), true)
  {
    DeleteLargerAll(s1.headers, s1.canon, b.header.height + 1, TopOf(s, b)) by {
      AfterPut(s, b, s1);
    }
  }

  /** Then the ancestors of the new block enter it. */
  lemma OverwritePhase(s: Store, b: Block, s1: Store, cut: Heights)
    requires Valid(s) && Fits(s, b) && Put(s, b, TdOf(s, b), true) == Ok(s1)
    requires cut == Below(s1.canon, b.header.height + 1)
    ensures Tree(s1.headers) && Linked(s1.headers) && b.hash in s1.headers
    ensures Overwrite(s1.headers, cut, b.header.parent) == Rewrite(ChainOf(s1.headers, b.hash), true)
  {
    AfterPut(s, b, s1);
    OverwriteAll(s1.headers, cut, b.header.parent, s.head);
    LaidOver(s1.headers, cut, b.hash, b.header);
  }

  /** The rewriting turns the map into the chain of the new head. */
  lemma RewriteCanonical(s: Store, b: Block, s1: Store)
    requires Valid(s) && Fits(s, b) && Put(s, b, TdOf(s, b), true) == Ok(s1)
    ensures Tree(s1.headers) && Linked(s1.headers) && b.hash in s1.headers
    ensures Rewritten(s1, b) == Ok(s1.(canon := ChainOf(s1.headers, b.hash)))
    ensures Valid(Rewritten(s1, b).store)
  {
    var cut := Below(s1.canon, b.header.height + 1);
    assert DeleteLarger(s1.headers, s1.canon, b.header.height + 1) == Rewrite(cut, true) by { DeletePhase(s, b, s1); }
    OverwritePhase(s, b, s1, cut);
    assert TdsOk(s1.headers, s1.tds) by { AfterPut(s, b, s1); }
  }

  lemma LaidOver(headers: Headers, cut: Heights, hash: Hash, hd: Header)
    requires Tree(headers) && hash in headers && headers[hash] == hd && hd.parent != EMPTY_HASH
    requires hd.height in cut && cut[hd.height] == hash && forall k :: k in cut ==> k <= hd.height
    ensures hd.parent in headers && cut + ChainOf(headers, hd.parent) == ChainOf(headers, hash)
  {
    assert TreeAt(headers, hash);
    ChainDomain(headers, hd.parent);
    ChainDomain(headers, hash);
    var l, r := cut + ChainOf(headers, hd.parent), ChainOf(headers, hash);
    assert l.Keys == r.Keys;
    assert forall k :: k in l ==> l[k] == r[k];
  }

  lemma PutSucceeds(s: Store, b: Block)
    requires Valid(s) && Fits(s, b)
    ensures Put(s, b, TdOf(s, b), true).Ok?
  {
    ChainDomain(s.headers, s.head);
  }

  /** One write: a fitting block becomes the head and the map becomes its chain; any other block changes nothing. */
  lemma WriteKeeps(s: Store, b: Block)
    requires Valid(s)
    ensures Valid(Write(s, b).store)
    ensures Fits(s, b) ==>
      Write(s, b).Ok? && Write(s, b).store.head == b.hash && Write(s, b).store.headers == s.headers[b.hash := b.header]
    ensures !Fits(s, b) ==> Write(s, b) == Error(s)
  {
    if Fits(s, b) {
      PutSucceeds(s, b);
      RewriteCanonical(s, b, Put(s, b, TdOf(s, b), true).store);
    }
  }

  ghost function Run(s: Store, blocks: seq<Block>): Store
    requires Valid(s)
    decreases |blocks|
  {
    if blocks == [] then s
    else
      WriteKeeps(s, blocks[0]);
      Run(Write(s, blocks[0]).store, blocks[1..])
  }

  /** A store with its first block only. */
  function Genesis(g: Block): Store {
    Store(map[g.hash := g.header], map[g.hash := g.header.difficulty], map[0 := g.hash], g.hash)
  }

  lemma GenesisValid(g: Block)
    requires g.hash != EMPTY_HASH && g.header.height == 0 && g.header.parent == EMPTY_HASH
    ensures Valid(Genesis(g)) && HeadBest(Genesis(g))
  {
    var s := Genesis(g);
    assert TreeAt(s.headers, g.hash) && TdAt(s.headers, s.tds, g.hash);
  }

  /** No block has a greater total difficulty than the head. */
  ghost predicate HeadBest(s: Store) {
    s.head in s.tds && forall h :: h in s.tds ==> s.tds[h] <= s.tds[s.head]
  }

  /** A head of greatest difficulty stays one exactly if the block written has no smaller difficulty: the new block
      becomes the head in any case. */
  lemma WriteKeepsBest(s: Store, b: Block)
    requires Valid(s) && HeadBest(s) && Fits(s, b)
    ensures HeadBest(Write(s, b).store) <==> TdOf(s, b) >= s.tds[s.head]
  {
    PutSucceeds(s, b);
    RewriteCanonical(s, b, Put(s, b, TdOf(s, b), true).store);
    var t := Write(s, b).store;
    assert b.hash in s.headers ==> TdAt(s.headers, s.tds, b.hash);
    assert t.tds == s.tds[b.hash := TdOf(s, b)] && t.head == b.hash;
    assert s.head in t.tds;
  }

  /** Every write of a run has a difficulty no smaller than the head before it. */
  ghost predicate Climbs(s: Store, blocks: seq<Block>)
    requires Valid(s)
    decreases |blocks|
  {
    blocks == [] ||
    (WriteKeeps(s, blocks[0]);
     (Fits(s, blocks[0]) ==> TdOf(s, blocks[0]) >= s.tds[s.head]) && Climbs(Write(s, blocks[0]).store, blocks[1..]))
  }

  /** Over a run the head has the greatest difficulty after every single write exactly if the difficulties never
      fall. */
  lemma {:induction false} RunKeepsBest(s: Store, blocks: seq<Block>)
    requires Valid(s) && HeadBest(s)
    ensures Climbs(s, blocks) <==> forall n :: 0 <= n <= |blocks| ==> HeadBest(Run(s, blocks[..n]))
    decreases |blocks|
  {
    if blocks != [] {
      WriteKeeps(s, blocks[0]);
      var t := Write(s, blocks[0]).store;
      if Fits(s, blocks[0]) { WriteKeepsBest(s, blocks[0]); }
      if HeadBest(t) { RunKeepsBest(t, blocks[1..]); }
      forall n | 0 < n <= |blocks| ensures Run(s, blocks[..n]) == Run(t, blocks[1..][..n - 1]) {
        assert blocks[..n][0] == blocks[0] && blocks[..n][1..] == blocks[1..][..n - 1];
      }
      assert Run(t, blocks[1..][..0]) == t;
      if forall n :: 0 <= n <= |blocks| ==> HeadBest(Run(s, blocks[..n])) {
        assert HeadBest(Run(s, blocks[..1]));
        forall n | 0 <= n <= |blocks| - 1 ensures HeadBest(Run(t, blocks[1..][..n])) {
          assert HeadBest(Run(s, blocks[..n + 1]));
        }
      }
    }
  }

  /** Two blocks on the first one, the lighter written last: it is the head nevertheless. */
  lemma LighterHead()
    ensures var s := Run(Genesis(Block(1, Header(0, EMPTY_HASH, 1))),
                         [Block(2, Header(1, 1, 5)), Block(3, Header(1, 1, 2))]);
      s.head == 3 && !HeadBest(s)
  {
    var g := Block(1, Header(0, EMPTY_HASH, 1));
    var b, c := Block(2, Header(1, 1, 5)), Block(3, Header(1, 1, 2));
    GenesisValid(g);
    var s := Genesis(g);
    WriteKeeps(s, b);
    WriteKeepsBest(s, b);
    var t := Write(s, b).store;
    PutSucceeds(s, b);
    RewriteCanonical(s, b, Put(s, b, TdOf(s, b), true).store);
    WriteKeeps(t, c);
    WriteKeepsBest(t, c);
    assert [b, c][1..] == [c] && [c][1..] == [];
  }

  /** Over every run of writes the map is exactly the ancestor chain of the head. */
  lemma {:induction false} RunCanonical(s: Store, blocks: seq<Block>)
    requires Valid(s)
    ensures var s' := Run(s, blocks); Valid(s') && s'.canon == ChainOf(s'.headers, s'.head)
    ensures var s' := Run(s, blocks);
      forall k: nat :: k in s'.canon <==> k <= s'.headers[s'.head].height
    decreases |blocks|
  {
    if blocks == [] {
      ChainDomain(s.headers, s.head);
    } else {
      WriteKeeps(s, blocks[0]);
      RunCanonical(Write(s, blocks[0]).store, blocks[1..]);
    }
  }

  // ---------- headers of a light chain ----------

  /** The light chain keeps the total difficulty of its head. */
  datatype Light = Light(store: Store, canonicalTd: int)

  ghost predicate LightValid(l: Light) {
    && Valid(l.store) && l.canonicalTd == l.store.tds[l.store.head]
    && forall h :: h in l.store.tds ==> l.store.tds[h] <= l.canonicalTd
  }

  /** WriteHeader: the header becomes the head only with a larger total difficulty. */
  function WriteHeader(l: Light, b: Block): Light
    requires Tree(l.store.headers)
  {
    if !Fits(l.store, b) then l
    else
      var td := TdOf(l.store, b);
      var isHead := td > l.canonicalTd;
      PutLinked(l.store, b, isHead);
      var r := Put(l.store, b, td, isHead);
      if r.Error? || !isHead then l.(store := r.store)
      else
        var w := Rewritten(r.store, b);
        Light(w.store, if w.Ok? then td else l.canonicalTd)
  }

  lemma SideHeader(s: Store, b: Block, s1: Store)
    requires Valid(s) && Fits(s, b) && Put(s, b, TdOf(s, b), false) == Ok(s1)
    ensures Valid(s1)
  {
    PutLinked(s, b, false);
    PutTds(s, b, s1);
    ChainGrows(s.headers, b.hash, b.header, s.head);
  }

  /** One header: the chain stays canonical and the head keeps the greatest total difficulty. */
  lemma WriteHeaderKeeps(l: Light, b: Block)
    requires LightValid(l)
    ensures LightValid(WriteHeader(l, b))
    ensures Fits(l.store, b) ==> WriteHeader(l, b).store.headers == l.store.headers[b.hash := b.header]
    ensures WriteHeader(l, b).store.head ==
      if Fits(l.store, b) && TdOf(l.store, b) > l.canonicalTd then b.hash else l.store.head
  {
    if Fits(l.store, b) {
      var td := TdOf(l.store, b);
      assert b.hash in l.store.headers ==> TdAt(l.store.headers, l.store.tds, b.hash);
      if td > l.canonicalTd {
        PutSucceeds(l.store, b);
        RewriteCanonical(l.store, b, Put(l.store, b, td, true).store);
      } else {
        SideHeader(l.store, b, Put(l.store, b, td, false).store);
      }
    }
  }

  ghost function LightRun(l: Light, headers: seq<Block>): Light
    requires LightValid(l)
    decreases |headers|
  {
    if headers == [] then l
    else
      WriteHeaderKeeps(l, headers[0]);
      LightRun(WriteHeader(l, headers[0]), headers[1..])
  }

  /** Over every run of WriteHeader the map is the chain of the head, and the head has the greatest total difficulty
      of all headers ever written. */
  lemma {:induction false} LightRunBest(l: Light, headers: seq<Block>)
    requires LightValid(l)
    ensures var s := LightRun(l, headers).store;
      && Valid(s) && s.canon == ChainOf(s.headers, s.head) && l.store.headers.Keys <= s.headers.Keys
      && forall h :: h in s.headers ==> s.tds[h] <= s.tds[s.head]
    decreases |headers|
  {
    if headers != [] {
      WriteHeaderKeeps(l, headers[0]);
      LightRunBest(WriteHeader(l, headers[0]), headers[1..]);
    }
  }
}
