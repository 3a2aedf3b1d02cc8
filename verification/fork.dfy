/** Splitting two branches at their common ancestor. */
module ForkSplit {
  import opened Options
  import opened CanonicalChain

  /** The block tree has one root. */
  ghost predicate Rooted(headers: Headers) {
    Tree(headers) && forall a, b ::
      a in headers && b in headers && headers[a].height == 0 && headers[b].height == 0 ==> a == b
  }

  /** a is h or one of its ancestors. */
  ghost predicate On(headers: Headers, h: Hash, a: Hash)
    requires Tree(headers) && h in headers
  {
    a in headers && headers[a].height in ChainOf(headers, h) && ChainOf(headers, h)[headers[a].height] == a
  }

  /** Reachable from h, and not from k. */
  ghost predicate Only(headers: Headers, h: Hash, k: Hash, a: Hash)
    requires Tree(headers) && h in headers && k in headers
  {
    On(headers, h, a) && !On(headers, k, a)
  }

  /** On the branch of h, above a given height. */
  ghost predicate OnAbove(headers: Headers, h: Hash, height: int, a: Hash)
    requires Tree(headers) && h in headers
  {
    On(headers, h, a) && headers[a].height > height
  }

  lemma OnSelf(headers: Headers, h: Hash)
    requires Tree(headers) && h in headers
    ensures On(headers, h, h)
  {
  }

  lemma OnUnique(headers: Headers, h: Hash, a: Hash, b: Hash)
    requires Tree(headers) && h in headers && On(headers, h, a) && On(headers, h, b)
    requires headers[a].height == headers[b].height
    ensures a == b
  {
  }

  /** The branch of an ancestor is the lower part of the branch. */
  lemma OnPrefix(headers: Headers, h: Hash, a: Hash, b: Hash)
    requires Tree(headers) && h in headers && On(headers, h, a)
    ensures On(headers, a, b) <==> On(headers, h, b) && headers[b].height <= headers[a].height
  {
    ChainPrefix(headers, h, headers[a].height);
    ChainDomain(headers, a);
    ChainDomain(headers, h);
  }

  lemma OnBounded(headers: Headers, h: Hash, a: Hash)
    requires Tree(headers) && h in headers && On(headers, h, a)
    ensures headers[a].height <= headers[h].height
  {
    ChainDomain(headers, h);
  }

  lemma OnParent(headers: Headers, h: Hash, a: Hash)
    requires Tree(headers) && h in headers && On(headers, h, a) && headers[a].height > 0
    ensures TreeAt(headers, a) && On(headers, h, headers[a].parent)
    ensures headers[headers[a].parent].height == headers[a].height - 1
  {
    assert TreeAt(headers, a);
    var p := headers[a].parent;
    OnSelf(headers, p);
    ChainDomain(headers, p);
    assert On(headers, a, p);
    OnPrefix(headers, h, a, p);
  }

  /** Where the walks have got to: o on the branch of o0, n on that of n0, and what was passed lies on one branch
      only. */
  ghost predicate Walking(headers: Headers, o0: Hash, n0: Hash, o: Hash, n: Hash)
    requires Tree(headers) && o0 in headers && n0 in headers
  {
    && On(headers, o0, o) && On(headers, n0, n)
    && (forall a {:trigger OnAbove(headers, o0, headers[o].height, a)} ::
        OnAbove(headers, o0, headers[o].height, a) ==> !On(headers, n0, a))
    && (forall a {:trigger OnAbove(headers, n0, headers[n].height, a)} ::
        OnAbove(headers, n0, headers[n].height, a) ==> !On(headers, o0, a))
    && (headers[n].height > headers[o].height ==> !On(headers, o0, n))
    && (headers[o].height > headers[n].height ==> !On(headers, n0, o))
  }

  lemma WalkStart(headers: Headers, o: Hash, n: Hash)
    requires Tree(headers) && o in headers && n in headers
    ensures Walking(headers, o, n, o, n)
  {
    OnSelf(headers, o);
    OnSelf(headers, n);
    forall a | On(headers, o, a) ensures headers[a].height <= headers[o].height { OnBounded(headers, o, a); }
    forall a | On(headers, n, a) ensures headers[a].height <= headers[n].height { OnBounded(headers, n, a); }
  }

  /** The higher of two different blocks, or either of two at one height, is on its own branch only: step to its
      parent. */
  lemma WalkOld(headers: Headers, o0: Hash, n0: Hash, o: Hash, n: Hash)
    requires Rooted(headers) && o0 in headers && n0 in headers && Walking(headers, o0, n0, o, n)
    requires o != n && headers[o].height >= headers[n].height
    ensures headers[o].height > 0 && TreeAt(headers, o) && headers[headers[o].parent].height == headers[o].height - 1
    ensures Walking(headers, o0, n0, headers[o].parent, n) && Only(headers, o0, n0, o)
    ensures forall a {:trigger OnAbove(headers, o0, headers[o].height - 1, a)} ::
      OnAbove(headers, o0, headers[o].height - 1, a) <==> a == o || OnAbove(headers, o0, headers[o].height, a)
  {
    OnParent(headers, o0, o);
    var p := headers[o].parent;
    if headers[o].height == headers[n].height && On(headers, n0, o) { OnUnique(headers, n0, o, n); }
    assert !On(headers, n0, o);
    forall a
      ensures OnAbove(headers, o0, headers[o].height - 1, a) <==> a == o || OnAbove(headers, o0, headers[o].height, a)
    {
      if On(headers, o0, a) && headers[a].height == headers[o].height { OnUnique(headers, o0, a, o); }
    }
    forall a | OnAbove(headers, o0, headers[p].height, a) ensures !On(headers, n0, a) {
      if headers[a].height == headers[o].height {
        OnUnique(headers, o0, a, o);
      } else {
        assert OnAbove(headers, o0, headers[o].height, a);
      }
    }
    if headers[n].height > headers[p].height && On(headers, o0, n) { OnUnique(headers, o0, n, o); }
    if headers[p].height > headers[n].height && On(headers, n0, p) {
      assert OnAbove(headers, n0, headers[n].height, p);
    }
  }

  lemma WalkNew(headers: Headers, o0: Hash, n0: Hash, o: Hash, n: Hash)
    requires Rooted(headers) && o0 in headers && n0 in headers && Walking(headers, o0, n0, o, n)
    requires o != n && headers[n].height >= headers[o].height
    ensures headers[n].height > 0 && TreeAt(headers, n) && headers[headers[n].parent].height == headers[n].height - 1
    ensures Walking(headers, o0, n0, o, headers[n].parent) && Only(headers, n0, o0, n)
    ensures forall a {:trigger OnAbove(headers, n0, headers[n].height - 1, a)} ::
      OnAbove(headers, n0, headers[n].height - 1, a) <==> a == n || OnAbove(headers, n0, headers[n].height, a)
  {
    WalkSwap(headers, o0, n0, o, n);
    WalkOld(headers, n0, o0, n, o);
    WalkSwap(headers, n0, o0, headers[n].parent, o);
  }

  lemma WalkSwap(headers: Headers, o0: Hash, n0: Hash, o: Hash, n: Hash)
    requires Tree(headers) && o0 in headers && n0 in headers && Walking(headers, o0, n0, o, n)
    ensures Walking(headers, n0, o0, n, o)
  {
  }

  /** Where the walks meet, exactly what was passed is on one branch only. */
  lemma WalkEnd(headers: Headers, o0: Hash, n0: Hash, c: Hash, a: Hash)
    requires Tree(headers) && o0 in headers && n0 in headers && Walking(headers, o0, n0, c, c)
    ensures Only(headers, o0, n0, a) <==> OnAbove(headers, o0, headers[c].height, a)
    ensures Only(headers, n0, o0, a) <==> OnAbove(headers, n0, headers[c].height, a)
  {
    OnPrefix(headers, o0, c, a);
    OnPrefix(headers, n0, c, a);
    assert OnAbove(headers, o0, headers[c].height, a) ==> !On(headers, n0, a);
    assert OnAbove(headers, n0, headers[c].height, a) ==> !On(headers, o0, a);
  }

  // ---------- the light pool: hashes of both branches ----------

  datatype Split = NoSplit | Split(oldHashes: seq<Hash>, newHashes: seq<Hash>)

  /** The blocks of the branch of h above a height, from the top down. */
  ghost predicate Lists(headers: Headers, h: Hash, height: int, hashes: seq<Hash>)
    requires Tree(headers) && h in headers
  {
    && |hashes| == headers[h].height - height
    && (forall a {:trigger OnAbove(headers, h, height, a)} {:trigger a in hashes} ::
        a in hashes <==> OnAbove(headers, h, height, a))
    && (forall i :: 0 <= i < |hashes| ==> hashes[i] in headers && headers[hashes[i]].height == headers[h].height - i)
  }

  lemma ListsStart(headers: Headers, h: Hash)
    requires Tree(headers) && h in headers
    ensures Lists(headers, h, headers[h].height, [])
  {
    forall a ensures a in [] <==> OnAbove(headers, h, headers[h].height, a) {
      if On(headers, h, a) { OnBounded(headers, h, a); }
    }
  }

  /** What commonAncestor returns: the blocks reachable from one head only, each once, from the top down. */
  ghost predicate Splits(headers: Headers, h: Hash, k: Hash, hashes: seq<Hash>)
    requires Tree(headers) && h in headers && k in headers
  {
    && (forall a :: a in hashes <==> Only(headers, h, k, a))
    && (forall i :: 0 <= i < |hashes| ==> hashes[i] in headers && headers[hashes[i]].height == headers[h].height - i)
  }

  lemma SplitsEnd(headers: Headers, o0: Hash, n0: Hash, c: Hash, oldHashes: seq<Hash>, newHashes: seq<Hash>)
    requires Tree(headers) && o0 in headers && n0 in headers && Walking(headers, o0, n0, c, c)
    requires Lists(headers, o0, headers[c].height, oldHashes) && Lists(headers, n0, headers[c].height, newHashes)
    ensures Splits(headers, o0, n0, oldHashes) && Splits(headers, n0, o0, newHashes)
  {
    forall a ensures a in oldHashes <==> Only(headers, o0, n0, a) { WalkEnd(headers, o0, n0, c, a); }
    forall a ensures a in newHashes <==> Only(headers, n0, o0, a) { WalkEnd(headers, o0, n0, c, a); }
  }

  /** commonAncestor; on a tree with one root it never fails. */
  method CommonAncestor(headers: Headers, oldHash0: Hash, newHash0: Hash) returns (r: Split)
    requires Linked(headers) && oldHash0 in headers && newHash0 in headers
    ensures Rooted(headers) ==>
      r.Split? && Splits(headers, oldHash0, newHash0, r.oldHashes) && Splits(headers, newHash0, oldHash0, r.newHashes)
  {
    var oldHash, newHash := oldHash0, newHash0;
    var oldHashes, newHashes := [], [];
    ghost var rooted := Rooted(headers);
    if rooted {
      WalkStart(headers, oldHash, newHash);
      ListsStart(headers, oldHash);
      ListsStart(headers, newHash);
    }
    while oldHash != newHash
      invariant oldHash in headers && newHash in headers
      invariant rooted ==> Walking(headers, oldHash0, newHash0, oldHash, newHash)
      invariant rooted ==>
        && Lists(headers, oldHash0, headers[oldHash].height, oldHashes)
        && Lists(headers, newHash0, headers[newHash].height, newHashes)
      decreases headers[oldHash].height + headers[newHash].height
    {
      assert LinkedAt(headers, oldHash) && LinkedAt(headers, newHash);
      if headers[oldHash].height >= headers[newHash].height {
        if rooted { WalkOld(headers, oldHash0, newHash0, oldHash, newHash); }
        oldHashes := oldHashes + [oldHash];
        var preHash := headers[oldHash].parent;
        if preHash !in headers {
          return NoSplit;
        }
        oldHash := preHash;
      } else {
        if rooted { WalkNew(headers, oldHash0, newHash0, oldHash, newHash); }
        newHashes := newHashes + [newHash];
        var preHash := headers[newHash].parent;
        if preHash !in headers {
          return NoSplit;
        }
        newHash := preHash;
      }
    }
    if rooted { SplitsEnd(headers, oldHash0, newHash0, oldHash, oldHashes, newHashes); }
    return Split(oldHashes, newHashes);
  }

  // ---------- the pool: objects to reinject ----------

  datatype Obj = Obj(hash: int, data: int)

  type Bodies = map<Hash, seq<Obj>>

  function ObjectsOf(bodies: Bodies, h: Hash): seq<Obj> {
    if h in bodies then bodies[h] else []
  }

  /** Some block of the branch of h above the height holds an object with that hash. */
  ghost predicate HeldAbove(headers: Headers, bodies: Bodies, h: Hash, height: int, k: int)
    requires Tree(headers) && h in headers
  {
    exists a {:trigger OnAbove(headers, h, height, a)} ::
      OnAbove(headers, h, height, a) && Holds(ObjectsOf(bodies, a), k)
  }

  ghost predicate Holds(objs: seq<Obj>, k: int) {
    exists i :: 0 <= i < |objs| && objs[i].hash == k
  }

  /** Some block reachable from h and not from k holds an object with that hash. */
  ghost predicate HeldOnly(headers: Headers, bodies: Bodies, h: Hash, k: Hash, key: int)
    requires Tree(headers) && h in headers && k in headers
  {
    exists a {:trigger Only(headers, h, k, a)} :: Only(headers, h, k, a) && Holds(ObjectsOf(bodies, a), key)
  }

  /** The loop over the objects of one block. */
  method Collect(m: map<int, Obj>, objs: seq<Obj>) returns (r: map<int, Obj>)
    requires forall k :: k in m ==> m[k].hash == k
    ensures forall k :: k in r <==> k in m || Holds(objs, k)
    ensures forall k :: k in r ==> r[k].hash == k
  {
    r := m;
    for i := 0 to |objs|
      invariant forall k :: k in r <==> k in m || exists j :: 0 <= j < i && objs[j].hash == k
      invariant forall k :: k in r ==> r[k].hash == k
    {
      r := r[objs[i].hash := objs[i]];
    }
  }

  /** The map holds what the blocks of the branch of h above the height hold. */
  ghost predicate Collected(headers: Headers, bodies: Bodies, h: Hash, height: int, m: map<int, Obj>)
    requires Tree(headers) && h in headers
  {
    forall k :: k in m <==> HeldAbove(headers, bodies, h, height, k)
  }

  lemma CollectedStart(headers: Headers, bodies: Bodies, h: Hash)
    requires Tree(headers) && h in headers
    ensures Collected(headers, bodies, h, headers[h].height, map[])
  {
    forall a | On(headers, h, a) ensures headers[a].height <= headers[h].height { OnBounded(headers, h, a); }
  }

  /** One more block collected. */
  lemma CollectedStep(headers: Headers, bodies: Bodies, h: Hash, a: Hash, m: map<int, Obj>, m': map<int, Obj>)
    requires Tree(headers) && h in headers && a in headers && Collected(headers, bodies, h, headers[a].height, m)
    requires forall k :: k in m' <==> k in m || Holds(ObjectsOf(bodies, a), k)
    requires forall b {:trigger OnAbove(headers, h, headers[a].height - 1, b)} ::
      OnAbove(headers, h, headers[a].height - 1, b) <==> b == a || OnAbove(headers, h, headers[a].height, b)
    ensures Collected(headers, bodies, h, headers[a].height - 1, m')
  {
    forall k ensures k in m' <==> HeldAbove(headers, bodies, h, headers[a].height - 1, k) {
      if HeldAbove(headers, bodies, h, headers[a].height - 1, k) {
        var b :| OnAbove(headers, h, headers[a].height - 1, b) && Holds(ObjectsOf(bodies, b), k);
        assert b == a || OnAbove(headers, h, headers[a].height, b);
      }
      if k in m' {
        if Holds(ObjectsOf(bodies, a), k) {
          assert OnAbove(headers, h, headers[a].height - 1, a);
        } else {
          var b :| OnAbove(headers, h, headers[a].height, b) && Holds(ObjectsOf(bodies, b), k);
          assert OnAbove(headers, h, headers[a].height - 1, b);
        }
      }
    }
  }

  lemma CollectedEnd(headers: Headers, bodies: Bodies, o0: Hash, n0: Hash, c: Hash, added: map<int, Obj>,
                     deleted: map<int, Obj>)
    requires Tree(headers) && o0 in headers && n0 in headers && Walking(headers, o0, n0, c, c)
    requires Collected(headers, bodies, o0, headers[c].height, added)
    requires Collected(headers, bodies, n0, headers[c].height, deleted)
    ensures forall k :: k in added <==> HeldOnly(headers, bodies, o0, n0, k)
    ensures forall k :: k in deleted <==> HeldOnly(headers, bodies, n0, o0, k)
  {
    forall a ensures Only(headers, o0, n0, a) <==> OnAbove(headers, o0, headers[c].height, a) {
      WalkEnd(headers, o0, n0, c, a);
    }
    forall a ensures Only(headers, n0, o0, a) <==> OnAbove(headers, n0, headers[c].height, a) {
      WalkEnd(headers, o0, n0, c, a);
    }
  }

  /** The state of the walk: where it is and what it has collected. */
  ghost predicate Reinjecting(headers: Headers, bodies: Bodies, o0: Hash, n0: Hash, o: Hash, n: Hash,
                              added: map<int, Obj>, deleted: map<int, Obj>)
  {
    && Rooted(headers) && o0 in headers && n0 in headers && Walking(headers, o0, n0, o, n)
    && Collected(headers, bodies, o0, headers[o].height, added)
    && Collected(headers, bodies, n0, headers[n].height, deleted)
  }

  /** One block of the old branch: its objects are to be added back. */
  method StepOld(headers: Headers, bodies: Bodies, o: Hash, added: map<int, Obj>,
                 ghost o0: Hash, ghost n0: Hash, ghost n: Hash, ghost deleted: map<int, Obj>, ghost rooted: bool)
    returns (o': Hash, added': map<int, Obj>, ok: bool)
    requires Linked(headers) && o in headers && forall k :: k in added ==> added[k].hash == k
    requires rooted ==>
      Reinjecting(headers, bodies, o0, n0, o, n, added, deleted) && o != n && headers[o].height >= headers[n].height
    ensures ok ==>
      o' in headers && headers[o'].height == headers[o].height - 1 && forall k :: k in added' ==> added'[k].hash == k
    ensures rooted ==> ok && Reinjecting(headers, bodies, o0, n0, o', n, added', deleted)
  {
    assert LinkedAt(headers, o);
    added' := Collect(added, ObjectsOf(bodies, o));
    if rooted {
      WalkOld(headers, o0, n0, o, n);
      CollectedStep(headers, bodies, o0, o, added, added');
    }
    o' := headers[o].parent;
    ok := o' in headers;
  }

  /** One block of the new branch: its objects are not. */
  method StepNew(headers: Headers, bodies: Bodies, n: Hash, deleted: map<int, Obj>,
                 ghost o0: Hash, ghost n0: Hash, ghost o: Hash, ghost added: map<int, Obj>, ghost rooted: bool)
    returns (n': Hash, deleted': map<int, Obj>, ok: bool)
    requires Linked(headers) && n in headers && forall k :: k in deleted ==> deleted[k].hash == k
    requires rooted ==>
      Reinjecting(headers, bodies, o0, n0, o, n, added, deleted) && o != n && headers[n].height >= headers[o].height
    ensures ok ==>
      && n' in headers && headers[n'].height == headers[n].height - 1
      && forall k :: k in deleted' ==> deleted'[k].hash == k
    ensures rooted ==> ok && Reinjecting(headers, bodies, o0, n0, o, n', added, deleted')
  {
    assert LinkedAt(headers, n);
    deleted' := Collect(deleted, ObjectsOf(bodies, n));
    if rooted {
      WalkNew(headers, o0, n0, o, n);
      CollectedStep(headers, bodies, n0, n, deleted, deleted');
    }
    n' := headers[n].parent;
    ok := n' in headers;
  }

  /** Both heads are known, and the new one is not a child of the old one. */
  predicate Forked(headers: Headers, newHeader: Hash, lastHeader: Hash) {
    newHeader in headers && lastHeader in headers && headers[newHeader].parent != lastHeader
  }

  /** getReinjectObject: the objects of the blocks only the old head reaches that no block only the new head reaches
      holds. */
  method GetReinjectObject(headers: Headers, bodies: Bodies, newHeader: Hash, lastHeader: Hash)
    returns (r: Option<map<int, Obj>>)
    requires Linked(headers)
    ensures newHeader !in headers || headers[newHeader].parent == lastHeader || lastHeader !in headers ==> r.None?
    ensures r.Some? ==> forall k :: k in r.value ==> r.value[k].hash == k
    ensures Rooted(headers) && Forked(headers, newHeader, lastHeader) ==>
      r.Some? && forall k :: k in r.value <==>
        HeldOnly(headers, bodies, lastHeader, newHeader, k) && !HeldOnly(headers, bodies, newHeader, lastHeader, k)
  {
    if newHeader !in headers || headers[newHeader].parent == lastHeader || lastHeader !in headers {
      return None;
    }
    var n, o := newHeader, lastHeader;
    var added: map<int, Obj>, deleted: map<int, Obj>, ok := map[], map[], true;
    ghost var rooted := Rooted(headers);
    if rooted {
      WalkStart(headers, o, n);
      CollectedStart(headers, bodies, o);
      CollectedStart(headers, bodies, n);
    }
    while headers[n].height > headers[o].height
      invariant n in headers && o in headers && rooted == Rooted(headers)
      invariant forall k :: k in deleted ==> deleted[k].hash == k
      invariant rooted ==> Reinjecting(headers, bodies, lastHeader, newHeader, o, n, added, deleted)
      decreases headers[n].height
    {
      n, deleted, ok := StepNew(headers, bodies, n, deleted, lastHeader, newHeader, o, added, rooted);
      if !ok {
        return None;
      }
    }
    while headers[o].height > headers[n].height
      invariant n in headers && o in headers && headers[o].height >= headers[n].height
      invariant forall k :: k in added ==> added[k].hash == k
      invariant rooted ==> Reinjecting(headers, bodies, lastHeader, newHeader, o, n, added, deleted)
      decreases headers[o].height
    {
      o, added, ok := StepOld(headers, bodies, o, added, lastHeader, newHeader, n, deleted, rooted);
      if !ok {
        return None;
      }
    }
    while o != n
      invariant n in headers && o in headers && headers[o].height == headers[n].height
      invariant forall k :: k in added ==> added[k].hash == k
      invariant forall k :: k in deleted ==> deleted[k].hash == k
      invariant rooted ==> Reinjecting(headers, bodies, lastHeader, newHeader, o, n, added, deleted)
      decreases headers[o].height
    {
      o, added, ok := StepOld(headers, bodies, o, added, lastHeader, newHeader, n, deleted, rooted);
      if !ok {
        return None;
      }
      n, deleted, ok := StepNew(headers, bodies, n, deleted, lastHeader, newHeader, o, added, rooted);
      if !ok {
        return None;
      }
    }
    if rooted { CollectedEnd(headers, bodies, lastHeader, newHeader, o, added, deleted); }
    return Some(map k | k in added && k !in deleted :: added[k]);
  }

  /** When the new head extends the old one, nothing is to be added back. */
  lemma NothingToReinject(headers: Headers, bodies: Bodies, n: Hash, k: int)
    requires Tree(headers) && n in headers && headers[n].parent in headers
    ensures !HeldOnly(headers, bodies, headers[n].parent, n, k)
  {
    assert TreeAt(headers, n);
    OnSelf(headers, n);
    OnParent(headers, n, n);
    forall a ensures !Only(headers, headers[n].parent, n, a) { OnPrefix(headers, n, headers[n].parent, a); }
  }
}
