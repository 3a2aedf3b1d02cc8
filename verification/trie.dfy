/** The trie as a whole: its operations, what each does to the stored map, and whole runs. */
module Trie {
  import opened Options
  import opened TrieNodes
  import opened TrieKeys
  import opened TrieInsert
  import opened TrieGet
  import opened TrieDelete
  import opened TrieShape
  import opened TrieUnique
  import opened TrieHash

  /** A trie and the database its nodes are loaded from and committed to. */
  datatype State = State(root: Node, db: Db)

  ghost predicate ByteKeys(link: Link) {
    forall key :: Terminated(key) && Lookup(link, key).Some? ==> |key| % 2 == 1
  }

  ghost predicate Valid(s: State) {
    WF(LinkOf(s.root), false) && Sound(s.root, s.db) && Honest(s.db) && ByteKeys(LinkOf(s.root))
  }

  /** The finite map a trie stands for. */
  ghost function ViewOf(link: Link): imap<Bytes, Bytes> {
    imap k: Bytes | Lookup(link, Hex(k)).Some? :: Lookup(link, Hex(k)).value
  }

  ghost function View(s: State): imap<Bytes, Bytes> {
    ViewOf(LinkOf(s.root))
  }

  // ---------- operations ----------

  datatype Op = OpPut(key: Bytes, value: Bytes) | OpDelete(key: Bytes) | OpDeletePrefix(key: Bytes)
              | OpGet(key: Bytes) | OpHash | OpCommit | OpReload

  function PutStep(s: State, key: Bytes, value: Bytes): State
    requires Valid(s)
  {
    HexTerminated(key);
    var r := Insert(s.db, s.root, Hex(key), value, false);
    if r.Some? then State(r.value, s.db) else s
  }

  /** The hex key delete works on: a prefix goes without the terminator. */
  function DelHex(key: Bytes, descendant: bool): Nibbles {
    if descendant then Hex(key)[..2 * |key|] else Hex(key)
  }

  /** Delete and DeletePrefix: the new state and whether something matched. */
  function DeleteStep(s: State, key: Bytes, descendant: bool): (State, bool)
    requires Valid(s)
  {
    HexTerminated(key);
    if descendant && key == [] then (s, false)
    else
      var r := Delete(s.db, s.root, DelHex(key, descendant), descendant, false);
      if r.Removed? then (State(r.node, s.db), true) else (s, false)
  }

  function GetStep(s: State, key: Bytes): (State, GetResult)
    requires Valid(s)
  {
    HexTerminated(key);
    HonestIsGenuine(s.db, LinkOf(s.root), false, Hex(key));
    var r := Get(s.db, s.root, Hex(key), false);
    (State(r.node, s.db), r)
  }

  /** Hash and Commit: the new state and the root hash. */
  function HashStep(s: State, commit: bool): (State, Hash) {
    var r := NodeHash(s.root, commit, s.db);
    (State(r.node, r.db), if s.root.Nil? then EMPTY_HASH else r.link.hash)
  }

  /** NewTrie on a root hash. */
  function Open(root: Hash, db: Db): Option<State> {
    if root == EMPTY_HASH then Some(State(Nil, db))
    else
      var n := LoadNode(db, root);
      if n.None? then None else Some(State(n.value, db))
  }

  function Step(s: State, op: Op): State
    requires Valid(s)
  {
    match op
    case OpPut(k, v) => PutStep(s, k, v)
    case OpDelete(k) => DeleteStep(s, k, false).0
    case OpDeletePrefix(p) => DeleteStep(s, p, true).0
    case OpGet(k) => GetStep(s, k).0
    case OpHash => HashStep(s, false).0
    case OpCommit => HashStep(s, true).0
    case OpReload =>
      var (committed, root) := HashStep(s, true);
      var again := Open(root, committed.db);
      if again.Some? then again.value else s
  }

  // ---------- the map ----------

  ghost function MapStep(m: imap<Bytes, Bytes>, op: Op): imap<Bytes, Bytes> {
    match op
    case OpPut(k, v) => m[k := v]
    case OpDelete(k) => Without(m, k, false)
    case OpDeletePrefix(p) => if p == [] then m else Without(m, p, true)
    case _ => m
  }

  ghost predicate HitBytes(key: Bytes, descendant: bool, k: Bytes) {
    if descendant then key <= k else k == key
  }

  ghost function Without(m: imap<Bytes, Bytes>, key: Bytes, descendant: bool): imap<Bytes, Bytes> {
    imap x | x in m && !HitBytes(key, descendant, x) :: m[x]
  }

  /** `b` is `a` with one hex key changed, or with the hit keys removed. */
  ghost predicate Assigned(a: Link, b: Link, hex: Nibbles, value: Bytes) {
    forall other :: Terminated(other) ==> Lookup(b, other) == if other == hex then Some(value) else Lookup(a, other)
  }

  ghost predicate Pruned(a: Link, b: Link, hex: Nibbles, descendant: bool) {
    forall other :: Terminated(other) ==>
      Lookup(b, other) == if Hit(hex, descendant, other) then None else Lookup(a, other)
  }

  lemma AssignedAt(a: Link, b: Link, key: Bytes, value: Bytes, k: Bytes)
    requires Assigned(a, b, Hex(key), value)
    ensures Lookup(b, Hex(k)) == if k == key then Some(value) else Lookup(a, Hex(k))
  {
    HexTerminated(k);
    if Hex(k) == Hex(key) { HexInjective(k, key); }
  }

  lemma AssignedByteKeys(a: Link, b: Link, key: Bytes, value: Bytes)
    requires Assigned(a, b, Hex(key), value) && ByteKeys(a)
    ensures ByteKeys(b)
  {
    var hex := Hex(key);
    assert |hex| % 2 == 1 by { assert |hex| == 2 * |key| + 1; }
    forall other | Terminated(other) && Lookup(b, other).Some? ensures |other| % 2 == 1 {
      if other != hex { assert Lookup(a, other).Some?; }
    }
  }

  lemma AssignedView(a: Link, b: Link, key: Bytes, value: Bytes)
    requires Assigned(a, b, Hex(key), value)
    ensures ViewOf(b) == ViewOf(a)[key := value]
  {
    var va, vb := ViewOf(a)[key := value], ViewOf(b);
    forall k: Bytes ensures (k in vb) == (k in va) && (k in vb ==> vb[k] == va[k]) {
      AssignedAt(a, b, key, value, k);
    }
  }

  lemma HitHex(key: Bytes, descendant: bool, k: Bytes)
    ensures Hit(DelHex(key, descendant), descendant, Hex(k)) <==> HitBytes(key, descendant, k)
  {
    if descendant { HexPrefix(key, k); } else if Hex(k) == Hex(key) { HexInjective(k, key); }
  }

  lemma PrunedAt(a: Link, b: Link, key: Bytes, descendant: bool, k: Bytes)
    requires Pruned(a, b, DelHex(key, descendant), descendant)
    ensures Lookup(b, Hex(k)) == if HitBytes(key, descendant, k) then None else Lookup(a, Hex(k))
  {
    HexTerminated(k);
    HitHex(key, descendant, k);
  }

  lemma PrunedByteKeys(a: Link, b: Link, hex: Nibbles, descendant: bool)
    requires Pruned(a, b, hex, descendant) && ByteKeys(a)
    ensures ByteKeys(b)
  {
    forall other | Terminated(other) && Lookup(b, other).Some? ensures |other| % 2 == 1 {
      assert Lookup(a, other).Some?;
    }
  }

  lemma PrunedView(a: Link, b: Link, key: Bytes, descendant: bool)
    requires Pruned(a, b, DelHex(key, descendant), descendant)
    ensures ViewOf(b) == Without(ViewOf(a), key, descendant)
  {
    var va, vb := Without(ViewOf(a), key, descendant), ViewOf(b);
    forall k: Bytes ensures (k in vb) == (k in va) && (k in vb ==> vb[k] == va[k]) {
      PrunedAt(a, b, key, descendant, k);
    }
  }

  lemma InsertAssigns(db: Db, node: Node, hex: Nibbles, value: Bytes)
    requires WF(LinkOf(node), false) && Terminated(hex) && Sound(node, db)
    ensures Insert(db, node, hex, value, false).Some?
    ensures Assigned(LinkOf(node), LinkOf(Insert(db, node, hex, value, false).value), hex, value)
  {
    InsertKeeps(db, node, hex, value, false);
    var link := LinkOf(Insert(db, node, hex, value, false).value);
    forall other | Terminated(other)
      ensures Lookup(link, other) == if other == hex then Some(value) else Lookup(LinkOf(node), other)
    {
      InsertLookup(db, node, hex, value, false, other);
    }
  }

  lemma DeletePrunes(db: Db, node: Node, hex: Nibbles, descendant: bool)
    requires WF(LinkOf(node), false) && DelKeyOk(hex, descendant, false) && Sound(node, db)
    ensures var r := Delete(db, node, hex, descendant, false);
      Pruned(LinkOf(node), if r.Removed? then LinkOf(r.node) else LinkOf(node), hex, descendant)
  {
    var r := Delete(db, node, hex, descendant, false);
    var link := if r.Removed? then LinkOf(r.node) else LinkOf(node);
    forall other | Terminated(other)
      ensures Lookup(link, other) == if Hit(hex, descendant, other) then None else Lookup(LinkOf(node), other)
    {
      DeleteLookup(db, node, hex, descendant, false, other);
    }
  }

  /** Put updates one key. */
  lemma PutRefines(s: State, key: Bytes, value: Bytes)
    requires Valid(s)
    ensures Valid(PutStep(s, key, value)) && View(PutStep(s, key, value)) == View(s)[key := value]
  {
    HexTerminated(key);
    InsertKeeps(s.db, s.root, Hex(key), value, false);
    InsertAssigns(s.db, s.root, Hex(key), value);
    var link := LinkOf(PutStep(s, key, value).root);
    AssignedByteKeys(LinkOf(s.root), link, key, value);
    AssignedView(LinkOf(s.root), link, key, value);
  }

  /** Delete removes one key, DeletePrefix exactly the keys with the prefix. */
  lemma DeleteRefines(s: State, key: Bytes, descendant: bool)
    requires Valid(s)
    ensures var s' := DeleteStep(s, key, descendant).0;
      Valid(s') && View(s') == MapStep(View(s), if descendant then OpDeletePrefix(key) else OpDelete(key))
  {
    HexTerminated(key);
    if !(descendant && key == []) {
      var hex := DelHex(key, descendant);
      DeleteKeeps(s.db, s.root, hex, descendant, false);
      DeletePrunes(s.db, s.root, hex, descendant);
      var link := LinkOf(DeleteStep(s, key, descendant).0.root);
      PrunedByteKeys(LinkOf(s.root), link, hex, descendant);
      PrunedView(LinkOf(s.root), link, key, descendant);
    }
  }

  /** Delete returns true exactly when the key was stored. */
  lemma DeleteMatched(s: State, key: Bytes)
    requires Valid(s)
    ensures DeleteStep(s, key, false).1 <==> key in View(s)
  {
    HexTerminated(key);
    DeleteReports(s.db, s.root, Hex(key), false, false);
  }

  /** DeletePrefix returns true exactly if the trie has a node at or below the prefix, so whenever a key has the prefix;
      the converse holds in tries without empty branches. */
  lemma DeletePrefixMatched(s: State, prefix: Bytes)
    requires Valid(s) && prefix != []
    ensures DeleteStep(s, prefix, true).1 <==> Under(LinkOf(s.root), Hex(prefix)[..2 * |prefix|])
    ensures (exists k :: k in View(s) && prefix <= k) ==> DeleteStep(s, prefix, true).1
    ensures Shape(LinkOf(s.root), false) && DeleteStep(s, prefix, true).1 ==> exists k :: k in View(s) && prefix <= k
  {
    HexTerminated(prefix);
    var hex := Hex(prefix)[..2 * |prefix|];
    DeleteReports(s.db, s.root, hex, true, false);
    forall k | k in View(s) && prefix <= k ensures Under(LinkOf(s.root), hex) {
      HexPrefix(prefix, k);
      KeyIsUnder(LinkOf(s.root), hex, Hex(k));
    }
    if Shape(LinkOf(s.root), false) && Under(LinkOf(s.root), hex) {
      var key := UnderHasKey(LinkOf(s.root), hex);
      var k := Unhex(key);
      HexPrefix(prefix, k);
      assert k in View(s);
    }
  }

  /** Get returns the stored value and changes neither the map nor the root hash. */
  lemma GetRefines(s: State, key: Bytes)
    requires Valid(s)
    ensures var (s', r) := GetStep(s, key);
      && Valid(s') && LinkOf(s'.root) == LinkOf(s.root) && !r.failed
      && r.value == if key in View(s) then Some(View(s)[key]) else None
  {
    HexTerminated(key);
    HonestIsGenuine(s.db, LinkOf(s.root), false, Hex(key));
    GetCorrect(s.db, s.root, Hex(key), false);
    GetSound(s.db, s.root, Hex(key), false);
  }

  /** Hash and Commit return the hash of the trie recomputed from scratch and leave no dirty node;
      after Commit the trie opened on that hash is the same trie. */
  lemma HashRefines(s: State, commit: bool)
    requires Valid(s)
    ensures var (s', hash) := HashStep(s, commit);
      && Valid(s') && LinkOf(s'.root) == LinkOf(s.root) && Clean(s'.root) && (!commit ==> s'.db == s.db)
      && (if s.root.Nil? then hash == EMPTY_HASH else To(hash) == LinkOf(s.root))
      && (commit ==> InDb(LinkOf(s.root), s'.db) && Open(hash, s'.db).Some? &&
                     Valid(Open(hash, s'.db).value) && LinkOf(Open(hash, s'.db).value.root) == LinkOf(s.root))
  {
    NodeHashOk(s.root, commit, s.db);
    if commit && !s.root.Nil? {
      var (s', hash) := HashStep(s, commit);
      DecodeSound(hash, s'.db);
    }
  }

  /** Every operation does to the trie what it does to the map. */
  lemma StepRefines(s: State, op: Op)
    requires Valid(s)
    ensures Valid(Step(s, op)) && View(Step(s, op)) == MapStep(View(s), op)
    ensures !op.OpPut? && !op.OpDelete? && !op.OpDeletePrefix? ==> LinkOf(Step(s, op).root) == LinkOf(s.root)
  {
    match op
    case OpPut(k, v) => PutRefines(s, k, v);
    case OpDelete(k) => DeleteRefines(s, k, false);
    case OpDeletePrefix(p) => DeleteRefines(s, p, true);
    case OpGet(k) => GetRefines(s, k);
    case OpHash => HashRefines(s, false);
    case OpCommit => HashRefines(s, true);
    case OpReload => HashRefines(s, true);
  }

  // ---------- runs ----------

  const EMPTY := State(Nil, map[])

  ghost function Run(ops: seq<Op>): (s: State)
    ensures Valid(s)
  {
    if ops == [] then EMPTY
    else
      var s := Run(ops[..|ops| - 1]);
      StepRefines(s, ops[|ops| - 1]);
      Step(s, ops[|ops| - 1])
  }

  ghost function MapRun(ops: seq<Op>): imap<Bytes, Bytes> {
    if ops == [] then imap[] else MapStep(MapRun(ops[..|ops| - 1]), ops[|ops| - 1])
  }

  /** The trie refines a finite map over every sequence of operations. */
  lemma {:induction false} RunRefines(ops: seq<Op>)
    ensures Valid(Run(ops)) && View(Run(ops)) == MapRun(ops)
  {
    if ops != [] {
      RunRefines(ops[..|ops| - 1]);
      StepRefines(Run(ops[..|ops| - 1]), ops[|ops| - 1]);
    }
  }

  ghost predicate PutOnly(ops: seq<Op>) {
    forall op :: op in ops ==> !op.OpDelete? && !op.OpDeletePrefix?
  }

  ghost predicate NoPrefixDeletes(ops: seq<Op>) {
    forall op :: op in ops ==> !op.OpDeletePrefix?
  }

  lemma StepShape(s: State, op: Op, strict: bool)
    requires Valid(s) && Shape(LinkOf(s.root), strict) && !op.OpDeletePrefix? && (strict ==> !op.OpDelete?)
    ensures Shape(LinkOf(Step(s, op).root), strict)
  {
    StepRefines(s, op);
    match op
    case OpPut(k, v) =>
      HexTerminated(k);
      InsertShape(s.db, s.root, Hex(k), v, false, strict);
    case OpDelete(k) =>
      HexTerminated(k);
      DeleteShape(s.db, s.root, Hex(k), false);
    case _ =>
  }

  lemma {:induction false} RunShape(ops: seq<Op>, strict: bool)
    requires if strict then PutOnly(ops) else NoPrefixDeletes(ops)
    ensures Shape(LinkOf(Run(ops).root), strict)
  {
    if ops != [] {
      RunShape(ops[..|ops| - 1], strict);
      StepShape(Run(ops[..|ops| - 1]), ops[|ops| - 1], strict);
    }
  }

  /** Over every run without DeletePrefix, what DeletePrefix would report is whether a stored key has the prefix. */
  lemma PrefixReport(ops: seq<Op>, prefix: Bytes)
    requires NoPrefixDeletes(ops)
    ensures DeleteStep(Run(ops), prefix, true).1 <==> prefix != [] && exists k :: k in MapRun(ops) && prefix <= k
  {
    RunRefines(ops);
    RunShape(ops, false);
    if prefix != [] { DeletePrefixMatched(Run(ops), prefix); }
  }

  /** Order independence: histories without deletions that store the same map build the same trie,
      whatever reads, hashes, commits and reloads happen in between, and report the same root hash. */
  lemma PutOrderIndependence(ops1: seq<Op>, ops2: seq<Op>)
    requires PutOnly(ops1) && PutOnly(ops2) && MapRun(ops1) == MapRun(ops2)
    ensures LinkOf(Run(ops1).root) == LinkOf(Run(ops2).root)
    ensures HashStep(Run(ops1), false).1 == HashStep(Run(ops2), false).1
  {
    var s1, s2 := Run(ops1), Run(ops2);
    RunRefines(ops1);
    RunRefines(ops2);
    RunShape(ops1, true);
    RunShape(ops2, true);
    forall key | KeyOk(key, false) ensures Lookup(LinkOf(s1.root), key) == Lookup(LinkOf(s2.root), key) {
      if Lookup(LinkOf(s1.root), key).Some? || Lookup(LinkOf(s2.root), key).Some? {
        var k := Unhex(key);
        assert (k in View(s1)) == (k in View(s2));
      }
    }
    CanonicalUnique(LinkOf(s1.root), LinkOf(s2.root), false);
    HashRefines(s1, false);
    HashRefines(s2, false);
  }
}
