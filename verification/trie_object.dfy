/** The Trie object: its root is replaced by each operation, its database grows on Commit. */
module TrieObject {
  import opened Options
  import opened TrieNodes
  import opened TrieKeys
  import opened TrieGet
  import opened TrieProof
  import opened Trie

  class MerkleTrie {
    var root: Node
    var db: Db

    ghost predicate Valid()
      reads this
    {
      Trie.Valid(Now())
    }

    function Now(): State
      reads this
    {
      State(root, db)
    }

    ghost function Contents(): imap<Bytes, Bytes>
      reads this
    {
      View(Now())
    }

    /** NewEmptyTrie. */
    constructor Empty(db: Db)
      requires Honest(db)
      ensures Valid() && Contents() == imap[] && this.db == db
    {
      root, this.db := Nil, db;
    }

    method Put(key: Bytes, value: Bytes)
      requires Valid()
      modifies this`root
      ensures Valid() && Contents() == old(Contents())[key := value]
      ensures Now() == PutStep(old(Now()), key, value)
    {
      PutRefines(Now(), key, value);
      root := PutStep(Now(), key, value).root;
    }

    method Delete(key: Bytes) returns (matched: bool)
      requires Valid()
      modifies this`root
      ensures Valid() && Contents() == Without(old(Contents()), key, false)
      ensures matched == (key in old(Contents()))
      ensures Now() == DeleteStep(old(Now()), key, false).0
    {
      DeleteRefines(Now(), key, false);
      DeleteMatched(Now(), key);
      var r := DeleteStep(Now(), key, false);
      root, matched := r.0.root, r.1;
    }

    method DeletePrefix(prefix: Bytes) returns (matched: bool)
      requires Valid()
      modifies this`root
      ensures Valid()
      ensures Contents() == if prefix == [] then old(Contents()) else Without(old(Contents()), prefix, true)
      ensures prefix != [] && (exists k :: k in old(Contents()) && prefix <= k) ==> matched
      ensures Now() == DeleteStep(old(Now()), prefix, true).0
    {
      DeleteRefines(Now(), prefix, true);
      if prefix != [] { DeletePrefixMatched(Now(), prefix); }
      var r := DeleteStep(Now(), prefix, true);
      root, matched := r.0.root, r.1;
    }

    /** Loads what it needs and keeps it; contents and root hash stay. */
    method Get(key: Bytes) returns (value: Option<Bytes>, failed: bool)
      requires Valid()
      modifies this`root
      ensures Valid() && !failed && Contents() == old(Contents()) && LinkOf(root) == old(LinkOf(root))
      ensures value == if key in Contents() then Some(Contents()[key]) else None
    {
      GetRefines(Now(), key);
      var r := GetStep(Now(), key);
      root, value, failed := r.0.root, r.1.value, r.1.failed;
    }

    method Hash() returns (hash: Hash)
      requires Valid()
      modifies this`root
      ensures Valid() && LinkOf(root) == old(LinkOf(root)) && Clean(root)
      ensures if old(root).Nil? then hash == EMPTY_HASH else To(hash) == LinkOf(root)
    {
      HashRefines(Now(), false);
      var r := HashStep(Now(), false);
      root, hash := r.0.root, r.1;
    }

    /** After Commit every node is in the database and the trie can be reopened from the hash. */
    method Commit() returns (hash: Hash)
      requires Valid()
      modifies this
      ensures Valid() && LinkOf(root) == old(LinkOf(root)) && Clean(root) && InDb(LinkOf(root), db)
      ensures if old(root).Nil? then hash == EMPTY_HASH else To(hash) == LinkOf(root)
      ensures Open(hash, db).Some? && LinkOf(Open(hash, db).value.root) == LinkOf(root)
    {
      HashRefines(Now(), true);
      var r := HashStep(Now(), true);
      root, db, hash := r.0.root, r.0.db, r.1;
    }

    /** The proof of a key; collecting it hashes the trie, root first. */
    method Prove(key: Bytes) returns (proof: Db, failed: bool)
      requires Valid()
      modifies this`root
      ensures Valid() && !failed && LinkOf(root) == old(LinkOf(root))
      ensures proof == ProofMap(LinkOf(root), Hex(key))
    {
      HexTerminated(key);
      proof, failed := GetProof(root, Hex(key), db);
      if proof != map[] {
        var _ := Hash();
      }
    }
  }
}
