# Verified model of the go-seele core

This project models the five parts of the go-seele node whose correctness is hardest to see from the code, and
proves what each of them is for. Dafny 4.11 checks it: `dafny verify dfyconfig.toml`.

* **Merkle Patricia trie** (`trie*.dfy`, `light_trie.dfy`). Nodes, lazy loading by hash, the dirty / updated /
  persisted hash cache, path compression on insert and delete, proofs and their verification, and the light
  client's trie over a cache of proof nodes. The node hash is symbolic: a hash is the value `Digest(encoding)`, so
  equal hashes come only from equal encodings. The trie is proved to refine a finite map over every run of its
  operations.
* **Bulletproofs** (`bp_*.dfy`). The inner product argument with its recursive prover, its folding verifier and its
  fast verifier, and single and aggregated range proofs on top, as in sections 3, 4.1 and 4.2 of "Bulletproofs: Short
  Proofs for Confidential Transactions and More". The curve is an abstract module over the integers modulo the group
  order (`CurveGroup.Laws`, for which `SmallCurve` gives an instance), vectors have any length 2^k, the hash
  challenges are functions of points, and the proofs need those that are inverted to be no multiple of the order. Both
  verifiers take proofs with any number of levels.
* **Canonical chain and crash recovery** (`chain_*.dfy`). Headers, the height-to-hash map, the head and the total
  difficulties, with one atomic step for each write to the store or to the recovery record. The class keeps a log of
  what is on disk after every write, none left out, so that a crash can be placed after any of them, and a second one
  after any write of the restart.
* **Transaction pool** (`heap.dfy`, `pool*.dfy`, `block_leaves.dfy`). The heap that tracks the positions of its items,
  the collections per account, the two mirrored heaps of accounts, and admission, replacement, eviction and
  scheduling on top. The leaves of the block tree use the same heaps.
* **Forks and light synchronisation** (`fork.dfy`, `announce.dfy`, `merkle.dfy`). Common ancestors, reinjection, the
  announcement protocol, binary Merkle roots and proofs.

## Findings

Where the code does less than its comments or its name promise, the model follows the code. Each finding has a theorem
with the exact condition, for all inputs, and where the condition is not the finding itself a lemma at an input that
fails it.

* `GetProof` leaves out a leaf that does not match. The proof of an absent key whose search ends at another key's leaf
  is therefore refused, although the comment in `trie/proof.go:20-22` promises the node that proves the absence; so is
  every proof from an empty trie. Without deletions this happens exactly when the trie is empty or one stored key alone
  has the longest prefix in common with the absent one (`TrieNearest.AbsentKeyRefused`; on the trie itself
  `TrieProofLaws.AbsentKeyProvable`; at an input `TrieNearest.AbsentKeyIsRefused`).
* The search of `VerifyProof` stops when the key is used up. A stored key that is a proper prefix of another stored key
  is then reported absent. `TrieProofLaws.StoredKeyProvable` gives the exact condition, and
  `TrieNearest.StoredKeyReportedAbsent` an input; it never fails when all keys have one length
  (`TrieUniform.OneLengthProofs`).
* A deletion does not always restore the shape a trie had before the put it undoes, so the root hash depends on the
  history once keys were deleted. `TrieHistory.DeleteUndoesPut` gives the exact condition for every canonical trie and
  every new key, `TrieHistory.UndoneRun` for the root hash over every history without deletions,
  `TrieHistory.TraceLeft` an input. Without deletions the root hash depends on the map alone
  (`Trie.PutOrderIndependence`).
* The comment at `bulletinproof/inner_prod_arg.go:188-191` says that the fast verifier does the same as the folding one.
  Over 2^k generators that is true of the proofs with k levels and of no other number of levels
  (`ShortProofs.AgreeExactly`). With fewer levels the folding verifier drops generators that the fast one counts, and
  accepts proofs the fast one refuses (`ShortProofs.ShortDiffers`); with more levels the folding verifier runs out of
  generators (`ShortProofs.LongDiffers`).
* `RPProve` and `MRPProve` test for values above 2^n, not for 2^n itself. `RPProve` then runs into an index error;
  `MRPProve` does so for its last value only, and makes a proof for a 2^n in any earlier place
  (`RangeProofs.RPProve`, `MultiRangeArgument.ConcatBits`, `MultiRangeArgument.MRPProve`). Up to the commitments, that
  is the proof for the list with 0 in those places (`EdgeValues.SameCore`). The verifier accepts it exactly if the lost
  2^n, weighted as the commitments are, do not move the point that the prover sends (`EdgeValues.MRPVerdict`); in a
  group in which points can be told apart, exactly if their weighted sum is a multiple of the order
  (`EdgeValues.MRPVerdictExact`), so never if there is one 2^n (`EdgeValues.OneEdgeRefused`, at an input
  `EdgeValues.EdgeInput`).
* `isHead` is always true in `doWriteBlock`, so every block written becomes the head, although the comment at
  `core/blockchain.go:412` speaks of a block with larger total difficulty. The head then need not have the greatest
  total difficulty, as it has in the light chain (`ChainWrites.LightRunBest`). A write keeps that exactly if
  the block written has no smaller total difficulty than the head before (`ChainWrites.WriteKeepsBest`, over runs
  `ChainWrites.RunKeepsBest`, at an input `ChainWrites.LighterHead`).
* A rollback of a block that was put on a free height but not completed leaves its height pointing at the deleted
  block, and from then on no block can be put at that height; a rollback also deletes a block that was in the store
  before (`ChainRecovery.RollbackExact`, `ChainRecovery.RollbackDangles`).
* `recover` calls the two rewriting loops without the record (`core/blockchain_recover.go:96`,
  `core/blockchain_recover.go:107`), so it does not note how far it got. A crash during a restart is repaired by the
  next one exactly if, on disk, the second height to delete is still there or none is left above the first, and the
  second block to overwrite is not yet in place or all of them are; otherwise heights of the old chain stay in the map
  (`SecondCrash.CrashTwice`, `SecondCrash.WriteTwice`, on the object `ChainObject.CrashTwiceAndRestart`, at an input
  `SecondCrash.StaleHeightStays`). A crash during a rollback does no harm (`SecondCrash.UndoTwice`).
* The node tree over a single content doubles it, so its root is not that of `GetBinaryMerkleRoot`; for every other
  number of contents it is (`Merkle.EvenedExactly`).

## Model

| member | source | states |
|---|---|---|
| Trie.RunRefines | trie/trie.go:67-148 | over every sequence of Put, Get, Delete, DeletePrefix, Hash, Commit and reload the trie stays well formed, coherent with its database, and stores exactly the map the same sequence builds |
| Trie.StepRefines | trie/trie.go:67-148 | every operation does to the trie what it does to the map; reads, hashing, commits and reloads keep the root hash |
| Trie.PutRefines | trie/trie.go:67-76 | Put never fails on a valid trie and changes the value of one key and of no other |
| Trie.DeleteRefines | trie/trie.go:80-112 | Delete removes one key, DeletePrefix exactly the keys with that prefix (none for the empty prefix) |
| Trie.DeleteMatched | trie/trie.go:78-93 | Delete returns true if and only if the key was stored |
| Trie.DeletePrefixMatched | trie/trie.go:95-112 | DeletePrefix returns true if and only if the trie has a node at or below the prefix: always when a key has the prefix, and only then if there is no empty branch |
| Trie.PrefixReport | trie/trie.go:95-112 | over every run without an earlier DeletePrefix, DeletePrefix returns true if and only if a stored key has the non-empty prefix |
| Trie.GetRefines | trie/trie.go:115-124 | Get never fails on a valid trie, returns the stored value or nothing, and keeps map and root hash although it replaces references by loaded nodes |
| Trie.HashRefines | trie/trie.go:127-148 | Hash and Commit return the hash of a recomputation from scratch and leave no dirty node; after Commit the whole trie is in the database and reopening it from the hash gives the same trie |
| Trie.PutOrderIndependence | trie/trie.go:255-361 | two histories without deletions that store the same map build the same trie and report the same root hash, whatever reads, hashes, commits and reloads lie between |
| Trie.RunShape | trie/trie.go:255-463 | histories without deletions build canonical tries (no empty or one-child branch, no extension over a leaf or an extension); with single-key deletions there is still no empty branch |
| TrieHistory.DeleteUndoesPut | trie/trie.go:255-463 | in every canonical trie, putting a new key and deleting it again restores the stored map, and restores the trie if and only if the trie has room for the key: the search for it ends in an empty slot, or splits a leaf, or an extension of more than one nibble, at its very first nibble |
| TrieHistory.UndoInsert | trie/trie.go:255-463 | the same at every node of a canonical trie, whether loaded or not, through every split and merge |
| TrieHistory.UndoneRun | trie/trie.go:66-148 | over every history without deletions, putting a new key and deleting it again gives back the root hash if and only if the trie had room for the key |
| TrieHistory.SecondKeyUndone | trie/trie.go:255-463 | for two keys: if and only if they differ in their first nibble |
| TrieHistory.TraceLeft | trie/trie.go:255-463 | at an input: keys 0 and 1 leave another root hash than key 0 alone |
| TrieNodes.DecodeKeepsHash | trie/trie.go:481-587 | decoding an encoded node gives a node that hashes to the hash of that encoding |
| TrieKeys.KeybytesToHex | trie/trie.go:621-630 | the loop that fills the nibble slice computes the hex key |
| TrieKeys.HexAt | trie/trie.go:621-630 | nibble 2i and 2i+1 of the hex key are the halves of byte i, and the last is the terminator |
| TrieKeys.HexPrefix | trie/trie.go:103-104 | a byte prefix without terminator is a prefix of a hex key if and only if the bytes are a prefix of the key |
| TrieKeys.HexInjective | trie/trie.go:621-630 | different keys have different hex keys |
| TrieKeys.Unhex | trie/trie.go:621-630 | every terminated nibble key of odd length is the hex key of some bytes |
| TrieInsert.MatchKeyLen | trie/trie.go:632-645 | the loop finds the length of the longest common prefix |
| TrieInsert.InsertKeeps | trie/trie.go:255-361 | insert succeeds on every well-formed sound trie; the result is well formed, sound and dirty at the root |
| TrieInsert.InsertLookup | trie/trie.go:255-361 | after insert the key has the value and every other key has what it had, through every split of leaves and extensions |
| TrieGet.GetCorrect | trie/trie.go:589-619 | whatever the database holds besides, an error-free get returns the stored value, and loading never changes what a node hashes to |
| TrieGet.GetSound | trie/trie.go:589-619 | on a sound trie get does not fail, and keeps it sound and clean parts clean |
| TrieDelete.CountChildren | trie/trie.go:417-424 | the loop finds the number of children and the position of the last |
| TrieDelete.DeleteKeeps | trie/trie.go:363-463 | delete of a key or a prefix never fails on a sound trie; what it returns is well formed, sound and dirty, or nothing |
| TrieDelete.DeleteLookup | trie/trie.go:363-463 | after delete exactly the hit keys are gone and every other key keeps its value; without a match there was no hit key |
| TrieDelete.CollapseLookup | trie/trie.go:415-451 | merging a branch with its only child, loaded if need be, changes no key |
| TrieShape.InsertShape | trie/trie.go:255-361 | insert keeps the canonical shape, and the weaker one without empty branches |
| TrieShape.DeleteShape | trie/trie.go:363-463 | deleting a key keeps a trie free of empty branches, and a branch does not vanish |
| TrieUnique.CanonicalUnique | trie/trie.go:255-361 | two canonical tries with the same keys and values are the same trie |
| TrieUnique.DeleteReports | trie/trie.go:363-463 | delete reports a match if and only if the key is stored, or a node lies at or below the prefix |
| TrieUnique.UnderHasKey | trie/trie.go:363-463 | without empty branches every node at or below a prefix leads to a key with that prefix |
| TrieHash.NodeHashOk | trie/trie.go:150-214 | nodeHash returns the hash a recomputation from scratch gives and leaves the subtree clean with every cached hash right; with a batch the whole subtree is in the database |
| TrieHash.HashAllIsOk | trie/trie.go:182-191 | the same for the children of a branch, hashed one after the other into one growing database |
| TrieObject.MerkleTrie.Empty | trie/trie.go:57-64 | a new trie holds no key |
| TrieObject.MerkleTrie.Put | trie/trie.go:66-76 | only the root field changes; the contents become the old ones with the key set |
| TrieObject.MerkleTrie.Delete | trie/trie.go:78-93 | the contents lose the key, and the result tells whether it was there |
| TrieObject.MerkleTrie.DeletePrefix | trie/trie.go:95-112 | the contents lose exactly the keys with the prefix; true whenever there was one |
| TrieObject.MerkleTrie.Get | trie/trie.go:114-124 | returns what the contents hold; contents and root hash stay |
| TrieObject.MerkleTrie.Hash | trie/trie.go:126-135 | returns the root hash and leaves every node clean |
| TrieObject.MerkleTrie.Commit | trie/trie.go:137-148 | afterwards all nodes are in the database and the trie can be reopened from the returned hash |
| TrieObject.MerkleTrie.Prove | trie/proof.go:23-76 | returns the proof map of the key and keeps the root hash |
| TrieProof.CollectPath | trie/proof.go:24-63 | the loop collects exactly the nodes of the proof: the path, without a leaf that does not match |
| TrieProof.GetProof | trie/proof.go:23-76 | never fails on a sound trie, and maps the hash of each node of the path to its encoding |
| TrieProof.EncodeIsHashed | trie/trie.go:216-251 | what encodeNode writes hashes to what nodeHash returns, with cached child hashes or without |
| TrieProof.SearchNode | trie/proof.go:117-147 | the search in one decoded node ends at nothing, at the matching leaf, or at the next hash with the rest of the key |
| TrieProof.VerifyProof | trie/proof.go:81-115 | the loop over the proof, each node hashed again before use, ends and computes the verdict the other lemmas are about |
| TrieProofLaws.VerifySound | trie/proof.go:81-147 | whatever the proof map holds, a returned value is the stored one, and absence is reported only of absent keys and of keys whose terminator a branch consumes |
| TrieProofLaws.VerifyGenerated | trie/proof.go:23-147 | what verification returns on any map that contains the generated proof |
| TrieProofLaws.ProofRoundTrip | trie/proof.go:23-147 | the verdict on the generated proof of every key of every valid trie, present or absent |
| TrieProofLaws.StoredKeyProvable | trie/proof.go:23-147 | in a trie built without deletions the proof of a stored key verifies to its value if and only if no other stored key extends it; otherwise it verifies as absent |
| TrieProofLaws.AbsentKeyProvable | trie/proof.go:23-147 | the proof of an absent key verifies as absent if and only if the trie is not empty and the search does not end at another key's leaf; otherwise it is refused |
| TrieNearest.AbsentKeyRefused | trie/proof.go:20-147 | in a trie built without deletions the proof of an absent key is refused if and only if no key is stored or exactly one stored key has the longest hex prefix in common with it |
| TrieNearest.OtherLeafMeans | trie/proof.go:24-63 | the search of an absent key ends at another key's leaf if and only if exactly one stored key has the longest hex prefix in common with it |
| TrieNearest.AbsentKeyIsRefused | trie/proof.go:20-147 | at an input: key 0 stored, the proof for key 1 is refused |
| TrieNearest.StoredKeyReportedAbsent | trie/proof.go:81-147 | at an input: the empty key stored beside key 0, the proof of the empty key verifies as absent |
| TrieUniform.RunUniform | trie/trie.go:255-463 | runs that put keys of one length keep the trie so, through all deletions |
| TrieUniform.DeleteUniform | trie/trie.go:363-463 | deletions of any kind keep a trie of one-length keys so |
| TrieUniform.UniformSound | trie/proof.go:81-147 | for one-length keys and any proof map, an error-free verification returns the stored value, or nothing exactly for an absent key |
| TrieUniform.OneLengthProofs | trie/proof.go:23-147 | over every run with one-length keys the generated proof of a stored key verifies to its value, and no proof map at all verifies to anything but what is stored |
| LightTrie.ArrayToMap | light/odr_trie.go:20-27 | the loop gives the map in which later entries win |
| LightTrie.MapToArray | light/odr_trie.go:29-36 | the entries, in whatever order, read back to the same map |
| LightTrie.VerifiedPathIn | light/odr_trie.go:66-75 | a verified proof leaves every node of the path in a cache it is copied to |
| LightTrie.GetOverPath | light/trie.go:78-86 | with the path in the cache, Get on the trie does not fail |
| LightTrie.OdrTrie.constructor | light/trie.go:41-49 | a new light trie on the root hash of a full trie agrees with it |
| LightTrie.OdrTrie.Fill | light/trie.go:72-76 | the cache becomes the old one overlaid with the nodes of the response |
| LightTrie.OdrTrie.Get | light/trie.go:59-87 | succeeds exactly when the response verifies, and then answers what the full trie holds, over every sequence of calls and whatever earlier responses put in the cache |
| FastVerifier.InnerProductVerifyFast | bulletinproof/inner_prod_arg.go:193-268 | on a proof of any number of levels over any number of generators the loops accept if and only if the challenges are right and the folded commitment opens over the generators weighted with bit products; for 2^k generators and k levels this is the verdict of the folding verifier |
| FastVerifier.FastIsFolding | bulletinproof/inner_prod_arg.go:132-268 | for every k, both verifiers give the same verdict on every proof of k levels over 2^k generators |
| FastVerifier.WeightsAgree | bulletinproof/inner_prod_arg.go:238-255 | the bit products of all indices are the weights that k folds give the generators |
| ShortProofs.AgreeExactly | bulletinproof/inner_prod_arg.go:188-191 | in every group with a point told from zero, the two verifiers agree on all proofs of j levels over 2^k generators if and only if j = k |
| ShortProofs.ShortDiffers | bulletinproof/inner_prod_arg.go:152-175 | for every j < k there are generators and a proof that the folding verifier accepts and the fast one refuses |
| ShortProofs.LongDiffers | bulletinproof/inner_prod_arg.go:152-175 | for every j > k there is a proof that the fast verifier accepts and on which the folding one runs out of generators |
| FastVerifier.FinalCheck | bulletinproof/inner_prod_arg.go:224-267 | the last comparison is that of the folded commitment with the two scalars over the weighted generators |
| FastVerifier.Weight | bulletinproof/inner_prod_arg.go:242-253 | the loop from the highest bit down gives, modulo the order, the product that has the challenge of each set bit of the index and the inverse of each other one |
| FastVerifier.Weights | bulletinproof/inner_prod_arg.go:238-255 | the scalar vectors are these products and their inverses, for any number of generators |
| FastVerifier.FoldedG | bulletinproof/inner_prod_arg.go:24-47 | k folds of the first generators equal one sum weighted with bit products |
| FastVerifier.FoldedH | bulletinproof/inner_prod_arg.go:24-47 | the same for the second generators, with the inverse weights |
| FastVerifier.CrossSum | bulletinproof/inner_prod_arg.go:226-236 | the commitment plus the accumulated cross terms is the folded commitment |
| InnerProductArgument.InnerProductComplete | bulletinproof/inner_prod_arg.go:53-186 | for all vectors of length 2^k with P = <a,G> + <b,H> and c = <a,b>, the prover's proof is accepted |
| InnerProductArgument.ProveSubOpens | bulletinproof/inner_prod_arg.go:53-98 | the folded commitment of an honest proof opens to its last two scalars over the folded generators |
| InnerProductArgument.InnerProductProveSub | bulletinproof/inner_prod_arg.go:53-98 | the recursion that writes into the slots of its level fills the proof with the points and challenges of all levels, leaving the higher slots alone |
| InnerProductArgument.InnerProductProve | bulletinproof/inner_prod_arg.go:100-123 | the whole proof, with log2 of the length levels and the challenge of P as the last one |
| InnerProductArgument.InnerProductVerify | bulletinproof/inner_prod_arg.go:132-186 | on a proof of any number j of levels over 2^k generators it panics if and only if all challenges are right and j > k; otherwise it accepts if and only if all challenges are right and the commitment folded j times opens to a, b over the first generators left after j folds |
| InnerProductArgument.FoldDown | bulletinproof/inner_prod_arg.go:152-170 | the loop rejects exactly if some challenge is wrong, otherwise reaches the folded generators and commitment, or no generators if there are more levels than halvings |
| Folding.FoldCommit | bulletinproof/inner_prod_arg.go:53-98 | one recursion step keeps P' = <G',a'> + <H',b'> + <a',b'>u, for an invertible challenge |
| Folding.GenerateNewParams | bulletinproof/inner_prod_arg.go:24-47 | the loops that fill the new generators and commitment compute one fold; the last of an odd number of generators is not used |
| Folding.TwoVectorCommit | bulletinproof/inner_prod_arg.go:70-71 | the commitment to two vectors, the sum of a_i G_i + b_i H_i |
| Vectors.InnerProduct | bulletinproof/vector.go:10-25 | the loop that reduces each product and the sum gives the inner product modulo the order |
| Vectors.VectorSum | bulletinproof/vector.go:146-154 | the loop gives the sum modulo the order |
| BitVectors.BitVector | bulletinproof/range_proof.go:107-109 | padding the binary string, reading its digits and reversing them gives the bits, lowest first |
| BitVectors.BitsOk | bulletinproof/vector.go:79-122 | these bits stand for the value, and there are exactly l of them if and only if the value is below 2^l |
| RangePolynomial.ThatIsInnerProduct | bulletinproof/range_proof.go:153-202 | t0 + t1 x + t2 x^2 equals the inner product of l(x) and r(x), as both provers compute them with all their reductions |
| RangePolynomial.ConstantTerm | bulletinproof/range_proof.go:153-167 | for a vector of bits the constant term of t is <aL,w> + (z - z^2)<1,y> - z<1,w> |
| RangeCommitments.CommitmentCheck | bulletinproof/range_proof.go:275-292 | that G + taux H equals the commitment part plus delta G + x T1 + x^2 T2 for honest values |
| RangeCommitments.RebuiltP | bulletinproof/range_proof.go:294-318 | the point the verifier rebuilds from A and S is the prover's commitment to l and r over G and H' |
| RangeCommitments.ChangeBase | bulletinproof/range_proof.go:223-245 | a sum over H equals the sum over H' with the scalars times the powers of y |
| RangeCommitments.SumOfPairs | bulletinproof/multi_range_proof.go:332-334 | a weighted sum of commitments commits to the weighted sums |
| RangeProofCore.CoreComplete | bulletinproof/range_proof.go:88-327 | a proof built from the bits of the committed values and matching weights passes all checks, whatever the random scalars |
| RangeProofCore.ConstantsMatch | bulletinproof/multi_range_proof.go:208-220 | if the weighted bits add up to the committed values, t0 computed from values and delta is the constant term of t |
| RangeProofs.Delta | bulletinproof/range_proof.go:32-48 | delta(y,z) = (z - z^2)<1,y> - z^3 (2^V - 1) modulo the order |
| RangeProofs.CheckedBits | bulletinproof/range_proof.go:94-115 | bits come out exactly for 0 <= v < 2^V: others are refused, and 2^V itself gives a vector that does not fit |
| RangeProofs.RPProve | bulletinproof/range_proof.go:88-252 | makes a proof if and only if 0 <= v < 2^V, and then the one RPComplete is about |
| RangeProofs.RPVerify | bulletinproof/range_proof.go:254-327 | accepts if and only if the challenges are right, the commitment equation holds and the inner product argument, of any number of levels, holds for the rebuilt point |
| RangeProofs.RPComplete | bulletinproof/range_proof.go:88-327 | for every value in [0, 2^V) and all randomness the verifier accepts the prover's proof |
| MultiRangeLoops.DeltaMRP | bulletinproof/multi_range_proof.go:64-86 | the loop computes (z - z^2)<1,y> - (z^3 + ... + z^(2+m)) (2^n - 1) modulo the order |
| MultiRangeLoops.WeightedValues | bulletinproof/multi_range_proof.go:209-218 | the loop gives the values weighted with z^2 z^j |
| MultiRangeLoops.WeightedBlindings | bulletinproof/multi_range_proof.go:259-264 | the loop gives the blindings weighted with z^(2+j) |
| MultiRangeLoops.CommPowers | bulletinproof/multi_range_proof.go:327-334 | the loop gives the commitments weighted with z^2 z^j |
| MultiRangeLoops.FillWeights | bulletinproof/multi_range_proof.go:167-173 | the nested loops fill block j with 2^i z^(2+j) |
| MultiRangeLoops.SumBlocks | bulletinproof/multi_range_proof.go:363-370 | the nested loops give the sum of h'_t times (z y^t + z^(2+j) 2^i) over all positions |
| MultiRangeProofs.AllDot | bulletinproof/multi_range_proof.go:108-140 | the concatenated bits against the concatenated weights give the weighted values |
| MultiRangeProofs.AllTotal | bulletinproof/multi_range_proof.go:72-81 | z times the sum of all weights is the tail of delta |
| MultiRangeArgument.ConcatBits | bulletinproof/multi_range_proof.go:117-140 | the loop succeeds if and only if every value is in [0, 2^n] and the last below 2^n; then the slots hold the n lowest bits of each value |
| MultiRangeArgument.MRPProve | bulletinproof/multi_range_proof.go:100-287 | makes a proof if and only if there are values, their number divides V, and they pass that test; then the one MRPComplete is about |
| MultiRangeArgument.MRPVerify | bulletinproof/multi_range_proof.go:293-383 | panics exactly on a proof without commitments; otherwise accepts if and only if the challenges are right, the equation of the weighted commitments holds and the argument, of any number of levels, holds for the rebuilt point, for any number of commitments |
| MultiRangeArgument.MRPComplete | bulletinproof/multi_range_proof.go:100-383 | for every m dividing V and all values in [0, 2^(V/m)) the verifier accepts the aggregated proof |
| EdgeValues.SameCore | bulletinproof/multi_range_proof.go:108-287 | for all values, the proof is, up to the commitments, the proof for their n lowest bits |
| EdgeValues.MRPVerdict | bulletinproof/multi_range_proof.go:100-383 | for all values, in range or not, the verifier accepts the proof of MRPProve if and only if what the n lowest bits do not show, weighted as the commitments are and times G, does not move the point that G, that and taux give |
| EdgeValues.MRPVerdictExact | bulletinproof/multi_range_proof.go:100-383 | where points can be told apart, if and only if that weighted sum is a multiple of the order |
| EdgeValues.OneEdgeRefused | bulletinproof/multi_range_proof.go:117-383 | the proof for a list with exactly one 2^n, where MRPProve makes one, is refused, whatever the random scalars |
| EdgeValues.EdgeInput | bulletinproof/multi_range_proof.go:117-383 | at an input: the values 2 and 0 with one bit each, proved and refused |
| SmallCurve.LawsHaveAnInstance | bulletinproof/ec.go:12-37 | the laws assumed of the group, its scalars and inverses have an instance, in which no challenge is a multiple of the order |
| ChainWrites.RunCanonical | core/blockchain.go:405-426 | over every run of writes onto any block tree the height-to-hash map is exactly the ancestor chain of the head: no gap, nothing above |
| ChainWrites.GenesisValid | core/genesis.go:349-369 | a store with the genesis header alone is a valid chain, so the runs have a first state |
| ChainWrites.WriteKeepsBest | core/blockchain.go:380-426 | a head of greatest total difficulty stays one if and only if the block written has no smaller total difficulty than it |
| ChainWrites.RunKeepsBest | core/blockchain.go:380-426 | over every run, the head has the greatest total difficulty after each write if and only if no write has a smaller total difficulty than the head before it |
| ChainWrites.LighterHead | core/blockchain.go:380-426 | at an input: of two blocks on the first one the lighter, written last, is the head |
| ChainWrites.WriteKeeps | core/blockchain.go:301-450 | a block whose parent is stored one height below becomes the head and the map its chain; any other block changes nothing |
| ChainWrites.RewriteCanonical | core/blockchain.go:712-840 | deleting above the new block and overwriting its stale ancestors turns the map into the chain of the new head, from whatever chain was canonical |
| ChainWrites.LightRunBest | light/lightchain.go:116-154 | over every run of WriteHeader the map is the chain of the head, and the head has the greatest total difficulty of all headers written |
| ChainWrites.WriteHeaderKeeps | light/lightchain.go:116-154 | one header: the head changes if and only if the total difficulty grows strictly |
| CanonicalChain.ChainDomain | core/blockchain.go:712-840 | the ancestor chain of a block has one block at every height up to its own, of that height |
| CanonicalChain.DeleteLargerAll | core/blockchain.go:712-738 | deletion from a height empties the map from there on, also when that height is deleted already |
| CanonicalChain.OverwriteAll | core/blockchain.go:771-840 | overwriting lays the whole chain of the block over the map although it stops at the first block that is right already |
| ChainRecovery.DeleteResumes | core/blockchain_recover.go:57-119 | going on from the recorded height, with that height deleted or not, ends in the same map |
| ChainRecovery.OverwriteResumes | core/blockchain_recover.go:57-119 | going on from the recorded block, with that block overwritten or not, ends in the whole chain |
| ChainRecovery.RecoverBeforePut | core/blockchain_recover.go:57-119 | a crash before the block is put leaves map, head and all other headers as they were |
| ChainRecovery.RecoverAfterPut | core/blockchain_recover.go:57-119 | a crash between put and onPutBlockEnd: head restored, block gone, and the map restored if and only if its height was occupied |
| ChainRecovery.RollbackExact | core/blockchain_recover.go:57-119 | with the height occupied or the block not put, the restart gives back exactly the old store if and only if the block was new |
| ChainRecovery.RollbackDangles | core/blockchain_recover.go:57-119 | with the height free and the block put, every restart leaves the height pointing at a deleted block, and every later put of a fitting block at that height fails, the same block included |
| ChainLog.LargerWritesMid | core/blockchain.go:711-738 | every state a recorded deletion leaves on disk has the heights up to the recorded one deleted, that one perhaps too, and no other |
| ChainLog.StaleWritesMid | core/blockchain.go:771-799 | every state a recorded overwriting leaves on disk has the chain in place down to the recorded block, that one perhaps too, or is done |
| ChainLog.BlockWritesComplete | core/blockchain.go:380-426 | the first two writes of a block are the record of what to undo and the batch with the block; from every state left on disk by a later one a restart completes the whole |
| SecondCrash.BlockInterrupted | core/blockchain.go:380-426 | every state left on disk by a write of a block from the third one on is one that CrashTwice is about, or final |
| SecondCrash.CrashTwice | core/blockchain_recover.go:57-119 | after every write of a restart that goes on with an interrupted rewriting, the next restart reaches the same store if and only if it finds the deletion and the overwriting where it looks for them |
| SecondCrash.WriteTwice | core/blockchain_recover.go:57-119 | for every write of a fitting block that crashes after any of its writes to the disk past the second, and crashes again after any write of the restart, the next restart completes the block under that condition and no other |
| SecondCrash.OverwritingInterrupted | core/blockchain_recover.go:57-119 | a write that crashes while stale blocks are overwritten leaves a state CrashTwice is about |
| SecondCrash.ResumesExactly | core/blockchain.go:711-799 | for a map on which any part of both loops is done, going on from the record completes the rewriting under that condition and no other |
| SecondCrash.UndoTwice | core/blockchain_recover.go:57-92 | a crash after any write of a rollback and another restart end in the store the first restart would have given |
| SecondCrash.StaleHeightStays | core/blockchain_recover.go:95-115 | at an input: a sixth block is written on the first of a chain of five and crashes after onPutBlockEnd, the restart deletes two of three heights and crashes, the third height stays in the map after the next restart |
| ChainObject.ChainDatabase.DeleteLargerHeightBlocks | core/blockchain.go:711-738 | the loop computes the deletion, keeps the record in step, and leaves on disk exactly the states that ChainLog lists, in their order |
| ChainObject.ChainDatabase.DeleteCanonicalBlock | core/blockchain.go:741-768 | removes the height, or reports that there is nothing or that its block is missing |
| ChainObject.ChainDatabase.OverwriteStaleBlocks | core/blockchain.go:771-799 | the loop computes the overwriting, keeps the record in step, and leaves on disk exactly the states that ChainLog lists, in their order |
| ChainObject.ChainDatabase.OverwriteSingleStaleBlock | core/blockchain.go:801-840 | one height gets the block, unless it has it already or the block is missing |
| ChainObject.ChainDatabase.OnPutBlockStart | core/blockchain_recover.go:141-172 | the record says how to undo the write, and is on disk |
| ChainObject.ChainDatabase.OnPutBlockEnd | core/blockchain_recover.go:174-181 | the record no longer asks for a rollback, and is on disk |
| ChainObject.ChainDatabase.WriteBlock | core/blockchain.go:380-426 | fails without a write exactly for a block that does not fit; otherwise writes the block as ChainWrites says and leaves on disk exactly the states that ChainLog.BlockWritesComplete and SecondCrash.BlockInterrupted are about |
| ChainObject.ChainDatabase.Restart | core/blockchain_recover.go:57-119 | the store becomes what recovery from the record on disk gives, the record is cleared, and the states left on disk are exactly those CrashTwice and UndoTwice are about |
| ChainObject.ChainDatabase.UndoPut | core/blockchain_recover.go:57-95 | the part of recovery that takes back a block being put, with every state it leaves on disk |
| ChainObject.CrashAndRestart | core/blockchain_recover.go:57-119 | writing any fitting block, crashing after any one of its writes to the disk and restarting: from the third write on the store is that of the uninterrupted write; after the first or the second the write is rolled back |
| ChainObject.CrashTwiceAndRestart | core/blockchain_recover.go:57-119 | with a second crash after any write of the restart: a rollback ends as with one crash, and a write is completed if and only if the restart was through or the next one finds what is left to do |
| ChainObject.LightChain.WriteHeader | light/lightchain.go:116-154 | the object with its cached difficulty and head does what the modelled step does, and fails exactly for a header that does not fit: its parent is not stored one height below with a difficulty, or its hash is empty or belongs to another stored header |
| IndexedHeap.Push | common/heap.go:59-63 | order and recorded positions are kept, and exactly the new item is added |
| IndexedHeap.Remove | common/heap.go:52-71 | any position: the item there is returned and taken out, order and recorded positions are kept |
| IndexedHeap.Fix | common/heap.go:47-56 | after the rank of one item changed, up or down, order is restored with the same items |
| IndexedHeap.Pop | common/heap.go:66-71 | the top is returned and taken out, order and recorded positions are kept |
| IndexedHeap.SwapKeeps | common/heap.go:52-56 | a swap moves the recorded positions with the items |
| IndexedHeap.TopAboveAll | common/heap.go:74-80 | no item ranks above the one Peek returns |
| TxCollections.AddTx | core/pool_object_collection.go:32-43 | the nonce gets the transaction; true if and only if the nonce was free |
| TxCollections.RemoveTx | core/pool_object_collection.go:49-57 | the nonce leaves map and heap; true if and only if it was there |
| TxCollections.PopTx | core/pool_object_collection.go:71-75 | the transaction with the lowest nonce leaves map and heap |
| TxCollections.PeekLowest | core/pool_object_collection.go:63-69 | the transaction on top has the lowest nonce |
| TxCollections.CmpByRank | core/pool_object_collection.go:100-131 | cmp of two non-empty collections compares price, then earlier timestamp, of their lowest nonces |
| PendingQueues.TopIsExtreme | core/pool_queue.go:112-118 | the account on top of the best (worst) heap holds the best (worst) lowest-nonce transaction of all accounts |
| PendingQueues.PendingQueue.constructor | core/pool_queue.go:32-46 | an empty queue with two empty heaps |
| PendingQueues.PendingQueue.Add | core/pool_queue.go:48-67 | the transaction is pending, replacing one with its nonce; each account stays once in each heap at its recorded position and both heaps ordered although they share the changed collection |
| PendingQueues.PendingQueue.Remove | core/pool_queue.go:78-96 | exactly that transaction leaves; an account without transactions leaves both heaps |
| PendingQueues.PendingQueue.Pop | core/pool_queue.go:130-144 | the best transaction leaves |
| PendingQueues.PendingQueue.Discard | core/pool_queue.go:149-166 | the whole account of the worst transaction leaves if and only if that one is cheaper than the price |
| Leaves.CmpByRank | core/block_index.go:42-56 | cmp compares total difficulty, then height |
| Leaves.BlockLeaves.Add | core/block_index.go:92-112 | the leaf is stored under its hash, replacing one; both heaps stay ordered with right positions |
| Leaves.BlockLeaves.Remove | core/block_index.go:115-125 | exactly that leaf leaves |
| Leaves.BlockLeaves.GetBest | core/block_index.go:142-148 | the best leaf by total difficulty and height, or nothing if there is none |
| Leaves.BlockLeaves.GetWorst | core/block_index.go:151-157 | the worst leaf, or nothing if there is none |
| Leaves.BlockLeaves.IsBest | core/block_index.go:160-163 | true if and only if the index beats every leaf |
| ObjectPool.Pool.AddObject | core/object_pool.go:257-312 | every outcome with its cause and the exact new state: duplicate, refused replacement, replacement, full pool, eviction, plain addition; a validated object that pays more than the pending one with its account and nonce always takes its place, no other account changes and no other hash leaves |
| ObjectPool.Pool.MakeRoom | core/object_pool.go:292-306 | in a full pool the account of the worst transaction is evicted, with all its hashes and no other, if and only if that transaction is cheaper |
| ObjectPool.Pool.RemoveObject | core/object_pool.go:340-346 | the hash leaves the pool and its account and nonce leave the queue |
| ObjectPool.Pool.GetProcessableObjects | core/object_pool.go:377-398 | the result is a greedy schedule: each step takes the best lowest-nonce transaction of all accounts; it fits the budget and stops only when empty or when the next one does not fit |
| ObjectPool.ScheduleAscends | core/object_pool.go:377-398 | in every greedy schedule the nonces of an account ascend |
| ObjectPool.ScheduledPending | core/object_pool.go:377-398 | every scheduled transaction was pending |
| ObjectPool.EvictKeeps | core/object_pool.go:292-306 | an eviction leaves every pending transaction of the other accounts in the hash map |
| PoolLaws.RunKeeps | core/object_pool.go:257-398 | over every run of the three operations the hash map stays within capacity and holds every pending transaction under its own hash |
| PoolLaws.CallKeeps | core/object_pool.go:257-398 | every single call keeps that |
| ForkSplit.CommonAncestor | light/txpool.go:201-226 | on every rooted block tree it ends with exactly the blocks only the old head reaches and exactly those only the new head reaches, each once |
| ForkSplit.GetReinjectObject | core/object_pool.go:156-232 | on every rooted block tree it ends with exactly the objects held by a block only the old head reaches and by none only the new head reaches; nothing for unknown heads or a child of the old head |
| ForkSplit.WalkEnd | light/txpool.go:201-226 | where two walks up by height meet, a block was passed if and only if it is on one branch only |
| ForkSplit.NothingToReinject | core/object_pool.go:156-232 | when the new head is a child of the old one, the general rule gives nothing, as the shortcut says |
| Merkle.ProofFolds | merkle/derive_sha.go:51-132 | for every non-empty list of leaves and index, folding the leaf with its proof by index parity gives the root |
| Merkle.ProofBinds | merkle/derive_sha.go:51-132 | conversely, a hash and a proof of the right length that fold to the root are the leaf at that index and its proof |
| Merkle.GetBinaryMerkleRoot | merkle/derive_sha.go:51-73 | the level-building recursion computes the root |
| Merkle.GetMerkleProof | merkle/derive_sha.go:75-132 | building all levels and walking up from the index collects the proof that ProofFolds is about |
| Merkle.BuildIntermediate | merkle/merkle_tree.go:111-132 | the recursion over nodes gives a root with the hash of the binary root, and recalculating every hash gives it again |
| Merkle.BuildWithContent | merkle/merkle_tree.go:85-106 | leaves for the contents, the last doubled if their number is odd, and the root over them |
| Merkle.EvenedRoot | merkle/merkle_tree.go:85-106 | doubling the last of an odd number of leaves keeps the root, except for a single leaf, whose root becomes the hash of the pair |
| Merkle.EvenedExactly | merkle/merkle_tree.go:85-106 | the node tree has the binary root of its contents if and only if there is not a single content |
| Merkle.RecalculatedBinds | merkle/merkle_tree.go:51-58 | two node trees recalculate to one root if and only if they have the same shape and leaf contents |
| Merkle.MerkleTree.constructor | merkle/merkle_tree.go:70-81 | for two or more contents the root is the binary Merkle root of their hashes |
| Merkle.NewTree | merkle/merkle_tree.go:70-81 | fails exactly for no contents |
| Merkle.MerkleTree.RebuildTree | merkle/merkle_tree.go:141-154 | rebuilding from the stored leaves keeps the root for every number of leaves |
| Merkle.MerkleTree.VerifyTree | merkle/merkle_tree.go:172-176 | accepts every tree as it was built; and with the root of a tree accepts a node tree if and only if it has the shape and the leaf contents of that tree, so every change of a content is found |
| Announce.SendAnnounce | light/peer.go:327-380 | fails exactly if begin or end is above the head; otherwise announces the heights end - (2^i - 1), down to the first one that is not above begin, and begin for that one, with their hashes, although the 64-bit counter may wrap |
| Announce.Counter | light/peer.go:349-358 | doubling the 64-bit counter gives the next power of two, also where it wraps to 0, and the counter minus 1 is the right offset for all 65 powers |
| Announce.FirstMatch | light/peer.go:407-423 | the search stops at the first announced height whose hash the client has |
| Announce.LightPeer.HandleAnnounce | light/peer.go:382-466 | every outcome with its cause and the exact new state, all fields: ignored magic, single announcement, narrowing with and without cached hashes |
| Announce.RoundBrackets | light/peer.go:382-466 | one announcement brackets the fork height between two announced heights, whose distance is at most (g+1)/2 for an interval of width g |
| Announce.Narrow | light/peer.go:327-466 | the messages between a server and a client whose chains agree exactly up to a fork height are an exchange as the next row has it; it ends, with a sync start that is the fork height or up to 256 below it, or settled at once if the server has its genesis block alone |
| Announce.ExchangeNarrows | light/peer.go:327-466 | in every such exchange, each query being what the client asks after the answer to the one before, the last start is the fork height or up to 256 below it; every query is around the fork height, wider than 256, inside the one before and at most half as wide, rounded up, and for n queries the head is above 256 * 2^n |

## Left out

- Trie nodes, heaps and collections are values held in the fields of the modelled objects; sharing of nodes between
  tries, and the update of a node in place while another holds it, are not captured. The pool's back-pointers are the
  position maps of the heaps.
- Database errors of a trie: every committed node can be read back. Without that, Put, Delete and Get return an error
  that is not described further.
- Keccak, SHA-256 and RLP: hashes and encodings are symbolic and injective; a byte string that decodes to no node is one
  kind of bad entry.
- Values of length 0: VerifyProof returns the same empty slice for them as for an absent key; the model tells the two
  apart.
- Cryptographic soundness of the range proofs, and curve arithmetic: completeness and agreement of verdicts only.
  ECPoint.Equal compares X coordinates only, and so does the model.
- InnerProductVerify, InnerProductVerifyFast, RPVerify and MRPVerify: proofs without any challenge, or with fewer points
  in either list than levels, on which the source runs into an index error.
- InnerProductVerifyFast, RPVerify and MRPVerify: challenges that are multiples of the order, which have no inverse.
- InnerProductVerify: numbers of generators that are no power of two. The generators are fixed at start-up, their number
  being 64.
- TwoVectorPCommitWithGens is not among the source files; its uses fix it as the sum of both products.
- MRPProve: the bits minus one of each value are computed from the concatenated bits; the source writes both slices in
  the same loop.
- WriteBlock: block execution, receipts, transaction and debt indices, block leaves and events; only headers, map, head,
  difficulties and the recovery record are modelled.
- Torn writes of the record file, and a third crash.
- Narrow: the chains stay fixed while the rounds run, as between two announcements of one magic number.
- Rooted block trees: on headers with several roots CommonAncestor and GetReinjectObject may return an error, which is
  modelled, but nothing is claimed about the lists.
- loopCheckingPool, PurgeAsync and purgeBlock, cached transactions, clearing of confirmed light transactions: timing and
  randomness.
- popN, list, count, getObjects, RebuildTreeWith, VerifyContent and parent pointers of Merkle nodes: they only read or
  rebuild what the modelled operations keep.
- p2p, rpc, node, consensus, accounts/abi, miner, keystore and command line: outside the five parts.
