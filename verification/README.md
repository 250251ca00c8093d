# A verified model of the tinympt trie

tinympt is a persistent Merkle Patricia trie. Keys are cut into nibbles; nodes are leaves, extensions
and branches; a link to a node is in memory, a hash to look up in a database, or empty. `commit`
replaces the memory links by hashes and returns the root hash, `revert` goes back to an older root, and
`get_proof` collects the nodes on the path of a key so that `verify_proof` can look the key up in them
alone. This project models that code in Dafny and proves what it promises.

Run `dafny verify dfyconfig.toml`.

## How the model is laid out

| file | content |
|---|---|
| `Base.dfy` | bytes, hashes, database content, outcomes |
| `Keys.dfy` | bytes to nibbles, longest common prefix: functions and the loops proved against them |
| `Nodes.dfy`, `Codec.dfy` | nodes and links; their stored form, byte for byte, and the reader that undoes it |
| `Schemes.dfy` | what the trie needs of its storage, a hash function and a lawful stored form, and that the stored form of the program is lawful |
| `NodeOps.dfy` | lookup, insertion, proof collection and collapse over mixed links and any database |
| `Trees.dfy` | the trie without hashes: reference lookup and insertion, shape, map law |
| `Canonicity.dfy` | a canonical trie is determined by its lookups |
| `Defect.dfy`, `Counterexample.dfy` | the case in which the program loses a prefix |
| `Represent.dfy`, `Collapse.dfy`, `Proofs.dfy` | which tree a link stands for; lookup, insertion, collapse and proofs against it |
| `PlainRecursion.dfy`, `Termination.dfy` | the recursions of the program without guard, and on which unchecked databases they end |
| `Lookups.dfy`, `Insertions.dfy` | the path of a key on the raw database, hop by hop: on any database whatever every answer, failure and change is that of its end |
| `TrieState.dfy`, `Runs.dfy`, `Maps.dfy`, `Theorems.dfy` | the state machine, runs of it, plain maps, and the theorems over all runs |
| `AnyState.dfy`, `AnyRuns.dfy` | the operations in any state, and runs that revert to any hash, stored or not |
| `Witness.dfy` | a run that meets all hypotheses and writes several blobs |
| `Database.dfy`, `MemoryTrie.dfy` | the two classes, with the recursive methods that write a database |

The functions that only compute follow the code as follows; what they mean is stated by the lemmas and
methods of the table below. `NodeOps.LinkGet`/`NodeGet`: `get_value` of links, extensions, branches,
leaves. `NodeOps.LinkProve`/`NodeProve`: `get_proof` of the same. `NodeOps.LinkInsert`/`NodeInsert`/
`BranchInsert`: `insert` of the same. `NodeOps.Shut`/`Writes`: the link `collapse` returns and the blobs
it writes. `Proofs.ProofOf`/`VerifyProof`, `TrieState.*Step`: the operations of the `Trie` trait.

## What to know when reading the theorems

* **The stored form** enters the theorems as a `Scheme`: a writer, a reader that undoes it, and a hash
  function. `Schemes.Bincode` is the one of the program; `MemoryTrie` is built with it. So everything
  holds of it, and of any other lawful form.
* **The hash function** is a parameter. Nothing is assumed about it except, where a theorem says so,
  that the blobs named there do not collide: `NoCollision` speaks of the blobs one run wrote.
  `Witness.ThreeBlobRun` is a run, in the stored form of the program, that meets it with a branch and
  two leaves.
* **Outcomes.** A call gives a value or a fault: a missing node, a malformed blob, an index out of range
  (a Rust panic), or an endless recursion. The last one is exact for lookup, proof collection and
  insertion: `PlainRecursion` compares each with the recursion of the program, which has no guard.
* **The one-nibble case.** When an extension parts from a key at the last nibble of its partial key,
  `Extension::insert` (src/trie/node/extension.rs:42-51) returns the new branch without the prefix the two
  share; the sibling case (src/trie/node/extension.rs:53-80) wraps it. The repository's own tests and
  README promise a working map, so both versions are modelled: `arm == AsWritten` is the code,
  `arm == Wrapping` the code with the prefix kept in both cases. Every theorem about runs holds for both
  unless it asks for `KeepsPrefixes`, which is always true of `Wrapping`, and of `AsWritten` says that no
  insertion of the run met the case (`DropsPrefix`, the guard of that branch with a non-empty shared
  prefix). `Defect.UpdateIffNotDropped` and `Theorems.MapIffPrefixesKept` show that this condition is exact.
* **Paths.** `Lookups` says without any recursion on nodes where a key leads: `Hop` is one step on the raw
  database, `Stop` the answer where there is no further step, and `LookupIs` and `Insertions.InsertFaultIs`
  what a lookup and an insertion give, failures included. Nothing is assumed of the database there.
* **Runs.** `Runs.Exec` gives, for any sequence of operations, the state of the program next to what it
  should mean: the hash-free trie and the plain map, now and at every committed root. `Legal` says that
  only committed roots are reverted to; `AnyRuns` does without it, and the one thing that can then go wrong
  is that the root itself is a hash that is not stored.

## Model

| member | source | states |
|---|---|---|
| Keys.ConvertBytesToNibbles | src/trie/util.rs:7-16 | the push loop yields two nibbles per byte, high half first |
| Keys.NibblesOfByte | src/trie/util.rs:9-14 | byte i is found in nibbles 2i and 2i+1 |
| Keys.NibblesAreABijection | src/trie/util.rs:7-16 | different keys have different nibbles, and the images are exactly the even nibble strings |
| Keys.ParseNibbleSlicesSharedPortion | src/trie/util.rs:19-43 | the three parts put the inputs together again and the remainders do not start alike |
| Keys.SharedLenIsLongest | src/trie/util.rs:35-42 | the split is at the longest common prefix, and only that split fits the contract |
| Codec.DecodeEncode | src/trie/node/mod.rs:89-94 | reading a stored node gives back the node, nested links included |
| Schemes.BincodeIsLawful | src/trie/node/mod.rs:89-94 | the stored form of the program, with any hash function, is one the theorems apply to |
| Codec.EncodeIsInjective | src/trie/node/mod.rs:90 | two nodes have the same stored form if and only if they are equal |
| Codec.DecodeIffStoredForm | src/trie/node/mod.rs:147 | a blob reads as a node if and only if it begins with the stored form of that node; every other blob is refused |
| Codec.LayoutOfExtension | src/trie/node/extension.rs:10-13 | the bytes of an extension that leads to a stored node |
| Codec.LayoutOfLeaf | src/trie/node/node.rs:10-13 | the bytes of a leaf |
| Codec.LayoutOfBranch | src/trie/node/branch.rs:10-13 | the bytes of a branch with empty children and a value |
| Codec.ReadNodeAfter | src/trie/node/mod.rs:147 | reading stops exactly where the node ends, whatever follows |
| Trees.InsertIsCanon | src/trie/node/extension.rs:32-81 | insertion, in both versions, keeps the shape: nibbles below 16, non-empty partial keys, extensions lead to branches, branches have two entries |
| Trees.InsertLaw | src/trie/node/mod.rs:178-202 | with the prefix kept, an insertion changes the answer for one key and no other |
| Canonicity.SameLookupsSameTree | src/trie/mod.rs:74-90 | two canonical tries with the same lookups are the same trie |
| Defect.SameUnlessDropped | src/trie/node/extension.rs:42-51 | outside the one-nibble case both versions build the same trie |
| Defect.EffectOfDrop | src/trie/node/extension.rs:42-51 | in the case, for every query: below the path the lost prefix is missing, all else is as intended |
| Defect.DropLosesAnEntry | src/trie/node/extension.rs:42-51 | in the case some entry of the intended trie cannot be found |
| Defect.UpdateIffNotDropped | src/trie/node/extension.rs:32-81 | the insertion as written is a map update if and only if the case is not met |
| Counterexample.ProgramLosesThreeKeys | src/trie/node/extension.rs:42-51 | after inserting 11 10, 11 20 and 12 00 none of the three is found, whatever the hash function and values |
| Represent.LoadStored | src/trie/node/mod.rs:142-148 | a stored trie can be loaded by its root hash and the loaded node stands for it |
| Represent.LinkGetIsGet | src/trie/node/mod.rs:139-152 | lookup through any mixture of links is lookup in the trie they stand for, and never fails |
| Represent.LinkInsertIsInsert | src/trie/node/mod.rs:178-202 | insertion through any mixture of links simulates insertion in the trie, in both versions, and never fails |
| Represent.LeafInsertIsInsert | src/trie/node/node.rs:21-58 | the leaf split: two insertions into a fresh branch, the shared prefix above it |
| Represent.SplitExtensionIsInsert | src/trie/node/extension.rs:42-80 | the two splitting cases of an extension |
| Represent.BranchInsertIsInsert | src/trie/node/branch.rs:24-46 | a branch takes an empty key as its value and hands another to the child of its first nibble, free or taken |
| Represent.RepIsUnique | src/trie/node/mod.rs:142-148 | in one database a link stands for one trie, collisions or not |
| Represent.HashStandsForOneTree | src/trie/node/mod.rs:90-96 | without collisions two tries have the same root hash if and only if they are equal |
| Collapse.ShutIsLinkOf | src/trie/node/mod.rs:62-97 | whatever is in memory, collapse returns the hash of the whole trie |
| Collapse.PutAllGrows | src/trie/node/mod.rs:94 | without collisions writing adds exactly the new blobs and loses none |
| Collapse.LastWriteStands | src/database/memory.rs:29-32 | of several writes under one hash the last stands, and where nothing is written nothing changes |
| Collapse.EarlierWritesStay | src/trie/node/mod.rs:82-84 | while the loop over the children runs, what earlier children wrote stays |
| Collapse.WrittenIsStored | src/trie/node/mod.rs:62-97 | after a collapse every node of the trie is stored under its hash |
| Collapse.CollapsePreservesMeaning | src/trie/node/mod.rs:62-97 | the collapsed link has the lookups of the original, and so has every other link of the database |
| Collapse.LinkInsertMemCount | src/trie/node/mod.rs:178-202 | an insertion brings at most one node per nibble of the key, and two, into memory |
| NodeOps.WritesCount | src/trie/node/mod.rs:62-97 | collapse writes one blob per node in memory |
| Proofs.HonestLookup | src/trie/node/mod.rs:139-152 | in a database that does not lie about the trie a lookup answers if and only if the path is there; otherwise it fails with the first hash of the path that is missing, and in no other way |
| Proofs.ProveCollectsPath | src/trie/node/mod.rs:155-174 | proof collection adds exactly the nodes on the path and says whether the key exists |
| Proofs.ProofIsComplete | src/trie/mod.rs:102-160 | the proof of any key, present or absent, verifies to the answer of the full database; it is a part of it with at most 2·len+1 blobs |
| Proofs.ProofIsLeast | src/trie/mod.rs:136-160 | among the parts of the database holding the root, those on which the key can be looked up are exactly those containing the proof; on the others verification fails with the first node of it that is missing |
| Proofs.SupersetOfProofVerifies | src/trie/mod.rs:136-160 | any database containing the proof verifies to the same answer |
| Proofs.VerifyIsLookup | src/trie/mod.rs:136-160 | verification is lookup at the root, in the proof database alone; a missing root gives no value |
| Proofs.ProofIsSound | src/trie/mod.rs:136-160 | on any database that keeps blobs under their own hashes, without collisions, a verified value, or absence with the root present, is the truth (`verify_proof` does not rehash, so the first is a hypothesis); it fails only on a node of the path that is missing |
| Proofs.SoundnessNeedsAddressing | src/trie/mod.rs:145-159 | without it a verified value is whatever leaf is stored under the root |
| PlainRecursion.GuardIsExact | src/trie/node/mod.rs:139-152 | the model reports an endless lookup exactly where the plain recursion never ends, and agrees with it elsewhere |
| PlainRecursion.ProvingGuardIsExact | src/trie/node/mod.rs:155-174 | the same for proof collection, proof database included |
| PlainRecursion.InsertionGuardIsExact | src/trie/node/mod.rs:178-202 | the same for insertion, whose leaf split recurses on a stored suffix |
| PlainRecursion.ProvingAnswersLikeLookup | src/trie/node/mod.rs:155-174 | on any database proof collection finds, misses or fails just as lookup does |
| PlainRecursion.InsertionEndlessLikeLookup | src/trie/node/mod.rs:178-202 | on any database insertion is endless exactly where lookup is |
| Lookups.LookupIsAtEndOfPath | src/trie/node/mod.rs:139-152 | on any database a lookup gives what stands at the end of the path of the key (value, absence, missing node, malformed blob, panic), and is endless if and only if the path is |
| Lookups.ProvingAddsVisited | src/trie/node/mod.rs:155-174 | on any database proof collection that ends has added the blobs of exactly the hashes the path read |
| Insertions.InsertionFailsAtEndOfPath | src/trie/node/mod.rs:178-202 | on any database an insertion fails exactly as the end of the path of its key says |
| Insertions.InsertionFailsLikeLookup | src/trie/node/mod.rs:178-202 | it misses a node or meets a malformed blob if and only if a lookup of the key does, and fails wherever that fails |
| Insertions.InsertionChangesOneKey | src/trie/node/mod.rs:178-202 | on any database an insertion that succeeds and keeps the prefix changes the outcome of one key; every other key is found, missed or fails as before |
| Insertions.VersionsAgree | src/trie/node/extension.rs:32-81 | on any database both versions fail alike, and build the same if and only if the path does not end in the one-nibble case |
| Termination.LookupsEndIffLoopFree | src/trie/node/mod.rs:139-152 | all lookups on a database end if and only if no hash leads back to itself through empty partial keys |
| Termination.ProofsEndIffLoopFree | src/trie/node/mod.rs:155-174 | so do all collections of proofs |
| Termination.InsertionsEndIffLoopFree | src/trie/node/mod.rs:178-202 | so do all insertions |
| Termination.VerificationsEndIffLoopFree | src/trie/mod.rs:136-160 | so do all verifications against a proof database from elsewhere |
| Termination.LookupTerminates | src/trie/node/mod.rs:139-152 | on a loop-free database, otherwise cyclic or not, the recursion of a lookup ends |
| Termination.ProvingTerminates | src/trie/node/mod.rs:155-174 | so does that of proof collection |
| Termination.InsertionTerminates | src/trie/node/mod.rs:178-202 | so does that of insertion |
| Termination.LoopEndsNothing | src/trie/node/mod.rs:139-202 | below a hash on a loop none of the three ends, whatever the key |
| Termination.ConsumingIsLoopFree | src/trie/node/extension.rs:110-121 | a database whose stored extensions have non-empty partial keys is loop-free |
| Termination.EmptyPartialKeyMayBeHarmless | src/trie/node/extension.rs:110-121 | that condition is not needed: an empty partial key may lead nowhere |
| Termination.EmptyPartialKeyNeverEnds | src/trie/node/extension.rs:110-121 | the smallest loop: an extension with an empty partial key that leads to itself |
| Runs.RunIsFaithful | src/trie/mod.rs:46-129 | in every reachable state the root, every committed root and every stored blob stands for a stored canonical trie; a clean trie is collapsed |
| Runs.FaithfulLookup | src/trie/mod.rs:64-71 | in such a state get_value is lookup in the hash-free trie |
| Runs.CommitIsFaithful | src/trie/mod.rs:74-90 | a commit keeps all of that, only grows the database, and leaves the hash of the trie as root |
| Runs.WrittenSubtree | src/trie/node/mod.rs:62-97 | every blob a commit writes is the root of a subtrie stored as a whole |
| AnyState.GetInAnyState | src/trie/mod.rs:64-71 | get_value gives what stands at the end of the path from the root and passes every failure on |
| AnyState.RevertInAnyState | src/trie/mod.rs:93-99 | after a revert to any hash the trie is clean and its lookups are those of that hash; if it is not stored they fail with it |
| AnyState.InsertInAnyState | src/trie/mod.rs:46-61 | when an insertion fails and with what; then the root is gone and the dirty flag as before, otherwise the root is in memory and the trie dirty; the database is not written |
| AnyState.InsertFailsLikeGet | src/trie/mod.rs:46-61 | it misses a node or meets a malformed blob if and only if get_value of the key does |
| AnyState.InsertChangesOneKey | src/trie/mod.rs:46-71 | in any state an insertion that succeeds and keeps the prefix changes what get_value gives for one key |
| AnyState.CommitInAnyState | src/trie/mod.rs:74-90 | the returned hash is the root, which is stored if it was in memory; otherwise the root stays and nothing is written; no other hash changes |
| AnyState.ProofOnAnyDatabase | src/trie/mod.rs:102-129 | the proof says what the lookup at the root says, failures included, and holds exactly the blobs it read; an unknown root has an empty proof |
| AnyState.ProofOnAnyDatabaseVerifies | src/trie/mod.rs:102-160 | completeness on any database: a proof that could be made verifies to the answer of the full database |
| AnyState.VerifyOnAnyDatabase | src/trie/mod.rs:136-160 | verification gives what stands at the end of the path in the proof database, failures included |
| AnyRuns.AnyRunIsWhole | src/trie/mod.rs:46-129 | reverted to any hashes: every stored blob is the root of a trie stored as a whole, and the root stands for a trie unless it is a hash that is not stored |
| AnyRuns.OnlyTheRootCanBeMissing | src/trie/mod.rs:46-129 | in any such state get_value and insert succeed for every key if and only if the root is not a missing hash, and otherwise fail with it; get_proof never fails |
| AnyRuns.CommitChangesNoLookup | src/trie/mod.rs:74-90 | in any such state a commit changes what get_value gives for no key |
| Maps.InsertDenotes | src/trie/mod.rs:46-61 | for byte keys an insertion with the prefix kept is a map update |
| Theorems.TrieRefinesMap | src/trie/mod.rs:46-99 | after any run get_value gives the answer of the plain map |
| Theorems.CommittedRootsRefineMaps | src/trie/mod.rs:74-99 | and at every committed root the answer of the map of that commit |
| Theorems.MapUntilFirstDrop | src/trie/node/extension.rs:42-51 | for the code as written: an insertion into a trie that is a map leaves it one if and only if it does not meet the case |
| Theorems.MapIffPrefixesKept | src/trie/mod.rs:46-71 | for the code as written: lookups agree with the plain map throughout a run if and only if no insertion of the run meets the case |
| Theorems.OneCommittedKey | src/trie/mod.rs:46-90 | one insertion and a commit: the hypotheses of the theorems hold whatever the hash function, and the root is the hash of the leaf |
| Theorems.NothingFails | src/trie/mod.rs:46-90 | in every reachable state insert, get_value and commit succeed; the taken root is put back; commit leaves no node in memory |
| Theorems.NoProofFails | src/trie/mod.rs:102-129 | get_proof succeeds for any hash whatever: for a stored one the proof verifies, for another it is empty and says the key is absent |
| Theorems.ProofChangesNoLookup | src/trie/mod.rs:102-106 | the implicit commit of get_proof changes no lookup and leaves the trie clean |
| Theorems.RootsPersist | src/trie/mod.rs:74-99 | a committed root keeps its trie and its lookups whatever happens later |
| Theorems.MapsPersist | src/trie/mod.rs:74-99 | and its map |
| Theorems.RevertRestoresCommit | src/trie/mod.rs:74-99 | reverting to the hash a commit returned restores every lookup of that moment |
| Theorems.RootHashIsFingerprint | src/trie/mod.rs:74-90 | two committed roots of any two runs are equal if and only if they have the same lookups, or the same map where no prefix was lost |
| Theorems.RootIsHistoryIndependent | src/trie/mod.rs:74-90 | two runs that end in the same map commit to the same root, whatever their orders, overwrites, commits and reverts |
| Theorems.RootTellsTheMap | src/trie/mod.rs:74-90 | two runs commit to the same root, or both to none, if and only if they hold the same map |
| Theorems.NoRootIffEmptyMap | src/trie/mod.rs:84-89 | a commit returns no root if and only if the map is empty |
| Theorems.GrowthIsBounded | src/trie/mod.rs:46-90 | stored nodes plus nodes in memory never exceed the sum of 2·len+2 over the inserted keys |
| Theorems.InsertionIsSmall | src/trie/node/mod.rs:178-202 | one insertion into a clean trie leaves at most 2·len+2 nodes in memory, and its commit adds no more blobs |
| Theorems.CommittedRootsHaveProofs | src/trie/mod.rs:102-160 | completeness, minimality and size of proofs for every committed root of every run; a part of the proof is refused with a missing node of it |
| Theorems.CommittedRootsAreSound | src/trie/mod.rs:136-160 | soundness of proofs for every committed root of every run; the one failure is a missing node |
| Witness.ThreeBlobRun | src/trie/mod.rs:46-90 | two insertions that make a branch, and a commit: the hypotheses of the theorems hold with three different blobs |
| MemoryTrie.CollapseLink | src/trie/node/mod.rs:205-212 | collapses memory links only; what it returns and writes |
| MemoryTrie.CollapseNode | src/trie/node/mod.rs:62-97 | children first, then the node itself |
| MemoryTrie.CollapseChildren | src/trie/node/mod.rs:80-84 | the loop: every child is collapsed in order, the database holds the writes so far |
| MemoryTrie.CollectLink | src/trie/node/mod.rs:155-174 | the content of the proof database and the answer, on every outcome |
| MemoryTrie.CollectNode | src/trie/node/mod.rs:48-59 | the same at a node |
| MemoryTrie.VerifyProof | src/trie/mod.rs:136-160 | what stands at the end of the path from the root in the proof database, failures included; a missing root is no answer |
| MemoryTrie.MemoryTrie.constructor | src/trie/memory_trie.rs:20-28 | a new trie is empty and clean |
| MemoryTrie.MemoryTrie.TakeRootNode | src/trie/memory_trie.rs:54-56 | takes the root and leaves an empty link |
| MemoryTrie.MemoryTrie.Insert | src/trie/mod.rs:46-61 | the new state, also when the insertion fails, and exactly when and with what it fails: as the path of the key says in the old state; one key of the map changes |
| MemoryTrie.MemoryTrie.GetValue | src/trie/mod.rs:64-71 | in any state what stands at the end of the path of the key, failures included; only the root can be missing; in a trusted state what the map says |
| MemoryTrie.MemoryTrie.Commit | src/trie/mod.rs:74-90 | returns the hash of the trie, or nothing if and only if the map is empty; the root is that hash and stored; it is saved with the current map; the third case of the match cannot be reached |
| MemoryTrie.MemoryTrie.Revert | src/trie/mod.rs:93-99 | for every hash, stored or not, the root is that hash, the trie is clean and nothing is written; the map becomes the one saved under the root |
| MemoryTrie.MemoryTrie.GetProof | src/trie/mod.rs:102-129 | the state after the implicit commit; an unknown root has an empty proof; the proof holds exactly the blobs the lookup reads and verifies to its answer; for committed roots to what the root says |

## Left out

- NodeOps.BranchInsert: `Branch` is moved by value through an insertion; the writes to `children` and `value` are updates of a value here, so the in-place update itself (src/trie/node/branch.rs:24-51) is not captured. No alias of a moved branch exists in the source.
- NodeOps.LinkInsert: the mutable database it is handed (src/trie/node/mod.rs:178-202) is only read by the source and is a value here.
- Nodes.Node: that `children` has sixteen entries is a predicate (`NodeSized`), kept by the reader and by every canonical trie, because a recursive datatype cannot carry the length in its type.
- Base.Key: keys whose nibble buffer would exceed the largest Rust allocation, where the source panics, are not representable.
- PlainRecursion.GuardIsExact: stack exhaustion on recursions that do end is not modelled.
- The generic value type: a value is the byte string bincode makes of it, so failures to serialise or deserialise a user value are not modelled.
- bincode and blake2 are not part of this model: the stored form of a node is bincode 1's default layout written out in `Codec.dfy`, and the hash function is a parameter.
- `Branch::collapse`, `Extension::collapse` and the conversions to `Vec<u8>` (src/trie/node/branch.rs:54-83, src/trie/node/extension.rs:87-107): nothing calls them.
- The RocksDB database and trie, the network messages, and the example programs: the same interface over a foreign store, and input/output.
