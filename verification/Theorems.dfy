/** What holds of every run of a trie. `Legal` says that only committed roots are reverted to,
    `NoCollision` that no two blobs the run wrote share a hash. */
module Theorems {
  import opened Base
  import opened Keys
  import opened Nodes
  import opened Schemes
  import opened NodeOps
  import opened Trees
  import opened Canonicity
  import opened Defect
  import opened Represent
  import opened Collapse
  import opened Proofs
  import opened TrieState
  import opened Runs
  import opened Maps

  // ---------- the trie is a map ----------

  /** No insertion of the run loses a prefix. It is the case of the wrapping arm; of the program as
      written, it is a condition on the run. */
  ghost predicate KeepsPrefixes(sc: Scheme, arm: Arm, ops: seq<Op>)
    decreases ops
  {
    arm.Wrapping? || ops == [] ||
    (&& KeepsPrefixes(sc, arm, ops[..|ops| - 1])
     && KeepsNext(Exec(sc, arm, ops[..|ops| - 1]), ops[|ops| - 1]))
  }

  ghost predicate KeepsNext(r: Run, op: Op)
    requires RunCanon(r)
  {
    op.Put? ==> !DropsPrefix(r.tree, ToNibbles(op.key))
  }

  ghost predicate IsMap(r: Run) {
    && Denotes(r.tree, r.current)
    && r.roots.Keys == r.saved.Keys
    && forall h :: h in r.roots ==> Denotes(r.roots[h], r.saved[h])
  }

  lemma ApplyIsMap(sc: Scheme, arm: Arm, r: Run, op: Op)
    requires RunCanon(r) && IsMap(r) && (arm.Wrapping? || KeepsNext(r, op))
    ensures IsMap(Apply(sc, arm, r, op))
  {
    if op.Put? {
      if arm.AsWritten? {
        SameUnlessDropped(r.tree, ToNibbles(op.key), op.value);
      }
      InsertDenotes(r.tree, r.current, op.key, op.value);
    }
  }

  lemma {:induction false} RunIsMap(sc: Scheme, arm: Arm, ops: seq<Op>)
    requires KeepsPrefixes(sc, arm, ops)
    ensures IsMap(Exec(sc, arm, ops))
    decreases ops
  {
    if ops == [] {
    } else {
      RunIsMap(sc, arm, ops[..|ops| - 1]);
      ApplyIsMap(sc, arm, Exec(sc, arm, ops[..|ops| - 1]), ops[|ops| - 1]);
    }
  }

  /** After any run, a lookup gives the answer of the plain map. */
  lemma TrieRefinesMap(sc: Scheme, arm: Arm, ops: seq<Op>, key: Key)
    requires Legal(sc, arm, ops) && NoCollision(sc, Exec(sc, arm, ops)) && KeepsPrefixes(sc, arm, ops)
    ensures var r := Exec(sc, arm, ops); GetValue(sc, r.state, key) == Done(Lookup(r.current, key))
  {
    var r := Exec(sc, arm, ops);
    RunIsFaithful(sc, arm, ops);
    RunIsMap(sc, arm, ops);
    FaithfulLookup(sc, r, key);
    DenotesLookup(r.tree, r.current, key);
  }

  /** After any run, a lookup at a committed root gives the answer of the map of that commit. */
  lemma CommittedRootsRefineMaps(sc: Scheme, arm: Arm, ops: seq<Op>, h: HashValue, key: Key)
    requires Legal(sc, arm, ops) && NoCollision(sc, Exec(sc, arm, ops)) && KeepsPrefixes(sc, arm, ops)
    requires h in Exec(sc, arm, ops).saved
    ensures var r := Exec(sc, arm, ops);
            LinkGet(sc, r.state.db, Hashed(h), ToNibbles(key), {}) == Done(Lookup(r.saved[h], key))
  {
    var r := Exec(sc, arm, ops);
    RunIsFaithful(sc, arm, ops);
    RunIsMap(sc, arm, ops);
    LinkGetIsGet(sc, r.state.db, Hashed(h), r.roots[h], ToNibbles(key));
    DenotesLookup(r.roots[h], r.saved[h], key);
  }

  /** The trie answers for every key as the map does. */
  ghost predicate Agrees(sc: Scheme, r: Run) {
    forall k: Key :: GetValue(sc, r.state, k) == Done(Lookup(r.current, k))
  }

  lemma TrieAgreesWithMap(sc: Scheme, arm: Arm, ops: seq<Op>)
    requires Legal(sc, arm, ops) && NoCollision(sc, Exec(sc, arm, ops)) && KeepsPrefixes(sc, arm, ops)
    ensures Agrees(sc, Exec(sc, arm, ops))
  {
    forall k: Key ensures GetValue(sc, Exec(sc, arm, ops).state, k) == Done(Lookup(Exec(sc, arm, ops).current, k)) {
      TrieRefinesMap(sc, arm, ops, k);
    }
  }

  /** For the program as written, an insertion into a trie that is a map leaves it a map exactly if it
      does not lose a prefix. */
  lemma MapUntilFirstDrop(sc: Scheme, r: Run, key: Key, value: Bytes)
    requires Faithful(sc, r) && IsMap(r)
    ensures Agrees(sc, Apply(sc, AsWritten, r, Put(key, value))) <==> !DropsPrefix(r.tree, ToNibbles(key))
  {
    var r' := Apply(sc, AsWritten, r, Put(key, value));
    PutIsFaithful(sc, AsWritten, r, key, value);
    if DropsPrefix(r.tree, ToNibbles(key)) {
      var q := DropLosesAnEntry(r.tree, ToNibbles(key), value);
      InsertDenotes(r.tree, r.current, key, value);
      assert Get(Insert(Wrapping, r.tree, ToNibbles(key), value), q) == NibbleLookup(r'.current, q);
      var k: Key := FromNibbles(q);
      ToFromNibbles(q);
      FaithfulLookup(sc, r', k);
      assert GetValue(sc, r'.state, k) != Done(Lookup(r'.current, k));
    } else {
      ApplyIsMap(sc, AsWritten, r, Put(key, value));
      forall k: Key ensures GetValue(sc, r'.state, k) == Done(Lookup(r'.current, k)) {
        FaithfulLookup(sc, r', k);
        DenotesLookup(r'.tree, r'.current, k);
      }
    }
  }

  /** At no point of the run does a lookup differ from the map. */
  ghost predicate AgreesThroughout(sc: Scheme, arm: Arm, ops: seq<Op>)
    decreases ops
  {
    Agrees(sc, Exec(sc, arm, ops)) && (ops == [] || AgreesThroughout(sc, arm, ops[..|ops| - 1]))
  }

  /** The program as written is a map throughout a run exactly if no insertion of the run loses a prefix. */
  lemma {:induction false} MapIffPrefixesKept(sc: Scheme, ops: seq<Op>)
    requires Legal(sc, AsWritten, ops) && NoCollision(sc, Exec(sc, AsWritten, ops))
    ensures AgreesThroughout(sc, AsWritten, ops) <==> KeepsPrefixes(sc, AsWritten, ops)
    decreases ops
  {
    if ops == [] {
      TrieAgreesWithMap(sc, AsWritten, ops);
    } else {
      var init, op := ops[..|ops| - 1], ops[|ops| - 1];
      WrittenGrows(sc, AsWritten, Exec(sc, AsWritten, init), op);
      MapIffPrefixesKept(sc, init);
      if KeepsPrefixes(sc, AsWritten, init) {
        if op.Put? {
          RunIsFaithful(sc, AsWritten, init);
          RunIsMap(sc, AsWritten, init);
          MapUntilFirstDrop(sc, Exec(sc, AsWritten, init), op.key, op.value);
        } else {
          TrieAgreesWithMap(sc, AsWritten, ops);
        }
      }
    }
  }

  /** The hypotheses of these theorems can be met: one insertion and a commit, whatever the hash function. */
  lemma OneCommittedKey(sc: Scheme, arm: Arm, key: Key, value: Bytes)
    ensures var ops := [Put(key, value), Commit];
            var t := Tip(ToNibbles(key), value);
            var r := Exec(sc, arm, ops);
            && Legal(sc, arm, ops) && NoCollision(sc, r) && KeepsPrefixes(sc, arm, ops)
            && r.roots == map[HashOf(sc, t) := t] && r.saved == map[HashOf(sc, t) := map[key := value]]
  {
    var none: seq<Op> := [];
    var ops := [Put(key, value), Commit];
    assert ops == none + [ops[0]] + [ops[1]];
    ExecNext(sc, arm, none, ops[0]);
    ExecNext(sc, arm, none + [ops[0]], ops[1]);
    assert (none + [ops[0]])[..0] == none && ops[..1] == none + [ops[0]];
    var r := Exec(sc, arm, none + [ops[0]]);
    assert r.state.root == Mem(Leaf(ToNibbles(key), value));
    assert Writes(sc, r.state.root) == [BlobOf(sc, r.tree)];
  }

  // ---------- nothing fails ----------

  /** In every reachable state every operation succeeds: no missing node, no malformed blob, no index out
      of range, no endless recursion, and a commit leaves no node in memory. */
  lemma NothingFails(sc: Scheme, arm: Arm, ops: seq<Op>, key: Key, value: Bytes)
    requires Legal(sc, arm, ops) && NoCollision(sc, Exec(sc, arm, ops))
    ensures var s := Exec(sc, arm, ops).state;
      && GetValue(sc, s, key).Done?
      && InsertStep(sc, arm, s, key, value).1 == Done(()) && InsertStep(sc, arm, s, key, value).0.root.Mem?
      && !CommitStep(sc, s).root.Mem?
      && (!s.dirty ==> !s.root.Mem?)
  {
    var r := Exec(sc, arm, ops);
    RunIsFaithful(sc, arm, ops);
    FaithfulLookup(sc, r, key);
    LinkInsertIsInsert(sc, arm, r.state.db, r.state.root, r.tree, ToNibbles(key), value);
  }

  /** A proof can be asked for any hash whatever: every hash in the database is the root of a stored trie. */
  lemma NoProofFails(sc: Scheme, arm: Arm, ops: seq<Op>, h: HashValue, key: Key)
    requires Legal(sc, arm, ops) && NoCollision(sc, Exec(sc, arm, ops))
    ensures var db := Exec(sc, arm, ops).state.db;
      && ProofOf(sc, db, h, key).found.Done?
      && (h in db ==>
            VerifyProof(sc, h, ProofOf(sc, db, h, key).proof, key) == LinkGet(sc, db, Hashed(h), ToNibbles(key), {}))
      && (h !in db ==> ProofOf(sc, db, h, key) == Collected(map[], Done(false)))
  {
    var db := Exec(sc, arm, ops).state.db;
    RunIsFaithful(sc, arm, ops);
    if h in db {
      assert Rooted(sc, db, h);
      var t :| Canon(t) && !t.Nil? && HashOf(sc, t) == h && Stored(sc, db, t);
      ProofIsComplete(sc, db, t, key);
    }
  }

  /** Asking for a proof commits a dirty trie and changes no lookup. */
  lemma ProofChangesNoLookup(sc: Scheme, arm: Arm, ops: seq<Op>, h: HashValue, key: Key, k: Key)
    requires Legal(sc, arm, ops) && NoCollision(sc, Exec(sc, arm, ops + [Prove(h, key)]))
    ensures var s, s' := Exec(sc, arm, ops).state, Exec(sc, arm, ops + [Prove(h, key)]).state;
      && s' == ProveStep(sc, s) && !s'.dirty
      && GetValue(sc, s', k) == GetValue(sc, s, k)
  {
    ExecNext(sc, arm, ops, Prove(h, key));
    var r := Exec(sc, arm, ops);
    var r' := Exec(sc, arm, ops + [Prove(h, key)]);
    assert NoCollision(sc, r);
    RunIsFaithful(sc, arm, ops);
    ApplyIsFaithful(sc, arm, r, Prove(h, key));
    FaithfulLookup(sc, r, k);
    FaithfulLookup(sc, r', k);
  }

  lemma ExecNext(sc: Scheme, arm: Arm, ops: seq<Op>, op: Op)
    ensures Exec(sc, arm, ops + [op]) == Apply(sc, arm, Exec(sc, arm, ops), op)
    ensures Legal(sc, arm, ops + [op]) <==> Legal(sc, arm, ops) && LegalNext(Exec(sc, arm, ops), op)
  {
    assert (ops + [op])[..|ops + [op]| - 1] == ops;
  }

  // ---------- persistence ----------

  /** A part of a legal run is a legal run, and writes no more. */
  lemma {:induction false} LegalPrefix(sc: Scheme, arm: Arm, ops: seq<Op>, more: seq<Op>)
    requires Legal(sc, arm, ops + more)
    ensures Legal(sc, arm, ops)
    ensures Exec(sc, arm, ops).written <= Exec(sc, arm, ops + more).written
    decreases more
  {
    if more == [] {
      assert ops + more == ops;
    } else {
      var init, last := more[..|more| - 1], more[|more| - 1];
      assert ops + more == (ops + init) + [last];
      ExecNext(sc, arm, ops + init, last);
      LegalPrefix(sc, arm, ops, init);
      WrittenGrows(sc, arm, Exec(sc, arm, ops + init), last);
    }
  }

  lemma WrittenGrows(sc: Scheme, arm: Arm, r: Run, op: Op)
    requires RunCanon(r)
    ensures r.written <= Apply(sc, arm, r, op).written
  {
  }

  lemma NextKeepsRoot(sc: Scheme, arm: Arm, r: Run, op: Op, h: HashValue)
    requires Faithful(sc, r) && LegalNext(r, op) && NoCollision(sc, Apply(sc, arm, r, op)) && h in r.roots
    ensures var r' := Apply(sc, arm, r, op);
            h in r'.roots && r'.roots[h] == r.roots[h] && SubDb(r.state.db, r'.state.db)
  {
    ApplyIsFaithful(sc, arm, r, op);
    SameStoredRoot(sc, r, Apply(sc, arm, r, op), h);
  }

  lemma SameStoredRoot(sc: Scheme, r: Run, r': Run, h: HashValue)
    requires Faithful(sc, r) && Faithful(sc, r') && SubDb(r.state.db, r'.state.db)
    requires h in r.roots && h in r'.roots
    ensures r'.roots[h] == r.roots[h]
  {
    StoredGrows(sc, r.state.db, r'.state.db, r.roots[h]);
    RepIsUnique(sc, r'.state.db, Hashed(h), r.roots[h], r'.roots[h]);
  }

  lemma LastStep(sc: Scheme, arm: Arm, ops: seq<Op>, op: Op)
    requires Legal(sc, arm, ops + [op]) && NoCollision(sc, Exec(sc, arm, ops + [op]))
    ensures Legal(sc, arm, ops) && NoCollision(sc, Exec(sc, arm, ops))
  {
    ExecNext(sc, arm, ops, op);
    WrittenGrows(sc, arm, Exec(sc, arm, ops), op);
  }

  lemma LastStepKeepsRoot(sc: Scheme, arm: Arm, ops: seq<Op>, op: Op, h: HashValue)
    requires Legal(sc, arm, ops + [op]) && NoCollision(sc, Exec(sc, arm, ops + [op]))
    requires h in Exec(sc, arm, ops).roots
    ensures var r, r' := Exec(sc, arm, ops), Exec(sc, arm, ops + [op]);
            h in r'.roots && r'.roots[h] == r.roots[h] && SubDb(r.state.db, r'.state.db)
  {
    LastStep(sc, arm, ops, op);
    ExecNext(sc, arm, ops, op);
    RunIsFaithful(sc, arm, ops);
    NextKeepsRoot(sc, arm, Exec(sc, arm, ops), op, h);
  }

  lemma {:induction false} RootsStand(sc: Scheme, arm: Arm, ops: seq<Op>, more: seq<Op>, h: HashValue)
    requires Legal(sc, arm, ops + more) && NoCollision(sc, Exec(sc, arm, ops + more))
    requires h in Exec(sc, arm, ops).roots
    ensures var r, r' := Exec(sc, arm, ops), Exec(sc, arm, ops + more);
            h in r'.roots && r'.roots[h] == r.roots[h] && SubDb(r.state.db, r'.state.db)
    decreases more
  {
    if more == [] {
      assert ops + more == ops;
    } else {
      var init, last := more[..|more| - 1], more[|more| - 1];
      assert ops + more == (ops + init) + [last];
      LastStep(sc, arm, ops + init, last);
      RootsStand(sc, arm, ops, init, h);
      LastStepKeepsRoot(sc, arm, ops + init, last, h);
    }
  }

  /** A committed root keeps its trie and its lookups for ever. */
  lemma RootsPersist(sc: Scheme, arm: Arm, ops: seq<Op>, more: seq<Op>, h: HashValue, key: Key)
    requires Legal(sc, arm, ops + more) && NoCollision(sc, Exec(sc, arm, ops + more))
    requires h in Exec(sc, arm, ops).roots
    ensures var r, r' := Exec(sc, arm, ops), Exec(sc, arm, ops + more);
      && h in r'.roots && r'.roots[h] == r.roots[h] && SubDb(r.state.db, r'.state.db)
      && LinkGet(sc, r'.state.db, Hashed(h), ToNibbles(key), {})
         == LinkGet(sc, r.state.db, Hashed(h), ToNibbles(key), {})
      && LinkGet(sc, r.state.db, Hashed(h), ToNibbles(key), {}) == Done(Get(r.roots[h], ToNibbles(key)))
  {
    var r, r' := Exec(sc, arm, ops), Exec(sc, arm, ops + more);
    LegalPrefix(sc, arm, ops, more);
    RootsStand(sc, arm, ops, more, h);
    RunIsFaithful(sc, arm, ops);
    RunIsFaithful(sc, arm, ops + more);
    LinkGetIsGet(sc, r.state.db, Hashed(h), r.roots[h], ToNibbles(key));
    LinkGetIsGet(sc, r'.state.db, Hashed(h), r'.roots[h], ToNibbles(key));
  }

  lemma {:induction false} KeptPrefix(sc: Scheme, arm: Arm, ops: seq<Op>, more: seq<Op>)
    requires KeepsPrefixes(sc, arm, ops + more)
    ensures KeepsPrefixes(sc, arm, ops)
    decreases more
  {
    if more == [] {
      assert ops + more == ops;
    } else {
      var init := more[..|more| - 1];
      assert (ops + more)[..|ops + more| - 1] == ops + init;
      KeptPrefix(sc, arm, ops, init);
    }
  }

  /** So its map is the same for ever. */
  lemma MapsPersist(sc: Scheme, arm: Arm, ops: seq<Op>, more: seq<Op>, h: HashValue)
    requires Legal(sc, arm, ops + more) && NoCollision(sc, Exec(sc, arm, ops + more))
    requires KeepsPrefixes(sc, arm, ops + more) && h in Exec(sc, arm, ops).saved
    ensures var r, r' := Exec(sc, arm, ops), Exec(sc, arm, ops + more);
            h in r'.saved && r'.saved[h] == r.saved[h]
  {
    var r, r' := Exec(sc, arm, ops), Exec(sc, arm, ops + more);
    KeptPrefix(sc, arm, ops, more);
    RunIsMap(sc, arm, ops);
    RunIsMap(sc, arm, ops + more);
    RootsStand(sc, arm, ops, more, h);
    SameMapSameTree(r.roots[h], r.saved[h], r'.roots[h], r'.saved[h]);
  }

  /** Reverting to the hash a commit returned, whatever happened since, restores the lookups of that moment. */
  lemma RevertRestoresCommit(sc: Scheme, arm: Arm, ops: seq<Op>, all: seq<Op>, key: Key)
    requires Legal(sc, arm, all) && NoCollision(sc, Exec(sc, arm, all)) && ops + [Commit] <= all
    ensures var s, root := Exec(sc, arm, ops).state, CommitStep(sc, Exec(sc, arm, ops).state).root;
            var now := Exec(sc, arm, all);
      && !root.Mem?
      && (root.Hashed? ==>
            LegalNext(now, Revert(root.h)) && GetValue(sc, RevertStep(now.state, root.h), key) == GetValue(sc, s, key))
  {
    var more := all[|ops| + 1..];
    assert all == ops + [Commit] + more;
    var r, c := Exec(sc, arm, ops), Exec(sc, arm, ops + [Commit]);
    ExecNext(sc, arm, ops, Commit);
    LegalPrefix(sc, arm, ops + [Commit], more);
    LegalPrefix(sc, arm, ops, [Commit]);
    RunIsFaithful(sc, arm, ops);
    FaithfulLookup(sc, r, key);
    if c.state.root.Hashed? {
      RootsPersist(sc, arm, ops + [Commit], more, c.state.root.h, key);
    }
  }

  // ---------- the root hash is a fingerprint ----------

  lemma {:induction false} StoredBlobs(sc: Scheme, db: Db, t: Tree)
    requires Stored(sc, db, t)
    ensures Blobs(sc, t) <= db.Values
    decreases t
  {
    match t
    case Nil =>
    case Tip(_, _) => assert db[HashOf(sc, t)] in db.Values;
    case Stem(_, below) =>
      assert db[HashOf(sc, t)] in db.Values;
      StoredBlobs(sc, db, below);
    case Fork(kids, _) =>
      assert db[HashOf(sc, t)] in db.Values;
      forall i | 0 <= i < |kids| ensures Blobs(sc, kids[i]) <= db.Values {
        StoredBlobs(sc, db, kids[i]);
      }
  }

  lemma StoredTreesHaveFingerprints(sc: Scheme, dbA: Db, t: Tree, dbB: Db, u: Tree)
    requires Canon(t) && !t.Nil? && Stored(sc, dbA, t) && Canon(u) && !u.Nil? && Stored(sc, dbB, u)
    requires CollisionFree(sc, dbA.Values + dbB.Values)
    ensures HashOf(sc, t) == HashOf(sc, u) <==> t == u
    ensures t == u <==> SameLookups(t, u)
  {
    StoredBlobs(sc, dbA, t);
    StoredBlobs(sc, dbB, u);
    HashStandsForOneTree(sc, t, u);
    if SameLookups(t, u) {
      SameLookupsSameTree(t, u);
    }
  }

  /** Two committed roots, of any two runs, are equal exactly when they have the same lookups; where no
      prefix was lost, exactly when they hold the same map. */
  lemma RootHashIsFingerprint(sc: Scheme, armA: Arm, a: seq<Op>, h: HashValue, armB: Arm, b: seq<Op>, g: HashValue)
    requires Legal(sc, armA, a) && Legal(sc, armB, b)
    ensures var ra, rb := Exec(sc, armA, a), Exec(sc, armB, b);
      CollisionFree(sc, ra.written + rb.written) && h in ra.roots && g in rb.roots ==>
        && (h == g <==> SameLookups(ra.roots[h], rb.roots[g]))
        && (KeepsPrefixes(sc, armA, a) && KeepsPrefixes(sc, armB, b) ==>
              h in ra.saved && g in rb.saved && (h == g <==> ra.saved[h] == rb.saved[g]))
  {
    var ra, rb := Exec(sc, armA, a), Exec(sc, armB, b);
    if CollisionFree(sc, ra.written + rb.written) && h in ra.roots && g in rb.roots {
      RunIsFaithful(sc, armA, a);
      RunIsFaithful(sc, armB, b);
      StoredTreesHaveFingerprints(sc, ra.state.db, ra.roots[h], rb.state.db, rb.roots[g]);
      if KeepsPrefixes(sc, armA, a) && KeepsPrefixes(sc, armB, b) {
        RunIsMap(sc, armA, a);
        RunIsMap(sc, armB, b);
        SameMapSameTree(ra.roots[h], ra.saved[h], rb.roots[g], rb.saved[g]);
      }
    }
  }

  /** However two runs got to the same map, committing gives the same root. */
  lemma RootIsHistoryIndependent(sc: Scheme, armA: Arm, a: seq<Op>, armB: Arm, b: seq<Op>)
    requires Legal(sc, armA, a) && NoCollision(sc, Exec(sc, armA, a)) && KeepsPrefixes(sc, armA, a)
    requires Legal(sc, armB, b) && NoCollision(sc, Exec(sc, armB, b)) && KeepsPrefixes(sc, armB, b)
    requires Exec(sc, armA, a).current == Exec(sc, armB, b).current
    ensures CommitStep(sc, Exec(sc, armA, a).state).root == CommitStep(sc, Exec(sc, armB, b).state).root
  {
    var ra, rb := Exec(sc, armA, a), Exec(sc, armB, b);
    RunIsFaithful(sc, armA, a);
    RunIsFaithful(sc, armB, b);
    RunIsMap(sc, armA, a);
    RunIsMap(sc, armB, b);
    SameMapSameTree(ra.tree, ra.current, rb.tree, rb.current);
    ShutIsLinkOf(sc, ra.state.db, ra.state.root, ra.tree);
    ShutIsLinkOf(sc, rb.state.db, rb.state.root, rb.tree);
  }

  /** A commit returns no root if and only if the map is empty. */
  lemma NoRootIffEmptyMap(sc: Scheme, arm: Arm, ops: seq<Op>)
    requires Legal(sc, arm, ops) && NoCollision(sc, Exec(sc, arm, ops)) && KeepsPrefixes(sc, arm, ops)
    ensures CommitStep(sc, Exec(sc, arm, ops).state).root.Empty? <==> Exec(sc, arm, ops).current == map[]
  {
    var r := Exec(sc, arm, ops);
    RunIsFaithful(sc, arm, ops);
    RunIsMap(sc, arm, ops);
    ShutIsLinkOf(sc, r.state.db, r.state.root, r.tree);
    assert Denotes(Nil, map[]);
    SameMapSameTree(r.tree, r.current, Nil, map[]);
  }

  lemma LinkStandsForOneTree(sc: Scheme, t: Tree, u: Tree)
    requires Canon(t) && Canon(u) && CollisionFree(sc, Blobs(sc, t) + Blobs(sc, u))
    ensures LinkOf(sc, t) == LinkOf(sc, u) <==> t == u
  {
    if !t.Nil? && !u.Nil? {
      HashStandsForOneTree(sc, t, u);
    }
  }

  lemma RootsTellTrees(sc: Scheme, ra: Run, rb: Run)
    requires Faithful(sc, ra) && Faithful(sc, rb)
    requires CollisionFree(sc, CommitRun(sc, ra).written + CommitRun(sc, rb).written)
    ensures CommitStep(sc, ra.state).root == CommitStep(sc, rb.state).root <==> ra.tree == rb.tree
  {
    CommitWritesTree(sc, ra);
    CommitWritesTree(sc, rb);
    LinkStandsForOneTree(sc, ra.tree, rb.tree);
  }

  lemma CommitWritesTree(sc: Scheme, r: Run)
    requires Faithful(sc, r) && NoCollision(sc, CommitRun(sc, r))
    ensures CommitStep(sc, r.state).root == LinkOf(sc, r.tree) && Blobs(sc, r.tree) <= CommitRun(sc, r).written
  {
    CommitIsFaithful(sc, r);
    StoredBlobs(sc, CommitRun(sc, r).state.db, r.tree);
  }

  lemma CommitGrows(sc: Scheme, r: Run)
    ensures r.written <= CommitRun(sc, r).written
  {
  }

  /** Committing two runs gives the same root, or no root both times, if and only if they hold the same map,
      provided the blobs of both, those of the two commits included, do not collide. */
  lemma RootTellsTheMap(sc: Scheme, armA: Arm, a: seq<Op>, armB: Arm, b: seq<Op>)
    requires Legal(sc, armA, a) && KeepsPrefixes(sc, armA, a)
    requires Legal(sc, armB, b) && KeepsPrefixes(sc, armB, b)
    ensures var ra, rb := Exec(sc, armA, a), Exec(sc, armB, b);
      CollisionFree(sc, CommitRun(sc, ra).written + CommitRun(sc, rb).written) ==>
        (CommitStep(sc, ra.state).root == CommitStep(sc, rb.state).root <==> ra.current == rb.current)
  {
    var ra, rb := Exec(sc, armA, a), Exec(sc, armB, b);
    if CollisionFree(sc, CommitRun(sc, ra).written + CommitRun(sc, rb).written) {
      CommitGrows(sc, ra);
      CommitGrows(sc, rb);
      RunIsFaithful(sc, armA, a);
      RunIsFaithful(sc, armB, b);
      RootsTellTrees(sc, ra, rb);
      RunIsMap(sc, armA, a);
      RunIsMap(sc, armB, b);
      SameMapSameTree(ra.tree, ra.current, rb.tree, rb.current);
    }
  }

  // ---------- growth ----------

  /** What a run may add to the database: two blobs per byte of every inserted key, and two more. */
  function Budget(ops: seq<Op>): nat {
    if ops == [] then 0
    else Budget(ops[..|ops| - 1]) + if ops[|ops| - 1].Put? then 2 * |ops[|ops| - 1].key| + 2 else 0
  }

  lemma CommitSize(sc: Scheme, s: State)
    ensures var s' := CommitStep(sc, s);
            |s'.db| + MemCount(s'.root) <= |s.db| + MemCount(s.root)
  {
    PutAllSize(sc, s.db, Writes(sc, s.root));
    WritesCount(sc, s.root);
  }

  /** The stored nodes and the nodes in memory together stay within the budget of the insertions. */
  lemma {:induction false} GrowthIsBounded(sc: Scheme, arm: Arm, ops: seq<Op>)
    requires Legal(sc, arm, ops) && NoCollision(sc, Exec(sc, arm, ops))
    ensures var s := Exec(sc, arm, ops).state; |s.db| + MemCount(s.root) <= Budget(ops)
    decreases ops
  {
    if ops == [] {
    } else {
      var init, op := ops[..|ops| - 1], ops[|ops| - 1];
      var r := Exec(sc, arm, init);
      assert NoCollision(sc, r);
      GrowthIsBounded(sc, arm, init);
      RunIsFaithful(sc, arm, init);
      StepGrowth(sc, arm, r, op);
    }
  }

  lemma StepGrowth(sc: Scheme, arm: Arm, r: Run, op: Op)
    requires Faithful(sc, r)
    ensures var s, s' := r.state, Apply(sc, arm, r, op).state;
            |s'.db| + MemCount(s'.root) <= |s.db| + MemCount(s.root) + if op.Put? then 2 * |op.key| + 2 else 0
  {
    match op
    case Put(key, value) =>
      LinkInsertMemCount(sc, arm, r.state.db, r.state.root, r.tree, ToNibbles(key), value);
    case Commit => CommitSize(sc, r.state);
    case Revert(_) =>
    case Prove(_, _) => CommitSize(sc, r.state);
  }

  /** One insertion into a committed trie, once committed, adds at most two blobs per byte of the key and two. */
  lemma InsertionIsSmall(sc: Scheme, arm: Arm, ops: seq<Op>, key: Key, value: Bytes)
    requires Legal(sc, arm, ops) && NoCollision(sc, Exec(sc, arm, ops)) && !Exec(sc, arm, ops).state.dirty
    ensures var s := Exec(sc, arm, ops).state;
            var s' := InsertStep(sc, arm, s, key, value).0;
            && MemCount(s'.root) <= 2 * |key| + 2
            && |CommitStep(sc, s').db| <= |s.db| + 2 * |key| + 2
  {
    var r := Exec(sc, arm, ops);
    RunIsFaithful(sc, arm, ops);
    LinkInsertMemCount(sc, arm, r.state.db, r.state.root, r.tree, ToNibbles(key), value);
    CommitSize(sc, InsertStep(sc, arm, r.state, key, value).0);
  }

  // ---------- proofs of committed roots ----------

  /** The proof of a key at a committed root verifies to what that root says of the key, is the least
      part of the database that does, and is no longer than the nibbles of the key and one. */
  lemma CommittedRootsHaveProofs(sc: Scheme, arm: Arm, ops: seq<Op>, h: HashValue, key: Key, d: Db)
    requires Legal(sc, arm, ops) && NoCollision(sc, Exec(sc, arm, ops)) && h in Exec(sc, arm, ops).roots
    ensures var r := Exec(sc, arm, ops);
            var c, answer := ProofOf(sc, r.state.db, h, key), Get(r.roots[h], ToNibbles(key));
      && c.found == Done(answer.Some?)
      && VerifyProof(sc, h, c.proof, key) == Done(answer)
      && LinkGet(sc, r.state.db, Hashed(h), ToNibbles(key), {}) == Done(answer)
      && SubDb(c.proof, r.state.db) && |c.proof| <= 2 * |key| + 1
      && (SubDb(d, r.state.db) ==> (h in d && VerifyProof(sc, h, d, key).Done? <==> SubDb(c.proof, d)))
      && (SubDb(d, r.state.db) && h in d && !SubDb(c.proof, d) ==>
            exists g: HashValue :: g in c.proof && g !in d && VerifyProof(sc, h, d, key) == Failed(MissingNode(g)))
      && (SubDb(c.proof, d) ==> VerifyProof(sc, h, d, key) == Done(answer))
      && (KeepsPrefixes(sc, arm, ops) ==> h in r.saved && answer == Lookup(r.saved[h], key))
  {
    var r := Exec(sc, arm, ops);
    RunIsFaithful(sc, arm, ops);
    ProofIsComplete(sc, r.state.db, r.roots[h], key);
    if SubDb(d, r.state.db) {
      ProofIsLeast(sc, r.state.db, r.roots[h], key, d);
    }
    if SubDb(ProofOf(sc, r.state.db, h, key).proof, d) {
      SupersetOfProofVerifies(sc, r.state.db, r.roots[h], key, d);
    }
    if KeepsPrefixes(sc, arm, ops) {
      RunIsMap(sc, arm, ops);
      DenotesLookup(r.roots[h], r.saved[h], key);
    }
  }

  /** Nobody can make a proof database, its blobs under their own hashes and free of collisions with the run,
      that verifies to anything but what the committed root says. */
  lemma CommittedRootsAreSound(sc: Scheme, arm: Arm, ops: seq<Op>, h: HashValue, key: Key, d: Db)
    requires Legal(sc, arm, ops) && h in Exec(sc, arm, ops).roots
    requires ContentAddressed(sc, d) && CollisionFree(sc, d.Values + Exec(sc, arm, ops).written)
    ensures var r := Exec(sc, arm, ops);
            var v, answer := VerifyProof(sc, h, d, key), Get(r.roots[h], ToNibbles(key));
      && (v.Done? && v.value.Some? ==> v.value == answer)
      && (v.Done? && h in d ==> v.value == answer)
      && (v.Failed? ==> v.fault.MissingNode? && v.fault.h !in d)
      && (KeepsPrefixes(sc, arm, ops) ==> h in r.saved && answer == Lookup(r.saved[h], key))
  {
    var r := Exec(sc, arm, ops);
    RunIsFaithful(sc, arm, ops);
    StoredBlobs(sc, r.state.db, r.roots[h]);
    assert d.Values + Blobs(sc, r.roots[h]) <= d.Values + r.written;
    ProofIsSound(sc, r.roots[h], key, d);
    FirstMissingIsOnPath(sc, d, r.roots[h], ToNibbles(key));
    if KeepsPrefixes(sc, arm, ops) {
      RunIsMap(sc, arm, ops);
      DenotesLookup(r.roots[h], r.saved[h], key);
    }
  }
}
