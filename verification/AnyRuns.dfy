/** Runs that revert to any hash whatever, committed or not. The one thing that can go wrong is the root itself:
    it may be a hash that is not stored. */
module AnyRuns {
  import opened Base
  import opened Keys
  import opened Nodes
  import opened Schemes
  import opened NodeOps
  import opened Trees
  import opened Represent
  import opened Collapse
  import opened Proofs
  import opened TrieState
  import opened Runs
  import opened Theorems
  import opened AnyState

  /** The root stands for a trie. */
  ghost predicate Stands(sc: Scheme, s: State) {
    exists t :: Canon(t) && Rep(sc, s.db, s.root, t)
  }

  ghost predicate Whole(sc: Scheme, s: State, written: set<Blob>) {
    && ContentAddressed(sc, s.db) && s.db.Values == written && AllRooted(sc, s.db)
    && (!Dangling(s) ==> Stands(sc, s))
    && (!s.dirty ==> !s.root.Mem?)
  }

  lemma PutIsWhole(sc: Scheme, arm: Arm, r: Run, key: Key, value: Bytes)
    requires RunCanon(r) && Whole(sc, r.state, r.written)
    ensures Whole(sc, Apply(sc, arm, r, Put(key, value)).state, r.written)
  {
    if Dangling(r.state) {
      assert Rep(sc, r.state.db, Empty, Nil);
    } else {
      var t :| Canon(t) && Rep(sc, r.state.db, r.state.root, t);
      LinkInsertIsInsert(sc, arm, r.state.db, r.state.root, t, ToNibbles(key), value);
      InsertIsCanon(arm, t, ToNibbles(key), value);
    }
  }

  lemma CommitStoresWhole(sc: Scheme, s: State, t: Tree)
    requires Canon(t) && Rep(sc, s.db, s.root, t) && ContentAddressed(sc, s.db) && AllRooted(sc, s.db)
    requires CollisionFree(sc, s.db.Values + Elements(Writes(sc, s.root)))
    ensures var s' := CommitStep(sc, s);
      && Grown(sc, s.db, s'.db, Elements(Writes(sc, s.root)))
      && AllRooted(sc, s'.db) && Rep(sc, s'.db, s'.root, t)
  {
    var blobs := Writes(sc, s.root);
    var db' := PutAll(sc, s.db, blobs);
    PutAllGrows(sc, s.db, blobs);
    ShutIsLinkOf(sc, s.db, s.root, t);
    WrittenIsStored(sc, s.db, db', s.root, t);
    CommittedAreRooted(sc, s.db, db', s.root, t);
  }

  lemma CommitIsWhole(sc: Scheme, r: Run)
    requires Whole(sc, r.state, r.written) && NoCollision(sc, CommitRun(sc, r))
    ensures Whole(sc, CommitRun(sc, r).state, CommitRun(sc, r).written)
    ensures SubDb(r.state.db, CommitRun(sc, r).state.db)
  {
    var s, blobs := r.state, Writes(sc, r.state.root);
    if Dangling(s) {
      assert Elements(blobs) == {};
    } else {
      var t :| Canon(t) && Rep(sc, s.db, s.root, t);
      assert CommitRun(sc, r).written == s.db.Values + Elements(blobs);
      CommitStoresWhole(sc, s, t);
      CommitInAnyState(sc, s);
    }
  }

  lemma RevertIsWhole(sc: Scheme, s: State, h: HashValue, written: set<Blob>)
    requires Whole(sc, s, written)
    ensures Whole(sc, RevertStep(s, h), written)
  {
    if h in s.db {
      assert Rooted(sc, s.db, h);
      var t :| Canon(t) && !t.Nil? && HashOf(sc, t) == h && Stored(sc, s.db, t);
      assert Rep(sc, s.db, Hashed(h), t);
    }
  }

  lemma ApplyIsWhole(sc: Scheme, arm: Arm, r: Run, op: Op)
    requires RunCanon(r) && Whole(sc, r.state, r.written) && NoCollision(sc, Apply(sc, arm, r, op))
    ensures Whole(sc, Apply(sc, arm, r, op).state, Apply(sc, arm, r, op).written)
    ensures SubDb(r.state.db, Apply(sc, arm, r, op).state.db)
  {
    match op
    case Put(key, value) => PutIsWhole(sc, arm, r, key, value);
    case Commit => CommitIsWhole(sc, r);
    case Revert(h) => RevertIsWhole(sc, r.state, h, r.written);
    case Prove(_, _) =>
      if r.state.dirty {
        CommitIsWhole(sc, r);
      }
  }

  /** In every state of any run, every stored blob is the root of a trie stored as a whole, and the root stands
      for a trie unless it is a hash that is not stored. */
  lemma {:induction false} AnyRunIsWhole(sc: Scheme, arm: Arm, ops: seq<Op>)
    requires NoCollision(sc, Exec(sc, arm, ops))
    ensures Whole(sc, Exec(sc, arm, ops).state, Exec(sc, arm, ops).written)
    decreases ops
  {
    if ops == [] {
      assert Rep(sc, map[], Empty, Nil);
    } else {
      var init, op := ops[..|ops| - 1], ops[|ops| - 1];
      assert ops == init + [op];
      ExecNext(sc, arm, init, op);
      WrittenGrows(sc, arm, Exec(sc, arm, init), op);
      AnyRunIsWhole(sc, arm, init);
      ApplyIsWhole(sc, arm, Exec(sc, arm, init), op);
    }
  }

  /** In a state of any run lookups and insertions succeed, for every key, exactly if the root is not a missing hash;
      otherwise they fail with that hash. They can fail in no other way, and a proof never fails. */
  lemma OnlyTheRootCanBeMissing(sc: Scheme, arm: Arm, ops: seq<Op>, key: Key, value: Bytes, h: HashValue)
    requires NoCollision(sc, Exec(sc, arm, ops))
    ensures var s := Exec(sc, arm, ops).state;
      && (if Dangling(s) then
            && GetValue(sc, s, key) == Failed(MissingNode(s.root.h))
            && InsertStep(sc, arm, s, key, value) == (State(Empty, s.db, s.dirty), Failed(MissingNode(s.root.h)))
          else
            && GetValue(sc, s, key).Done?
            && InsertStep(sc, arm, s, key, value).1 == Done(()))
      && ProofOf(sc, s.db, h, key).found.Done?
  {
    var s := Exec(sc, arm, ops).state;
    AnyRunIsWhole(sc, arm, ops);
    if !Dangling(s) {
      var t :| Canon(t) && Rep(sc, s.db, s.root, t);
      LinkGetIsGet(sc, s.db, s.root, t, ToNibbles(key));
      LinkInsertIsInsert(sc, arm, s.db, s.root, t, ToNibbles(key), value);
    }
    if h in s.db {
      assert Rooted(sc, s.db, h);
      var t :| Canon(t) && !t.Nil? && HashOf(sc, t) == h && Stored(sc, s.db, t);
      ProofIsComplete(sc, s.db, t, key);
    }
  }

  lemma CommitKeepsLookup(sc: Scheme, r: Run, key: Key)
    requires Whole(sc, r.state, r.written) && NoCollision(sc, CommitRun(sc, r))
    ensures GetValue(sc, CommitStep(sc, r.state), key) == GetValue(sc, r.state, key)
  {
    var s := r.state;
    if !Dangling(s) {
      var t :| Canon(t) && Rep(sc, s.db, s.root, t);
      assert CommitRun(sc, r).written == s.db.Values + Elements(Writes(sc, s.root));
      CollapsePreservesMeaning(sc, s.db, s.root, t, s.root, t, ToNibbles(key));
    }
  }

  /** A commit, as that before a proof, changes no lookup, whatever was reverted to. */
  lemma CommitChangesNoLookup(sc: Scheme, arm: Arm, ops: seq<Op>, key: Key)
    requires NoCollision(sc, CommitRun(sc, Exec(sc, arm, ops)))
    ensures var s, s' := Exec(sc, arm, ops).state, CommitStep(sc, Exec(sc, arm, ops).state);
      SubDb(s.db, s'.db) && GetValue(sc, s', key) == GetValue(sc, s, key)
  {
    var r := Exec(sc, arm, ops);
    CommitGrows(sc, r);
    AnyRunIsWhole(sc, arm, ops);
    CommitIsWhole(sc, r);
    CommitKeepsLookup(sc, r, key);
  }
}
