/** Whole runs of a trie, side by side with what they should mean: the trie without hashes, the plain
    key-value map, and the same two for every root hash a commit ever returned. */
module Runs {
  import opened Base
  import opened Keys
  import opened Nodes
  import opened Schemes
  import opened NodeOps
  import opened Trees
  import opened Represent
  import opened Collapse
  import opened TrieState

  datatype Op =
    | Put(key: Key, value: Bytes)
    | Commit
    | Revert(h: HashValue)
    | Prove(h: HashValue, key: Key)

  type Map = map<Key, Bytes>

  datatype Run = Run(
    state: State,
    tree: Tree,                      // what the root stands for
    roots: map<HashValue, Tree>,     // what every committed root stands for
    current: Map,                    // the plain map of the trie
    saved: map<HashValue, Map>,      // the plain map at every commit
    written: set<Blob>)              // every blob written so far

  const NEW_RUN: Run := Run(NEW_TRIE, Nil, map[], map[], map[], {})

  ghost predicate RootsCanon(roots: map<HashValue, Tree>) {
    forall h :: h in roots ==> Canon(roots[h])
  }

  ghost predicate RunCanon(r: Run) {
    Canon(r.tree) && RootsCanon(r.roots)
  }

  function CommitRun(sc: Scheme, r: Run): Run {
    var s := CommitStep(sc, r.state);
    var r' := r.(state := s, written := r.written + set b | b in Writes(sc, r.state.root));
    if s.root.Hashed? then r'.(roots := r.roots[s.root.h := r.tree], saved := r.saved[s.root.h := r.current]) else r'
  }

  function Apply(sc: Scheme, arm: Arm, r: Run, op: Op): Run
    requires RunCanon(r)
  {
    match op
    case Put(key, value) =>
      r.(state := InsertStep(sc, arm, r.state, key, value).0,
         tree := Insert(arm, r.tree, ToNibbles(key), value),
         current := r.current[key := value])
    case Commit => CommitRun(sc, r)
    case Revert(h) =>
      r.(state := RevertStep(r.state, h),
         tree := if h in r.roots then r.roots[h] else r.tree,
         current := if h in r.saved then r.saved[h] else r.current)
    case Prove(_, _) => if r.state.dirty then CommitRun(sc, r) else r
  }

  lemma ApplyIsCanon(sc: Scheme, arm: Arm, r: Run, op: Op)
    requires RunCanon(r)
    ensures RunCanon(Apply(sc, arm, r, op))
  {
    if op.Put? {
      InsertIsCanon(arm, r.tree, ToNibbles(op.key), op.value);
    }
  }

  /** The run of a new trie. */
  ghost function Exec(sc: Scheme, arm: Arm, ops: seq<Op>): (r: Run)
    ensures RunCanon(r)
    decreases ops
  {
    if ops == [] then NEW_RUN
    else
      var before := Exec(sc, arm, ops[..|ops| - 1]);
      var op := ops[|ops| - 1];
      ApplyIsCanon(sc, arm, before, op);
      Apply(sc, arm, before, op)
  }

  /** Reverting only ever goes to a root hash that was committed before. */
  ghost predicate Legal(sc: Scheme, arm: Arm, ops: seq<Op>)
    decreases ops
  {
    ops == [] ||
    (&& Legal(sc, arm, ops[..|ops| - 1])
     && LegalNext(Exec(sc, arm, ops[..|ops| - 1]), ops[|ops| - 1]))
  }

  predicate LegalNext(r: Run, op: Op) {
    op.Revert? ==> op.h in r.roots
  }

  /** The hypothesis about the hash function, for one run: the blobs it wrote do not collide. */
  ghost predicate NoCollision(sc: Scheme, r: Run) {
    CollisionFree(sc, r.written)
  }

  // ---------- what every operation keeps ----------

  /** Behind this hash a whole trie is stored. */
  ghost predicate Rooted(sc: Scheme, db: Db, h: HashValue) {
    exists t :: Canon(t) && !t.Nil? && HashOf(sc, t) == h && Stored(sc, db, t)
  }

  ghost predicate AllRooted(sc: Scheme, db: Db) {
    forall h {:trigger Rooted(sc, db, h)} :: h in db ==> Rooted(sc, db, h)
  }

  ghost predicate RootsStored(sc: Scheme, db: Db, roots: map<HashValue, Tree>) {
    forall h :: h in roots ==> !roots[h].Nil? && HashOf(sc, roots[h]) == h && Stored(sc, db, roots[h])
  }

  ghost predicate Faithful(sc: Scheme, r: Run) {
    && RunCanon(r)
    && ContentAddressed(sc, r.state.db) && r.state.db.Values == r.written
    && Rep(sc, r.state.db, r.state.root, r.tree)
    && RootsStored(sc, r.state.db, r.roots)
    && AllRooted(sc, r.state.db)
    && (!r.state.dirty ==> !r.state.root.Mem?)
    && r.roots.Keys == r.saved.Keys
  }

  lemma PutIsFaithful(sc: Scheme, arm: Arm, r: Run, key: Key, value: Bytes)
    requires Faithful(sc, r)
    ensures Faithful(sc, Apply(sc, arm, r, Put(key, value)))
    ensures InsertStep(sc, arm, r.state, key, value).1 == Done(())
  {
    LinkInsertIsInsert(sc, arm, r.state.db, r.state.root, r.tree, ToNibbles(key), value);
    ApplyIsCanon(sc, arm, r, Put(key, value));
  }

  lemma CommitStores(sc: Scheme, r: Run)
    requires Faithful(sc, r) && NoCollision(sc, CommitRun(sc, r))
    ensures var s := CommitStep(sc, r.state);
      && Grown(sc, r.state.db, s.db, Elements(Writes(sc, r.state.root)))
      && AllPut(sc, s.db, Writes(sc, r.state.root))
      && s.root == LinkOf(sc, r.tree) && Stored(sc, s.db, r.tree)
  {
    var db, blobs := r.state.db, Writes(sc, r.state.root);
    assert CommitRun(sc, r).written == db.Values + Elements(blobs);
    PutAllGrows(sc, db, blobs);
    ShutIsLinkOf(sc, db, r.state.root, r.tree);
    WrittenIsStored(sc, db, PutAll(sc, db, blobs), r.state.root, r.tree);
  }

  lemma RootsStay(sc: Scheme, db: Db, db': Db, roots: map<HashValue, Tree>)
    requires SubDb(db, db') && RootsStored(sc, db, roots)
    ensures RootsStored(sc, db', roots)
  {
    forall h | h in roots ensures Stored(sc, db', roots[h]) {
      StoredGrows(sc, db, db', roots[h]);
    }
  }

  lemma RootedStays(sc: Scheme, db: Db, db': Db, h: HashValue)
    requires SubDb(db, db') && Rooted(sc, db, h)
    ensures Rooted(sc, db', h)
  {
    var t :| Canon(t) && !t.Nil? && HashOf(sc, t) == h && Stored(sc, db, t);
    StoredGrows(sc, db, db', t);
  }

  lemma CommittedAreRooted(sc: Scheme, db: Db, db': Db, root: Link, t: Tree)
    requires Canon(t) && Rep(sc, db, root, t) && AllRooted(sc, db)
    requires ContentAddressed(sc, db) && Grown(sc, db, db', Elements(Writes(sc, root)))
    requires AllPut(sc, db', Writes(sc, root))
    ensures AllRooted(sc, db')
  {
    forall h | h in db' ensures Rooted(sc, db', h) {
      if h in db {
        RootedStays(sc, db, db', h);
      } else {
        var b := db'[h];
        assert b in db'.Values;
        assert b !in db.Values;
        assert b in Writes(sc, root);
        var s := WrittenSubtree(sc, db, db', root, t, b);
      }
    }
  }

  lemma RootAdded(sc: Scheme, db: Db, roots: map<HashValue, Tree>, h: HashValue, t: Tree)
    requires RootsStored(sc, db, roots) && !t.Nil? && h == HashOf(sc, t) && Stored(sc, db, t)
    requires RootsCanon(roots) && Canon(t)
    ensures RootsStored(sc, db, roots[h := t]) && RootsCanon(roots[h := t])
  {
  }

  /** What is left to check once the commit has stored the tree. */
  lemma CommittedIsFaithful(sc: Scheme, r: Run, r': Run)
    requires RunCanon(r) && r.roots.Keys == r.saved.Keys
    requires RootsStored(sc, r'.state.db, r.roots) && AllRooted(sc, r'.state.db)
    requires ContentAddressed(sc, r'.state.db) && r'.state.db.Values == r'.written
    requires r'.tree == r.tree && Stored(sc, r'.state.db, r.tree) && r'.state.root == LinkOf(sc, r.tree)
    requires r'.roots == if r.tree.Nil? then r.roots else r.roots[HashOf(sc, r.tree) := r.tree]
    requires r'.saved == if r.tree.Nil? then r.saved else r.saved[HashOf(sc, r.tree) := r.current]
    ensures Faithful(sc, r')
  {
    if !r.tree.Nil? {
      var h := HashOf(sc, r.tree);
      RootAdded(sc, r'.state.db, r.roots, h, r.tree);
      assert r'.roots.Keys == r.roots.Keys + {h} && r'.saved.Keys == r.saved.Keys + {h};
    }
  }

  lemma CommitIsFaithful(sc: Scheme, r: Run)
    requires Faithful(sc, r) && NoCollision(sc, CommitRun(sc, r))
    ensures Faithful(sc, CommitRun(sc, r))
    ensures SubDb(r.state.db, CommitRun(sc, r).state.db)
    ensures CommitRun(sc, r).state.root == LinkOf(sc, r.tree)
  {
    var db' := CommitStep(sc, r.state).db;
    CommitStores(sc, r);
    RootsStay(sc, r.state.db, db', r.roots);
    CommittedAreRooted(sc, r.state.db, db', r.state.root, r.tree);
    CommittedIsFaithful(sc, r, CommitRun(sc, r));
  }

  /** Every blob a commit writes is the root of a subtree that is stored as a whole. */
  lemma {:induction false} WrittenSubtree(sc: Scheme, db: Db, db': Db, link: Link, t: Tree, b: Blob) returns (s: Tree)
    requires Canon(t) && Rep(sc, db, link, t) && b in Writes(sc, link)
    requires SubDb(db, db') && AllPut(sc, db', Writes(sc, link))
    ensures Canon(s) && !s.Nil? && BlobOf(sc, s) == b && Stored(sc, db', s)
    decreases link
  {
    var n := link.node;
    ShutNodeIsNodeOf(sc, db, n, t);
    if b == BlobOf(sc, t) {
      WrittenIsStored(sc, db, db', link, t);
      s := t;
    } else {
      match n
      case Leaf(_, _) => assert false;
      case Extension(_, child) => s := WrittenSubtree(sc, db, db', child, t.below, b);
      case Branch(children, _) =>
        var i := WrittenForChild(sc, children, b);
        ChildPut(sc, db', children, i);
        s := WrittenSubtree(sc, db, db', children[i], t.kids[i], b);
    }
  }

  lemma ChildPut(sc: Scheme, db: Db, children: seq<Link>, i: nat)
    requires i < |children| && AllPut(sc, db, WritesAll(sc, children))
    ensures AllPut(sc, db, Writes(sc, children[i]))
  {
    var before, after := ChildWrites(sc, children, i);
    forall b | b in Writes(sc, children[i]) ensures sc.hash(b) in db && db[sc.hash(b)] == b {
      assert b in before + Writes(sc, children[i]) + after;
    }
  }

  lemma RevertIsFaithful(sc: Scheme, arm: Arm, r: Run, h: HashValue)
    requires Faithful(sc, r) && h in r.roots
    ensures Faithful(sc, Apply(sc, arm, r, Revert(h)))
  {
    assert Rep(sc, r.state.db, Hashed(h), r.roots[h]);
  }

  lemma ApplyIsFaithful(sc: Scheme, arm: Arm, r: Run, op: Op)
    requires Faithful(sc, r) && LegalNext(r, op) && NoCollision(sc, Apply(sc, arm, r, op))
    ensures Faithful(sc, Apply(sc, arm, r, op))
    ensures SubDb(r.state.db, Apply(sc, arm, r, op).state.db)
  {
    match op
    case Put(key, value) => PutIsFaithful(sc, arm, r, key, value);
    case Commit => CommitIsFaithful(sc, r);
    case Revert(h) => RevertIsFaithful(sc, arm, r, h);
    case Prove(_, _) =>
      if r.state.dirty {
        CommitIsFaithful(sc, r);
      }
  }

  /** In every reachable state the root, and every committed root, stands for a stored canonical trie. */
  lemma {:induction false} RunIsFaithful(sc: Scheme, arm: Arm, ops: seq<Op>)
    requires Legal(sc, arm, ops) && NoCollision(sc, Exec(sc, arm, ops))
    ensures Faithful(sc, Exec(sc, arm, ops))
    decreases ops
  {
    if ops == [] {
    } else {
      var init := ops[..|ops| - 1];
      assert NoCollision(sc, Exec(sc, arm, init));
      RunIsFaithful(sc, arm, init);
      ApplyIsFaithful(sc, arm, Exec(sc, arm, init), ops[|ops| - 1]);
    }
  }

  /** In such a state a lookup is a lookup in the hash-free trie. */
  lemma FaithfulLookup(sc: Scheme, r: Run, key: Key)
    requires Faithful(sc, r)
    ensures GetValue(sc, r.state, key) == Done(Get(r.tree, ToNibbles(key)))
  {
    LinkGetIsGet(sc, r.state.db, r.state.root, r.tree, ToNibbles(key));
  }
}
