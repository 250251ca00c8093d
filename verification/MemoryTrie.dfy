/** The trie as an object: `MemoryTrie` with the operations of the `Trie` trait, and the two
    node operations that write a database as they recurse. */
module MemoryTrie {
  import opened Base
  import opened Keys
  import opened Nodes
  import opened Schemes
  import opened NodeOps
  import opened Trees
  import opened TrieState
  import opened Runs
  import opened Maps
  import opened Theorems
  import opened Database
  import opened Represent
  import opened PlainRecursion
  import opened Lookups
  import opened Insertions
  import AnyState
  import AnyRuns
  import Proofs

  // ---------- collapse ----------

  method CollapseLink(sc: Scheme, db: MemoryDatabase, link: Link) returns (r: Link)
    modifies db
    ensures r == Shut(sc, link)
    ensures db.data == PutAll(sc, old(db.data), Writes(sc, link))
    decreases link
  {
    match link
    case Mem(n) => r := CollapseNode(sc, db, n);
    case _ => r := link;
  }

  method CollapseNode(sc: Scheme, db: MemoryDatabase, n: Node) returns (r: Link)
    modifies db
    ensures r == Shut(sc, Mem(n))
    ensures db.data == PutAll(sc, old(db.data), NodeWrites(sc, n))
    decreases n, 1
  {
    var shut: Node;
    ghost var below: seq<Blob>;
    match n {
      case Leaf(_, _) =>
        shut, below := n, [];
      case Extension(pk, child) =>
        var child' := CollapseLink(sc, db, child);
        shut, below := Extension(pk, child'), Writes(sc, child);
      case Branch(children, value) =>
        var children' := CollapseChildren(sc, db, children);
        shut, below := Branch(children', value), WritesAll(sc, children);
    }
    var blob := sc.encode(shut);
    var h := sc.hash(blob);
    db.Insert(h, blob);
    PutAllAppend(sc, old(db.data), below, [blob]);
    r := Hashed(h);
  }

  /** The loop over the children, in order; while it runs the database only receives the writes so far. */
  method CollapseChildren(sc: Scheme, db: MemoryDatabase, children: seq<Link>) returns (collapsed: seq<Link>)
    modifies db
    ensures collapsed == ShutAll(sc, children)
    ensures db.data == PutAll(sc, old(db.data), WritesAll(sc, children))
    decreases children
  {
    collapsed := seq(|children|, _ => Empty);
    for i := 0 to |children|
      invariant |collapsed| == |children|
      invariant forall j :: 0 <= j < i ==> collapsed[j] == Shut(sc, children[j])
      invariant db.data == PutAll(sc, old(db.data), WritesAll(sc, children[..i]))
    {
      var child := CollapseLink(sc, db, children[i]);
      collapsed := collapsed[i := child];
      assert children[..i + 1][..i] == children[..i];
      PutAllAppend(sc, old(db.data), WritesAll(sc, children[..i]), Writes(sc, children[i]));
    }
    assert children[..|children|] == children;
  }

  // ---------- collecting a proof ----------

  method CollectLink(sc: Scheme, db: MemoryDatabase, proofDb: MemoryDatabase, link: Link, key: Bytes,
                     seen: set<HashValue>)
    returns (found: Outcome<bool>)
    requires db != proofDb
    modifies proofDb
    ensures Collected(proofDb.data, found) == LinkProve(sc, db.data, old(proofDb.data), link, key, seen)
    decreases |key|, db.data.Keys - seen, link
  {
    match link
    case Empty => found := Done(false);
    case Mem(n) => found := CollectNode(sc, db, proofDb, n, key, seen);
    case Hashed(h) =>
      var blob := db.Get(h);
      if blob.None? {
        return Failed(MissingNode(h));
      }
      var n := sc.decode(blob.value);
      if n.None? {
        return Failed(BadEncoding);
      }
      proofDb.Insert(h, blob.value);
      if h in seen {
        return Failed(EndlessRecursion);
      }
      found := CollectNode(sc, db, proofDb, n.value, key, seen + {h});
  }

  method CollectNode(sc: Scheme, db: MemoryDatabase, proofDb: MemoryDatabase, n: Node, key: Bytes, seen: set<HashValue>)
    returns (found: Outcome<bool>)
    requires db != proofDb
    modifies proofDb
    ensures Collected(proofDb.data, found) == NodeProve(sc, db.data, old(proofDb.data), n, key, seen)
    decreases |key|, db.data.Keys - seen, n
  {
    match n
    case Leaf(rest, _) => found := Done(rest == key);
    case Extension(pk, child) =>
      var shared, _, restOfKey := ParseNibbleSlicesSharedPortion(pk, key);
      if shared != pk {
        return Done(false);
      }
      assert restOfKey == key[|pk|..];
      found := CollectLink(sc, db, proofDb, child, restOfKey, if pk == [] then seen else {});
    case Branch(children, value) =>
      if key == [] {
        return Done(value.Some?);
      }
      if key[0] >= |children| {
        return Failed(IndexOutOfRange);
      }
      found := CollectLink(sc, db, proofDb, children[key[0]], key[1..], {});
  }

  /** Gives what stands at the end of the path of the key in the proof database, failures included. A missing root
      is no answer. */
  method VerifyProof(sc: Scheme, rootHash: HashValue, proofDb: MemoryDatabase,
                     key: Key) returns (r: Outcome<Option<Bytes>>)
    ensures r == Proofs.VerifyProof(sc, rootHash, proofDb.data, key)
    ensures rootHash !in proofDb.data ==> r == Done(None)
    ensures rootHash in proofDb.data ==> LookupIs(sc, proofDb.data, Hashed(rootHash), ToNibbles(key), r)
    ensures rootHash in proofDb.data && sc.decode(proofDb.data[rootHash]) == None ==> r == Failed(BadEncoding)
  {
    AnyState.VerifyOnAnyDatabase(sc, proofDb.data, rootHash, key, Proofs.VerifyProof(sc, rootHash, proofDb.data, key));
    var blob := proofDb.Get(rootHash);
    if blob.None? {
      return Done(None);
    }
    var n := sc.decode(blob.value);
    if n.None? {
      return Failed(BadEncoding);
    }
    var keyNb := ConvertBytesToNibbles(key);
    r := NodeGet(sc, proofDb.data, n.value, keyNb, {rootHash});
  }

  // ---------- the object ----------

  /** What a commit leaves as root: the hash of the trie, which is empty exactly if the map is. */
  lemma CommitGivesRoot(sc: Scheme, arm: Arm, ops: seq<Op>)
    requires Legal(sc, arm, ops) && NoCollision(sc, CommitRun(sc, Exec(sc, arm, ops)))
    ensures var r := Exec(sc, arm, ops);
      && CommitStep(sc, r.state).root == LinkOf(sc, r.tree)
      && (KeepsPrefixes(sc, arm, ops) ==> (r.tree.Nil? <==> r.current == map[]))
  {
    var r := Exec(sc, arm, ops);
    CommitGrows(sc, r);
    RunIsFaithful(sc, arm, ops);
    CommitIsFaithful(sc, r);
    if KeepsPrefixes(sc, arm, ops) {
      NoRootIffEmptyMap(sc, arm, ops);
    }
  }

  lemma LookupsTold(sc: Scheme, db: Db, link: Link, key: Bytes)
    ensures forall r :: LookupIs(sc, db, link, key, r) <==> r == LinkGet(sc, db, link, key, {})
  {
    forall r ensures LookupIs(sc, db, link, key, r) <==> r == LinkGet(sc, db, link, key, {}) {
      LookupIsAtEndOfPath(sc, db, link, key, r);
    }
  }

  class MemoryTrie {
    const sc: Scheme
    const arm: Arm
    const db: MemoryDatabase
    var rootNode: Link
    var dirty: bool
    /** The operations so far. */
    ghost var log: seq<Op>

    ghost function Abs(): State
      reads this, db
    {
      State(rootNode, db.data, dirty)
    }

    /** The run behind this object, with the map it holds and the maps of its committed roots. */
    ghost function History(): Run
      reads this
    {
      Exec(sc, arm, log)
    }

    ghost predicate Valid()
      reads this, db
    {
      Abs() == History().state
    }

    /** Only committed roots were reverted to and no two written blobs collided. */
    ghost predicate Trusted()
      reads this
    {
      Legal(sc, arm, log) && NoCollision(sc, History())
    }

    /** No insertion lost a prefix. */
    ghost predicate Kept()
      reads this
    {
      KeepsPrefixes(sc, arm, log)
    }

    constructor (hash: Hasher, arm: Arm)
      ensures Valid() && fresh(db)
      ensures sc == Bincode(hash) && this.arm == arm
      ensures log == [] && Abs() == NEW_TRIE && History().current == map[]
    {
      sc := Bincode(hash);
      this.arm := arm;
      rootNode := Empty;
      db := new MemoryDatabase();
      dirty := false;
      log := [];
    }

    method TakeRootNode() returns (root: Link)
      modifies this`rootNode
      ensures root == old(rootNode) && rootNode == Empty
    {
      root := rootNode;
      rootNode := Empty;
    }

    method SetRootNode(node: Link)
      modifies this`rootNode
      ensures rootNode == node
    {
      rootNode := node;
    }

    method SetDirty(d: bool)
      modifies this`dirty
      ensures dirty == d
    {
      dirty := d;
    }

    /** Changes one key of the map. It fails as the path of the key says, in any state, and misses a node or meets a
        malformed blob exactly where a lookup of the key does. Then it has taken the root and does not put it back. */
    method Insert(key: Key, value: Bytes) returns (r: Outcome<()>)
      requires Valid()
      modifies this
      ensures Valid() && log == old(log) + [Put(key, value)]
      ensures (Abs(), r) == InsertStep(sc, arm, old(Abs()), key, value)
      ensures db.data == old(db.data)
      ensures InsertFaultIs(sc, db.data, old(rootNode), ToNibbles(key), FaultOf(r))
      ensures r.Failed? ==> rootNode == Empty && dirty == old(dirty)
      ensures r.Done? ==> rootNode.Mem? && dirty
      ensures forall h: HashValue :: r == Failed(MissingNode(h)) <==>
        LookupIs(sc, db.data, old(rootNode), ToNibbles(key), Failed(MissingNode(h)))
      ensures r == Failed(BadEncoding) <==>
        LookupIs(sc, db.data, old(rootNode), ToNibbles(key), Failed(BadEncoding))
      ensures forall h: HashValue :: old(rootNode) == Hashed(h) && h !in db.data ==> r == Failed(MissingNode(h))
      ensures History().current == old(History().current)[key := value]
      ensures Trusted() ==> r == Done(()) && dirty
    {
      AnyState.InsertInAnyState(sc, arm, Abs(), key, value);
      AnyState.InsertFailsLikeGet(sc, arm, Abs(), key, value);
      LookupsTold(sc, db.data, rootNode, ToNibbles(key));
      ExecNext(sc, arm, log, Put(key, value));
      ghost var before := log;
      log := log + [Put(key, value)];
      var keyNb := ConvertBytesToNibbles(key);
      var root := TakeRootNode();
      var root' := LinkInsert(sc, arm, db.data, root, keyNb, value, {});
      if root'.Failed? {
        r := Failed(root'.fault);
      } else {
        SetRootNode(root'.value);
        SetDirty(true);
        r := Done(());
      }
      if Trusted() {
        assert NoCollision(sc, Exec(sc, arm, before));
        NothingFails(sc, arm, before, key, value);
      }
    }

    /** Looks a key up: in any state it gives what stands at the end of the path of the key, failures included, and in
        a trusted one what the map says. Whatever was reverted to, only the root itself can be missing. */
    method GetValue(key: Key) returns (r: Outcome<Option<Bytes>>)
      requires Valid()
      ensures r == TrieState.GetValue(sc, Abs(), key)
      ensures LookupIs(sc, db.data, rootNode, ToNibbles(key), r)
      ensures forall h: HashValue :: rootNode == Hashed(h) && h !in db.data ==> r == Failed(MissingNode(h))
      ensures rootNode == Empty ==> r == Done(None)
      ensures NoCollision(sc, History()) ==>
        r.Done? || (rootNode.Hashed? && rootNode.h !in db.data && r == Failed(MissingNode(rootNode.h)))
      ensures Trusted() ==> r.Done?
      ensures Trusted() && Kept() ==> r == Done(Lookup(History().current, key))
    {
      var keyNb := ConvertBytesToNibbles(key);
      r := LinkGet(sc, db.data, rootNode, keyNb, {});
      AnyState.GetInAnyState(sc, Abs(), key, r);
      if NoCollision(sc, History()) {
        AnyRuns.OnlyTheRootCanBeMissing(sc, arm, log, key, [], seq(HASH_SIZE, _ => 0));
      }
      if Trusted() {
        NothingFails(sc, arm, log, key, []);
        if Kept() {
          TrieRefinesMap(sc, arm, log, key);
        }
      }
    }

    /** Stores the trie and returns its root hash, or nothing for an empty trie; the match on the new root has no
        third case. */
    method Commit() returns (r: Option<HashValue>)
      requires Valid()
      modifies this, db
      ensures Valid() && log == old(log) + [Runs.Commit]
      ensures Abs() == CommitStep(sc, old(Abs())) && r == CommitResult(Abs().root)
      ensures !dirty && rootNode == (match r case Some(h) => Hashed(h) case None => Empty)
      ensures !old(rootNode.Mem?) ==> rootNode == old(rootNode) && db.data == old(db.data)
      ensures old(rootNode.Mem?) ==> r.Some? && r.value in db.data && sc.hash(db.data[r.value]) == r.value
      ensures History().current == old(History().current) && History().tree == old(History().tree)
      ensures Trusted() ==> r == if History().tree.Nil? then None else Some(HashOf(sc, History().tree))
      ensures Trusted() && Kept() ==> (r.None? <==> History().current == map[])
      ensures r.Some? ==> r.value in History().saved && History().saved[r.value] == History().current
    {
      ExecNext(sc, arm, log, Runs.Commit);
      AnyState.CommitInAnyState(sc, Abs());
      ghost var before := log;
      log := log + [Runs.Commit];
      r := CommitNow();
      if Trusted() {
        CommitGivesRoot(sc, arm, before);
      }
    }

    /** The steps of `commit`. */
    method CommitNow() returns (r: Option<HashValue>)
      modifies this`rootNode, this`dirty, db
      ensures Abs() == CommitStep(sc, old(Abs())) && r == CommitResult(Abs().root)
    {
      var root := TakeRootNode();
      root := CollapseLink(sc, db, root);
      SetRootNode(root);
      SetDirty(false);
      match rootNode
      case Hashed(h) => r := Some(h);
      case Empty => r := None;
    }

    /** Goes back to a root, stored or not, and leaves the trie clean; if it was committed, to the map it had. */
    method Revert(rootHash: HashValue)
      requires Valid()
      modifies this
      ensures Valid() && log == old(log) + [Runs.Revert(rootHash)]
      ensures Abs() == RevertStep(old(Abs()), rootHash)
      ensures rootNode == Hashed(rootHash) && !dirty && db.data == old(db.data)
      ensures rootHash in old(History()).saved ==> History().current == old(History()).saved[rootHash]
    {
      ExecNext(sc, arm, log, Runs.Revert(rootHash));
      log := log + [Runs.Revert(rootHash)];
      SetRootNode(Hashed(rootHash));
      SetDirty(false);
    }

    /** `get_proof` after its commit. */
    method CollectFromRoot(rootHash: HashValue, key: Key) returns (found: Outcome<bool>, proofDb: MemoryDatabase)
      ensures fresh(proofDb)
      ensures found == Proofs.ProofOf(sc, db.data, rootHash, key).found
      ensures found.Done? ==> proofDb.data == Proofs.ProofOf(sc, db.data, rootHash, key).proof
      ensures rootHash !in db.data ==> found == Done(false) && proofDb.data == map[]
      ensures rootHash in db.data ==>
        exists r :: LookupIs(sc, db.data, Hashed(rootHash), ToNibbles(key), r) && found == Existence(r)
      ensures rootHash in db.data && found.Done? ==>
        AddsVisited(sc, db.data, Hashed(rootHash), ToNibbles(key), map[], proofDb.data)
      ensures rootHash in db.data && found.Done? ==>
        LookupIs(sc, db.data, Hashed(rootHash), ToNibbles(key), Proofs.VerifyProof(sc, rootHash, proofDb.data, key))
    {
      LookupsTold(sc, db.data, Hashed(rootHash), ToNibbles(key));
      AnyState.ProofOnAnyDatabaseVerifies(sc, db.data, rootHash, key);
      AnyState.ProofOnAnyDatabase(sc, db.data, rootHash, key,
                                  LinkGet(sc, db.data, Hashed(rootHash), ToNibbles(key), {}));
      proofDb := new MemoryDatabase();
      var blob := db.Get(rootHash);
      if blob.None? {
        found := Done(false);
      } else {
        var n := sc.decode(blob.value);
        if n.None? {
          found := Failed(BadEncoding);
        } else {
          var keyNb := ConvertBytesToNibbles(key);
          proofDb.Insert(rootHash, blob.value);
          found := CollectNode(sc, db, proofDb, n.value, keyNb, {rootHash});
        }
      }
    }

    /** Collects the nodes on the path of a key below a root, after committing a dirty trie. A root that is not stored
        has an empty proof. The proof holds the blobs a lookup reads, no others, and verifies to what it gives; for a
        committed root that is what the root says of the key. */
    method GetProof(rootHash: HashValue, key: Key) returns (found: Outcome<bool>, proofDb: MemoryDatabase)
      requires Valid()
      modifies this, db
      ensures Valid() && log == old(log) + [Prove(rootHash, key)] && fresh(proofDb)
      ensures Abs() == ProveStep(sc, old(Abs()))
      ensures found == Proofs.ProofOf(sc, db.data, rootHash, key).found
      ensures found.Done? ==> proofDb.data == Proofs.ProofOf(sc, db.data, rootHash, key).proof
      ensures !old(dirty) ==> Abs() == old(Abs())
      ensures !dirty && (old(dirty) ==> !rootNode.Mem?)
      ensures rootHash !in db.data ==> found == Done(false) && proofDb.data == map[]
      ensures rootHash in db.data ==>
        exists r :: LookupIs(sc, db.data, Hashed(rootHash), ToNibbles(key), r) && found == Existence(r)
      ensures rootHash in db.data && found.Done? ==>
        AddsVisited(sc, db.data, Hashed(rootHash), ToNibbles(key), map[], proofDb.data)
      ensures rootHash in db.data && found.Done? ==>
        LookupIs(sc, db.data, Hashed(rootHash), ToNibbles(key), Proofs.VerifyProof(sc, rootHash, proofDb.data, key))
      ensures NoCollision(sc, History()) ==> found.Done?
      ensures Trusted() && rootHash in History().roots ==>
        var answer := Get(History().roots[rootHash], ToNibbles(key));
        && found == Done(answer.Some?)
        && Proofs.VerifyProof(sc, rootHash, proofDb.data, key) == Done(answer)
        && |proofDb.data| <= 2 * |key| + 1
    {
      ExecNext(sc, arm, log, Prove(rootHash, key));
      log := log + [Prove(rootHash, key)];
      AnyState.CommitInAnyState(sc, Abs());
      if dirty {
        var _ := CommitNow();
      }
      found, proofDb := CollectFromRoot(rootHash, key);
      if NoCollision(sc, History()) {
        AnyRuns.OnlyTheRootCanBeMissing(sc, arm, log, key, [], rootHash);
      }
      if Trusted() && rootHash in History().roots {
        CommittedRootsHaveProofs(sc, arm, log, rootHash, key, proofDb.data);
      }
    }
  }
}
