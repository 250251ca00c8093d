/** Merkle proofs: collecting the nodes on the path of a key, and looking the key up in them alone. */
module Proofs {
  import opened Base
  import opened Keys
  import opened Nodes
  import opened Schemes
  import opened NodeOps
  import opened Trees
  import opened Represent

  /** `verify_proof`: a lookup that starts from the root blob of the proof database. */
  function VerifyProof(sc: Scheme, root: HashValue, proof: Db, key: Key): Outcome<Option<Bytes>> {
    if root !in proof then Done(None)
    else
      match sc.decode(proof[root])
      case None => Failed(BadEncoding)
      case Some(n) => NodeGet(sc, proof, n, ToNibbles(key), {root})
  }

  /** `get_proof` once the trie is committed: the proof database and whether the key exists. */
  function ProofOf(sc: Scheme, db: Db, root: HashValue, key: Key): Collected {
    if root !in db then Collected(map[], Done(false))
    else
      match sc.decode(db[root])
      case None => Collected(map[], Failed(BadEncoding))
      case Some(n) => NodeProve(sc, db, map[root := db[root]], n, ToNibbles(key), {root})
  }

  // ---------- the nodes on a path ----------

  function PathDb(sc: Scheme, t: Tree, q: seq<int>): Db
    decreases t
  {
    match t
    case Nil => map[]
    case Tip(_, _) => map[HashOf(sc, t) := BlobOf(sc, t)]
    case Stem(pk, below) =>
      map[HashOf(sc, t) := BlobOf(sc, t)] + if pk <= q then PathDb(sc, below, q[|pk|..]) else map[]
    case Fork(kids, _) =>
      map[HashOf(sc, t) := BlobOf(sc, t)]
      + if q != [] && 0 <= q[0] < |kids| then PathDb(sc, kids[q[0]], q[1..]) else map[]
  }

  ghost predicate OnPath(sc: Scheme, d: Db, t: Tree, q: seq<int>)
    decreases t
  {
    t.Nil? ||
    (&& HashOf(sc, t) in d && d[HashOf(sc, t)] == BlobOf(sc, t)
     && match t
        case Tip(_, _) => true
        case Stem(pk, below) => pk <= q ==> OnPath(sc, d, below, q[|pk|..])
        case Fork(kids, _) => q != [] && 0 <= q[0] < |kids| ==> OnPath(sc, d, kids[q[0]], q[1..]))
  }

  /** No hash of a node of the tree leads to anything but that node. */
  ghost predicate Honest(sc: Scheme, d: Db, t: Tree)
    decreases t
  {
    t.Nil? ||
    (&& (HashOf(sc, t) in d ==> d[HashOf(sc, t)] == BlobOf(sc, t))
     && match t
        case Tip(_, _) => true
        case Stem(_, below) => Honest(sc, d, below)
        case Fork(kids, _) => forall i :: 0 <= i < |kids| ==> Honest(sc, d, kids[i]))
  }

  lemma {:induction false} PartOfStoreIsHonest(sc: Scheme, d: Db, db: Db, t: Tree)
    requires SubDb(d, db) && Stored(sc, db, t)
    ensures Honest(sc, d, t)
    decreases t
  {
    match t
    case Nil =>
    case Tip(_, _) =>
    case Stem(_, below) => PartOfStoreIsHonest(sc, d, db, below);
    case Fork(kids, _) =>
      forall i | 0 <= i < |kids| ensures Honest(sc, d, kids[i]) {
        PartOfStoreIsHonest(sc, d, db, kids[i]);
      }
  }

  lemma {:induction false} AddressedIsHonest(sc: Scheme, d: Db, t: Tree)
    requires ContentAddressed(sc, d) && CollisionFree(sc, d.Values + Blobs(sc, t))
    ensures Honest(sc, d, t)
    decreases t
  {
    if !t.Nil? && HashOf(sc, t) in d {
      assert d[HashOf(sc, t)] in d.Values && BlobOf(sc, t) in Blobs(sc, t);
    }
    match t
    case Nil =>
    case Tip(_, _) =>
    case Stem(_, below) => AddressedIsHonest(sc, d, below);
    case Fork(kids, here) =>
      forall i | 0 <= i < |kids| ensures Honest(sc, d, kids[i]) {
        KidBlobs(sc, kids, here, i);
        AddressedIsHonest(sc, d, kids[i]);
      }
  }

  // ---------- looking up in an honest database ----------

  /** The first hash on the path of a key that a database does not hold. */
  function FirstMissing(sc: Scheme, d: Db, t: Tree, q: seq<int>): Option<HashValue>
    decreases t
  {
    if t.Nil? then None
    else if HashOf(sc, t) !in d then Some(HashOf(sc, t))
    else
      match t
      case Tip(_, _) => None
      case Stem(pk, below) => if pk <= q then FirstMissing(sc, d, below, q[|pk|..]) else None
      case Fork(kids, _) => if q != [] && 0 <= q[0] < |kids| then FirstMissing(sc, d, kids[q[0]], q[1..]) else None
  }

  lemma {:induction false} FirstMissingIsOnPath(sc: Scheme, d: Db, t: Tree, q: seq<int>)
    ensures var h := FirstMissing(sc, d, t, q); h.Some? ==> h.value in PathDb(sc, t, q) && h.value !in d
    decreases t
  {
    match t
    case Nil =>
    case Tip(_, _) =>
    case Stem(pk, below) =>
      if pk <= q {
        FirstMissingIsOnPath(sc, d, below, q[|pk|..]);
      }
    case Fork(kids, _) =>
      if q != [] && 0 <= q[0] < |kids| {
        FirstMissingIsOnPath(sc, d, kids[q[0]], q[1..]);
      }
  }

  /** What a lookup in an honest database gives: the answer of the tree if the path is there, and otherwise the
      error for the first node that is not. */
  function AnswerWithin(sc: Scheme, d: Db, t: Tree, q: seq<int>): Outcome<Option<Bytes>> {
    match FirstMissing(sc, d, t, q)
    case Some(h) => Failed(MissingNode(h))
    case None => Done(Get(t, q))
  }

  /** In an honest database a lookup answers exactly when the path is there, and otherwise fails with the first
      missing node. It can fail in no other way. */
  lemma {:induction false} HonestLookup(sc: Scheme, d: Db, t: Tree, q: Bytes)
    requires Canon(t) && Honest(sc, d, t) && AllNibbles(q)
    ensures FirstMissing(sc, d, t, q) == None <==> OnPath(sc, d, t, q)
    ensures LinkGet(sc, d, LinkOf(sc, t), q, {}) == AnswerWithin(sc, d, t, q)
    decreases t, 1
  {
    if !t.Nil? && HashOf(sc, t) in d {
      DecodeBlobOf(sc, t);
      HonestNodeLookup(sc, d, t, q, {} + {HashOf(sc, t)});
    }
  }

  lemma {:induction false} HonestNodeLookup(sc: Scheme, d: Db, t: Tree, q: Bytes, seen: set<HashValue>)
    requires Canon(t) && !t.Nil? && Honest(sc, d, t) && AllNibbles(q) && HashOf(sc, t) in d
    ensures FirstMissing(sc, d, t, q) == None <==> OnPath(sc, d, t, q)
    ensures NodeGet(sc, d, NodeOf(sc, t), q, seen) == AnswerWithin(sc, d, t, q)
    decreases t, 0
  {
    match t
    case Tip(_, _) =>
    case Stem(pk, below) =>
      PrefixBySharedLen(pk, q);
      if pk <= q {
        HonestLookup(sc, d, below, q[|pk|..]);
      }
    case Fork(kids, _) =>
      if q == [] {
      } else {
        HonestLookup(sc, d, kids[q[0]], q[1..]);
      }
  }

  /** Where the path is there, the lookup answers right, whatever else the database holds. */
  lemma {:induction false} PathDecidesLookup(sc: Scheme, d: Db, t: Tree, q: Bytes)
    requires Canon(t) && OnPath(sc, d, t, q) && AllNibbles(q)
    ensures LinkGet(sc, d, LinkOf(sc, t), q, {}) == Done(Get(t, q))
    decreases t, 1
  {
    if t.Nil? {
    } else {
      DecodeBlobOf(sc, t);
      PathDecidesNodeLookup(sc, d, t, q, {} + {HashOf(sc, t)});
    }
  }

  lemma {:induction false} PathDecidesNodeLookup(sc: Scheme, d: Db, t: Tree, q: Bytes, seen: set<HashValue>)
    requires Canon(t) && !t.Nil? && OnPath(sc, d, t, q) && AllNibbles(q)
    ensures NodeGet(sc, d, NodeOf(sc, t), q, seen) == Done(Get(t, q))
    decreases t, 0
  {
    match t
    case Tip(_, _) =>
    case Stem(pk, below) =>
      PrefixBySharedLen(pk, q);
      if pk <= q {
        PathDecidesLookup(sc, d, below, q[|pk|..]);
      }
    case Fork(kids, _) =>
      if q == [] {
      } else {
        PathDecidesLookup(sc, d, kids[q[0]], q[1..]);
      }
  }

  lemma VerifyIsLookup(sc: Scheme, root: HashValue, d: Db, key: Key)
    ensures VerifyProof(sc, root, d, key)
         == if root in d then LinkGet(sc, d, Hashed(root), ToNibbles(key), {}) else Done(None)
  {
    assert {} + {root} == {root};
  }

  // ---------- collecting ----------

  lemma {:induction false} PathIsPartOfStore(sc: Scheme, db: Db, t: Tree, q: seq<int>)
    requires Stored(sc, db, t)
    ensures SubDb(PathDb(sc, t, q), db)
    decreases t
  {
    match t
    case Nil =>
    case Tip(_, _) =>
    case Stem(pk, below) =>
      if pk <= q {
        PathIsPartOfStore(sc, db, below, q[|pk|..]);
      }
    case Fork(kids, _) =>
      if q != [] && 0 <= q[0] < |kids| {
        PathIsPartOfStore(sc, db, kids[q[0]], q[1..]);
      }
  }

  /** The path is in a database exactly when its collected nodes are. */
  lemma {:induction false} OnPathIffPathDb(sc: Scheme, db: Db, d: Db, t: Tree, q: seq<int>)
    requires Stored(sc, db, t)
    ensures OnPath(sc, d, t, q) <==> SubDb(PathDb(sc, t, q), d)
    decreases t
  {
    if t.Nil? {
    } else {
      var rest: Db := map[];
      match t {
        case Tip(_, _) =>
        case Stem(pk, below) =>
          if pk <= q {
            rest := PathDb(sc, below, q[|pk|..]);
            PathIsPartOfStore(sc, db, below, q[|pk|..]);
            OnPathIffPathDb(sc, db, d, below, q[|pk|..]);
          }
        case Fork(kids, _) =>
          if q != [] && 0 <= q[0] < |kids| {
            rest := PathDb(sc, kids[q[0]], q[1..]);
            PathIsPartOfStore(sc, db, kids[q[0]], q[1..]);
            OnPathIffPathDb(sc, db, d, kids[q[0]], q[1..]);
          }
      }
      AddRoot(HashOf(sc, t), BlobOf(sc, t), rest, db, d);
      assert PathDb(sc, t, q) == map[HashOf(sc, t) := BlobOf(sc, t)] + rest;
    }
  }

  lemma AddRoot(h: HashValue, b: Blob, rest: Db, db: Db, d: Db)
    requires SubDb(rest, db) && h in db && db[h] == b
    ensures SubDb(map[h := b] + rest, d) <==> h in d && d[h] == b && SubDb(rest, d)
  {
    var all := map[h := b] + rest;
    assert all[h] == b;
    assert forall k :: k in rest ==> k in all && all[k] == rest[k];
  }

  lemma {:induction false} ProveCollectsPath(sc: Scheme, db: Db, proof: Db, t: Tree, q: Bytes)
    requires Canon(t) && Stored(sc, db, t) && AllNibbles(q)
    ensures LinkProve(sc, db, proof, LinkOf(sc, t), q, {})
         == Collected(proof + PathDb(sc, t, q), Done(Get(t, q).Some?))
    decreases t, 1
  {
    if t.Nil? {
      assert proof + map[] == proof;
    } else {
      LoadStored(sc, db, t);
      NodeProveCollectsPath(sc, db, proof, t, q, {} + {HashOf(sc, t)});
    }
  }

  lemma {:induction false} NodeProveCollectsPath(sc: Scheme, db: Db, proof: Db, t: Tree, q: Bytes, seen: set<HashValue>)
    requires Canon(t) && !t.Nil? && Stored(sc, db, t) && AllNibbles(q)
    ensures NodeProve(sc, db, proof[HashOf(sc, t) := BlobOf(sc, t)], NodeOf(sc, t), q, seen)
         == Collected(proof + PathDb(sc, t, q), Done(Get(t, q).Some?))
    decreases t, 0
  {
    var own := map[HashOf(sc, t) := BlobOf(sc, t)];
    var with := proof[HashOf(sc, t) := BlobOf(sc, t)];
    assert with == proof + own && own + map[] == own;
    match t
    case Tip(_, _) =>
    case Stem(pk, below) =>
      PrefixBySharedLen(pk, q);
      if pk <= q {
        ProveCollectsPath(sc, db, with, below, q[|pk|..]);
        UnionAssociates(proof, own, PathDb(sc, below, q[|pk|..]));
      }
    case Fork(kids, _) =>
      if q == [] {
      } else {
        ProveCollectsPath(sc, db, with, kids[q[0]], q[1..]);
        UnionAssociates(proof, own, PathDb(sc, kids[q[0]], q[1..]));
      }
  }

  lemma UnionAssociates(a: Db, b: Db, c: Db)
    ensures (a + b) + c == a + (b + c)
  {
  }

  /** A path has one node more than it consumes nibbles. */
  lemma {:induction false} PathSize(sc: Scheme, t: Tree, q: seq<int>)
    requires Canon(t)
    ensures |PathDb(sc, t, q)| <= |q| + 1
    decreases t
  {
    match t
    case Nil =>
    case Tip(_, _) =>
    case Stem(pk, below) =>
      if pk <= q {
        PathSize(sc, below, q[|pk|..]);
        OneMore(HashOf(sc, t), BlobOf(sc, t), PathDb(sc, below, q[|pk|..]));
      }
    case Fork(kids, _) =>
      if q != [] && 0 <= q[0] < |kids| {
        PathSize(sc, kids[q[0]], q[1..]);
        OneMore(HashOf(sc, t), BlobOf(sc, t), PathDb(sc, kids[q[0]], q[1..]));
      }
  }

  lemma OneMore(h: HashValue, b: Blob, rest: Db)
    ensures |map[h := b] + rest| <= |rest| + 1
  {
    assert (map[h := b] + rest).Keys == {h} + rest.Keys;
  }

  // ---------- the protocol ----------

  /** For a stored tree the proof is the path of the key, and says whether the key exists. */
  lemma ProofIsPath(sc: Scheme, db: Db, t: Tree, key: Key)
    requires Canon(t) && !t.Nil? && Stored(sc, db, t)
    ensures ProofOf(sc, db, HashOf(sc, t), key)
         == Collected(PathDb(sc, t, ToNibbles(key)), Done(Get(t, ToNibbles(key)).Some?))
  {
    var root := HashOf(sc, t);
    DecodeBlobOf(sc, t);
    NodeProveCollectsPath(sc, db, map[], t, ToNibbles(key), {root});
    assert map[][root := db[root]] == map[root := db[root]];
    assert map[] + PathDb(sc, t, ToNibbles(key)) == PathDb(sc, t, ToNibbles(key));
  }

  /** Completeness: the proof of any key, present or absent, verifies to the answer of the full database;
      it holds nothing that is not in that database, and at most one node per nibble and one more. */
  lemma ProofIsComplete(sc: Scheme, db: Db, t: Tree, key: Key)
    requires Canon(t) && !t.Nil? && Stored(sc, db, t)
    ensures var c := ProofOf(sc, db, HashOf(sc, t), key);
      && c.found == Done(Get(t, ToNibbles(key)).Some?)
      && VerifyProof(sc, HashOf(sc, t), c.proof, key) == Done(Get(t, ToNibbles(key)))
      && VerifyProof(sc, HashOf(sc, t), c.proof, key) == LinkGet(sc, db, Hashed(HashOf(sc, t)), ToNibbles(key), {})
      && SubDb(c.proof, db) && HashOf(sc, t) in c.proof && |c.proof| <= 2 * |key| + 1
  {
    var q := ToNibbles(key);
    var d := PathDb(sc, t, q);
    ProofIsPath(sc, db, t, key);
    PathIsPartOfStore(sc, db, t, q);
    OnPathIffPathDb(sc, db, d, t, q);
    PathDecidesLookup(sc, d, t, q);
    VerifyIsLookup(sc, HashOf(sc, t), d, key);
    LinkGetIsGet(sc, db, Hashed(HashOf(sc, t)), t, q);
    PathSize(sc, t, q);
  }

  /** Minimality: of the parts of the full database that hold the root, exactly those that contain the proof
      let the key be looked up at all, and they all give the same answer; on the others verification fails with
      the first node of the proof that is missing. */
  lemma ProofIsLeast(sc: Scheme, db: Db, t: Tree, key: Key, d: Db)
    requires Canon(t) && !t.Nil? && Stored(sc, db, t) && SubDb(d, db)
    ensures var root, c := HashOf(sc, t), ProofOf(sc, db, HashOf(sc, t), key);
      && (root in d && VerifyProof(sc, root, d, key).Done? <==> SubDb(c.proof, d))
      && (SubDb(c.proof, d) ==> VerifyProof(sc, root, d, key) == Done(Get(t, ToNibbles(key))))
      && (VerifyProof(sc, root, d, key).Done? && VerifyProof(sc, root, d, key).value.Some? ==> SubDb(c.proof, d))
      && (root in d && !SubDb(c.proof, d) ==>
            var h := FirstMissing(sc, d, t, ToNibbles(key));
            && h.Some? && h.value in c.proof && h.value !in d
            && VerifyProof(sc, root, d, key) == Failed(MissingNode(h.value)))
  {
    var q := ToNibbles(key);
    ProofIsPath(sc, db, t, key);
    FirstMissingIsOnPath(sc, d, t, q);
    PartOfStoreIsHonest(sc, d, db, t);
    OnPathIffPathDb(sc, db, d, t, q);
    HonestLookup(sc, d, t, q);
    VerifyIsLookup(sc, HashOf(sc, t), d, key);
    if OnPath(sc, d, t, q) {
      PathDecidesLookup(sc, d, t, q);
    }
  }

  /** Any database that contains the proof, whatever else it holds, verifies to the same answer. */
  lemma SupersetOfProofVerifies(sc: Scheme, db: Db, t: Tree, key: Key, d: Db)
    requires Canon(t) && !t.Nil? && Stored(sc, db, t)
    requires SubDb(ProofOf(sc, db, HashOf(sc, t), key).proof, d)
    ensures VerifyProof(sc, HashOf(sc, t), d, key) == Done(Get(t, ToNibbles(key)))
  {
    ProofIsPath(sc, db, t, key);
    OnPathIffPathDb(sc, db, d, t, ToNibbles(key));
    PathDecidesLookup(sc, d, t, ToNibbles(key));
    VerifyIsLookup(sc, HashOf(sc, t), d, key);
  }

  /** Soundness: whoever made the proof database, if its blobs sit under their own hashes and collide with
      none of the tree, a verified value is the value of the key, and a verified absence (with the root
      present) is its absence; the one way to fail is a node of the path that is missing. */
  lemma ProofIsSound(sc: Scheme, t: Tree, key: Key, d: Db)
    requires Canon(t) && !t.Nil?
    requires ContentAddressed(sc, d) && CollisionFree(sc, d.Values + Blobs(sc, t))
    ensures var root, r, answer := HashOf(sc, t), VerifyProof(sc, HashOf(sc, t), d, key), Get(t, ToNibbles(key));
      && (r.Done? && r.value.Some? ==> answer == r.value)
      && (r.Done? && root in d ==> answer == r.value)
      && (root in d && r.Done? <==> OnPath(sc, d, t, ToNibbles(key)))
      && (r.Failed? ==>
            exists h: HashValue :: FirstMissing(sc, d, t, ToNibbles(key)) == Some(h) && r == Failed(MissingNode(h)))
  {
    AddressedIsHonest(sc, d, t);
    HonestLookup(sc, d, t, ToNibbles(key));
    VerifyIsLookup(sc, HashOf(sc, t), d, key);
    if OnPath(sc, d, t, ToNibbles(key)) {
      PathDecidesLookup(sc, d, t, ToNibbles(key));
    }
  }

  /** The addressing is needed, as verification reads blobs without hashing them: with any one leaf stored
      under the root, verification tells the value of that leaf. */
  lemma SoundnessNeedsAddressing(sc: Scheme, root: HashValue, key: Key, v: Bytes)
    ensures VerifyProof(sc, root, map[root := sc.encode(Leaf(ToNibbles(key), v))], key) == Done(Some(v))
  {
    var n := Leaf(ToNibbles(key), v);
    assert NodeSized(n);
    assert sc.decode(sc.encode(n)) == Some(n);
  }
}
