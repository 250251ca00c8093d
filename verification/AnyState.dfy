/** The operations of the trie in any state whatever, on any database: reverted to a root that is not there,
    left empty by a failed insertion, or handed blobs nobody has checked. */
module AnyState {
  import opened Base
  import opened Keys
  import opened Nodes
  import opened Schemes
  import opened NodeOps
  import opened PlainRecursion
  import opened Lookups
  import opened Insertions
  import opened Collapse
  import opened Proofs
  import opened TrieState

  // ---------- lookup and revert ----------

  /** The root is a hash the database does not hold. */
  predicate Dangling(s: State) {
    s.root.Hashed? && s.root.h !in s.db
  }

  /** `get_value` gives what stands at the end of the path of the key, and passes every failure on. */
  lemma GetInAnyState(sc: Scheme, s: State, key: Key, r: Outcome<Option<Bytes>>)
    ensures LookupIs(sc, s.db, s.root, ToNibbles(key), r) <==> r == GetValue(sc, s, key)
    ensures Dangling(s) ==> GetValue(sc, s, key) == Failed(MissingNode(s.root.h))
    ensures s.root.Empty? ==> GetValue(sc, s, key) == Done(None)
  {
    LookupIsAtEndOfPath(sc, s.db, s.root, ToNibbles(key), r);
  }

  /** After `revert` the trie is clean and its lookups are those of the given root, there or not. */
  lemma RevertInAnyState(sc: Scheme, s: State, h: HashValue, key: Key)
    ensures var s' := RevertStep(s, h);
      && s'.root == Hashed(h) && !s'.dirty && s'.db == s.db
      && GetValue(sc, s', key) == LinkGet(sc, s.db, Hashed(h), ToNibbles(key), {})
      && LookupIs(sc, s.db, Hashed(h), ToNibbles(key), GetValue(sc, s', key))
      && (h !in s.db ==> GetValue(sc, s', key) == Failed(MissingNode(h)))
  {
    LookupIsAtEndOfPath(sc, s.db, Hashed(h), ToNibbles(key), GetValue(sc, RevertStep(s, h), key));
  }

  // ---------- insertion ----------

  /** An insertion reads the database and does not write it. If it fails, it fails as the path of the key says, and
      the root is gone; if it does not, the root is in memory and the trie is dirty. */
  lemma InsertInAnyState(sc: Scheme, arm: Arm, s: State, key: Key, value: Bytes)
    ensures var s', r := InsertStep(sc, arm, s, key, value).0, InsertStep(sc, arm, s, key, value).1;
      && s'.db == s.db
      && InsertFaultIs(sc, s.db, s.root, ToNibbles(key), FaultOf(r))
      && (r.Failed? ==> s'.root == Empty && s'.dirty == s.dirty)
      && (r.Done? ==> s'.root.Mem? && s'.dirty)
  {
    var r := LinkInsert(sc, arm, s.db, s.root, ToNibbles(key), value, {});
    InsertionFailsAtEndOfPath(sc, arm, s.db, s.root, ToNibbles(key), value, FaultOf(r));
    InsertionFailsLikeLookup(sc, arm, s.db, s.root, ToNibbles(key), value);
  }

  /** It misses a node or meets a malformed blob exactly where `get_value` of the key does, and fails wherever
      that fails. */
  lemma InsertFailsLikeGet(sc: Scheme, arm: Arm, s: State, key: Key, value: Bytes)
    ensures var r, found := InsertStep(sc, arm, s, key, value).1, GetValue(sc, s, key);
      && (forall h: HashValue :: r == Failed(MissingNode(h)) <==> found == Failed(MissingNode(h)))
      && (r == Failed(BadEncoding) <==> found == Failed(BadEncoding))
      && (r == Failed(EndlessRecursion) <==> found == Failed(EndlessRecursion))
      && (found.Failed? ==> r == Failed(found.fault))
      && (Dangling(s) ==> r == Failed(MissingNode(s.root.h)))
  {
    InsertionFailsLikeLookup(sc, arm, s.db, s.root, ToNibbles(key), value);
  }

  /** Where it does not fail, and keeps the prefix, it changes the outcome of one key and of no other. */
  lemma InsertChangesOneKey(sc: Scheme, arm: Arm, s: State, key: Key, value: Bytes, k: Key)
    ensures var s', r := InsertStep(sc, arm, s, key, value).0, InsertStep(sc, arm, s, key, value).1;
      r.Done? && (arm.Wrapping? || !DropsAtEnd(sc, s.db, s.root, ToNibbles(key))) ==>
        GetValue(sc, s', k) == if k == key then Done(Some(value)) else GetValue(sc, s, k)
  {
    NibblesAreABijection(key, k, []);
    VersionsAgree(sc, s.db, s.root, ToNibbles(key), value, {});
    InsertionChangesOneKey(sc, s.db, s.root, ToNibbles(key), value, {}, ToNibbles(k));
  }

  // ---------- commit ----------

  /** A commit leaves a clean trie with a hash or nothing for root, and returns that hash. A root that was not in
      memory stays, and nothing is written; one that was is stored under the hash that is returned. */
  lemma CommitInAnyState(sc: Scheme, s: State)
    ensures var s' := CommitStep(sc, s);
      && !s'.root.Mem? && !s'.dirty
      && (match CommitResult(s'.root)
          case Some(h) => s'.root == Hashed(h)
          case None => s'.root == Empty)
      && (!s.root.Mem? ==> s'.root == s.root && s'.db == s.db)
      && (s.root.Mem? ==> s'.root.Hashed? && s'.root.h in s'.db && sc.hash(s'.db[s'.root.h]) == s'.root.h)
      && forall h: HashValue :: NotWritten(sc, Writes(sc, s.root), h) ==>
           (h in s'.db <==> h in s.db) && (h in s.db ==> s'.db[h] == s.db[h])
  {
    var blobs := Writes(sc, s.root);
    forall h: HashValue | NotWritten(sc, blobs, h)
      ensures h in PutAll(sc, s.db, blobs) <==> h in s.db
      ensures h in s.db ==> PutAll(sc, s.db, blobs)[h] == s.db[h]
    {
      LastWriteStands(sc, s.db, blobs, h);
    }
    if s.root.Mem? {
      LastWrite(sc, s.root.node);
      LastWriteStands(sc, s.db, blobs, sc.hash(blobs[|blobs| - 1]));
    }
  }

  // ---------- proofs ----------

  lemma ProofIsProve(sc: Scheme, db: Db, root: HashValue, key: Key)
    requires root in db
    ensures ProofOf(sc, db, root, key) == LinkProve(sc, db, map[], Hashed(root), ToNibbles(key), {})
  {
    assert map[][root := db[root]] == map[root := db[root]];
    assert {} + {root} == {root};
  }

  /** On any database whatever, the proof of a key says what the lookup at the root says, and holds the blobs of
      exactly the hashes that lookup read. A root that is not there has an empty proof and no keys. */
  lemma ProofOnAnyDatabase(sc: Scheme, db: Db, root: HashValue, key: Key, r: Outcome<Option<Bytes>>)
    requires LookupIs(sc, db, Hashed(root), ToNibbles(key), r)
    ensures var c := ProofOf(sc, db, root, key);
      && (root !in db ==> c == Collected(map[], Done(false)))
      && (root in db ==> c.found == Existence(r))
      && (root in db && c.found.Done? ==> AddsVisited(sc, db, Hashed(root), ToNibbles(key), map[], c.proof))
  {
    LookupIsAtEndOfPath(sc, db, Hashed(root), ToNibbles(key), r);
    if root in db {
      ProofIsProve(sc, db, root, key);
      ProvingAnswersLikeLookup(sc, db, map[], Hashed(root), ToNibbles(key), {});
      if r.Done? {
        ProvingAddsVisited(sc, db, map[], Hashed(root), ToNibbles(key), {});
      }
    }
  }

  /** Verification gives what stands at the end of the path in the proof database, failures included. */
  lemma VerifyOnAnyDatabase(sc: Scheme, d: Db, root: HashValue, key: Key, r: Outcome<Option<Bytes>>)
    ensures root !in d ==> VerifyProof(sc, root, d, key) == Done(None)
    ensures root in d ==> (LookupIs(sc, d, Hashed(root), ToNibbles(key), r) <==> r == VerifyProof(sc, root, d, key))
  {
    VerifyIsLookup(sc, root, d, key);
    LookupIsAtEndOfPath(sc, d, Hashed(root), ToNibbles(key), r);
  }

  /** A database with everything a lookup read gives the same answer. */
  lemma {:induction false} VisitedDecide(sc: Scheme, db: Db, d: Db, link: Link, key: Bytes, hops: nat, end: Link,
                                         rest: Bytes)
    requires EndsAt(sc, db, link, key, hops, end, rest) && Stop(sc, db, end, rest).Done?
    requires forall h: HashValue :: Visits(sc, db, link, key, h) ==> h in db && h in d && d[h] == db[h]
    ensures LinkGet(sc, d, link, key, {}) == LinkGet(sc, db, link, key, {})
    decreases hops
  {
    LookupHops(sc, db, link, key);
    LookupHops(sc, d, link, key);
    if link.Hashed? {
      VisitsHops(sc, db, link, key, link.h);
    }
    assert NodeAt(sc, d, link) == NodeAt(sc, db, link);
    if hops > 0 {
      var next := Hop(sc, db, link, key).value;
      forall h: HashValue | Visits(sc, db, next.0, next.1, h) ensures h in db && h in d && d[h] == db[h] {
        VisitsHops(sc, db, link, key, h);
      }
      VisitedDecide(sc, db, d, next.0, next.1, hops - 1, end, rest);
    }
  }

  /** Completeness on any database, canonical tries in it or not: a proof that could be made verifies to the answer
      of the full database. */
  lemma ProofOnAnyDatabaseVerifies(sc: Scheme, db: Db, root: HashValue, key: Key)
    ensures var c := ProofOf(sc, db, root, key);
      root in db && c.found.Done? ==>
        && VerifyProof(sc, root, c.proof, key) == LinkGet(sc, db, Hashed(root), ToNibbles(key), {})
        && SubDb(c.proof, db)
  {
    var q, link := ToNibbles(key), Hashed(root);
    var c, r := ProofOf(sc, db, root, key), LinkGet(sc, db, link, q, {});
    LookupIsAtEndOfPath(sc, db, link, q, r);
    ProofOnAnyDatabase(sc, db, root, key, r);
    if root in db && c.found.Done? {
      var hops: nat, end, rest :| EndsAt(sc, db, link, q, hops, end, rest) && r == Stop(sc, db, end, rest);
      forall h: HashValue | Visits(sc, db, link, q, h) ensures h in db && h in c.proof && c.proof[h] == db[h] {
      }
      VisitedDecide(sc, db, c.proof, link, q, hops, end, rest);
      VisitsHops(sc, db, link, q, root);
      VerifyIsLookup(sc, root, c.proof, key);
    }
  }
}
