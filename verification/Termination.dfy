/** On which databases the recursions of the program end: exactly those where no stored hash leads back
    to itself through extensions with empty partial keys. Cycles that consume a nibble do no harm. */
module Termination {
  import opened Base
  import Keys
  import opened Nodes
  import opened Schemes
  import opened NodeOps
  import opened PlainRecursion
  import opened Proofs

  // ---------- loops that consume nothing ----------

  /** The hash a lookup comes to without consuming a nibble or following a hash, if any. */
  function NodeTarget(n: Node): Option<HashValue>
    decreases n
  {
    if n.Extension? && n.partialKey == [] then LinkTarget(n.child) else None
  }

  function LinkTarget(link: Link): Option<HashValue>
    decreases link
  {
    match link
    case Empty => None
    case Hashed(h) => Some(h)
    case Mem(n) => NodeTarget(n)
  }

  /** The hash that the node stored under `h` leads to through empty partial keys alone. */
  function Next(sc: Scheme, db: Db, h: HashValue): Option<HashValue> {
    match Load(sc, db, h)
    case Failed(_) => None
    case Done(n) => NodeTarget(n)
  }

  function Walk(sc: Scheme, db: Db, h: HashValue, steps: nat): Option<HashValue> {
    if steps == 0 then Some(h)
    else
      match Walk(sc, db, h, steps - 1)
      case None => None
      case Some(g) => Next(sc, db, g)
  }

  ghost predicate LeadsTo(sc: Scheme, db: Db, h: HashValue, target: Option<HashValue>) {
    exists steps: nat :: steps > 0 && Walk(sc, db, h, steps) == target
  }

  ghost predicate LoopFree(sc: Scheme, db: Db) {
    forall h: HashValue :: !LeadsTo(sc, db, h, Some(h))
  }

  lemma LeadsOn(sc: Scheme, db: Db, h: HashValue, g: HashValue)
    ensures LeadsTo(sc, db, g, Next(sc, db, g))
    ensures LeadsTo(sc, db, h, Some(g)) ==> LeadsTo(sc, db, h, Next(sc, db, g))
  {
    assert Walk(sc, db, g, 0) == Some(g);
    assert Walk(sc, db, g, 1) == Next(sc, db, g);
    if LeadsTo(sc, db, h, Some(g)) {
      var steps: nat :| steps > 0 && Walk(sc, db, h, steps) == Some(g);
      assert Walk(sc, db, h, steps + 1) == Next(sc, db, g);
    }
  }

  // ---------- an endless lookup follows a loop ----------

  lemma {:induction false} EndlessHasLoop(sc: Scheme, db: Db, link: Link, key: Bytes, seen: set<HashValue>)
    requires LinkGet(sc, db, link, key, seen) == Failed(EndlessRecursion)
    requires forall s :: s in seen ==> LeadsTo(sc, db, s, LinkTarget(link))
    ensures !LoopFree(sc, db)
    decreases |key|, db.Keys - seen, link
  {
    match link
    case Mem(n) => NodeEndlessHasLoop(sc, db, n, key, seen);
    case Hashed(h) =>
      if h in seen {
        assert LeadsTo(sc, db, h, Some(h));
      } else {
        forall s | s in seen + {h} ensures LeadsTo(sc, db, s, Next(sc, db, h)) {
          LeadsOn(sc, db, s, h);
        }
        NodeEndlessHasLoop(sc, db, Load(sc, db, h).value, key, seen + {h});
      }
  }

  lemma {:induction false} NodeEndlessHasLoop(sc: Scheme, db: Db, n: Node, key: Bytes, seen: set<HashValue>)
    requires NodeGet(sc, db, n, key, seen) == Failed(EndlessRecursion)
    requires forall s :: s in seen ==> LeadsTo(sc, db, s, NodeTarget(n))
    ensures !LoopFree(sc, db)
    decreases |key|, db.Keys - seen, n
  {
    match n
    case Extension(pk, child) => EndlessHasLoop(sc, db, child, key[|pk|..], if pk == [] then seen else {});
    case Branch(children, _) => EndlessHasLoop(sc, db, children[key[0]], key[1..], {});
  }

  // ---------- a loop makes every lookup endless ----------

  lemma {:induction false} WalkAdds(sc: Scheme, db: Db, h: HashValue, g: HashValue, a: nat, b: nat)
    requires Walk(sc, db, h, a) == Some(g)
    ensures Walk(sc, db, h, a + b) == Walk(sc, db, g, b)
    decreases b
  {
    if b == 0 {
    } else {
      WalkAdds(sc, db, h, g, a, b - 1);
    }
  }

  lemma {:induction false} WalkPrefix(sc: Scheme, db: Db, h: HashValue, a: nat, b: nat)
    requires a <= b && Walk(sc, db, h, b).Some?
    ensures Walk(sc, db, h, a).Some?
    decreases b - a
  {
    if a == b {
    } else {
      WalkPrefix(sc, db, h, a + 1, b);
    }
  }

  ghost predicate WalksForever(sc: Scheme, db: Db, h: HashValue) {
    forall steps: nat :: Walk(sc, db, h, steps).Some?
  }

  lemma {:induction false} LoopHasNoEnd(sc: Scheme, db: Db, h: HashValue, round: nat, steps: nat)
    requires round > 0 && Walk(sc, db, h, round) == Some(h)
    ensures Walk(sc, db, h, steps).Some?
    decreases steps
  {
    if steps <= round {
      WalkPrefix(sc, db, h, steps, round);
    } else {
      WalkAdds(sc, db, h, h, round, steps - round);
      LoopHasNoEnd(sc, db, h, round, steps - round);
    }
  }

  lemma WalksOn(sc: Scheme, db: Db, h: HashValue)
    requires WalksForever(sc, db, h)
    ensures Next(sc, db, h).Some? && WalksForever(sc, db, Next(sc, db, h).value)
  {
    assert Walk(sc, db, h, 0) == Some(h);
    assert Walk(sc, db, h, 1) == Next(sc, db, h);
    var g := Next(sc, db, h).value;
    forall steps: nat ensures Walk(sc, db, g, steps).Some? {
      WalkAdds(sc, db, h, g, 1, steps);
      assert Walk(sc, db, h, 1 + steps).Some?;
    }
  }

  /** A link with a target is looked up like the hash it leads to. */
  lemma {:induction false} LookupGoesToTarget(sc: Scheme, db: Db, link: Link, key: Bytes, seen: set<HashValue>)
    requires LinkTarget(link).Some?
    ensures LinkGet(sc, db, link, key, seen) == LinkGet(sc, db, Hashed(LinkTarget(link).value), key, seen)
    decreases link
  {
    match link
    case Hashed(_) =>
    case Mem(n) =>
      assert key[0..] == key;
      LookupGoesToTarget(sc, db, n.child, key, seen);
  }

  lemma {:induction false} ForeverIsEndless(sc: Scheme, db: Db, h: HashValue, key: Bytes, seen: set<HashValue>)
    requires WalksForever(sc, db, h)
    ensures LinkGet(sc, db, Hashed(h), key, seen) == Failed(EndlessRecursion)
    decreases db.Keys - seen
  {
    WalksOn(sc, db, h);
    if h in seen {
    } else {
      var n := Load(sc, db, h).value;
      assert key[0..] == key;
      LookupGoesToTarget(sc, db, n.child, key, seen + {h});
      ForeverIsEndless(sc, db, Next(sc, db, h).value, key, seen + {h});
    }
  }

  /** Below a hash that leads to itself no lookup ends, whatever the key. */
  lemma LoopIsEndless(sc: Scheme, db: Db, h: HashValue, key: Bytes)
    requires LeadsTo(sc, db, h, Some(h))
    ensures LinkGet(sc, db, Hashed(h), key, {}) == Failed(EndlessRecursion)
  {
    var round: nat :| round > 0 && Walk(sc, db, h, round) == Some(h);
    forall steps: nat ensures Walk(sc, db, h, steps).Some? {
      LoopHasNoEnd(sc, db, h, round, steps);
    }
    ForeverIsEndless(sc, db, h, key, {});
  }

  // ---------- the exact condition ----------

  /** The recursion of the program ends, and the guarded operation tells its result. */
  ghost predicate LookupEnds(sc: Scheme, db: Db, link: Link, key: Bytes) {
    exists depth: nat :: PlainLinkGet(sc, db, link, key, depth) == Some(LinkGet(sc, db, link, key, {}))
  }

  ghost predicate ProvingEnds(sc: Scheme, db: Db, proof: Db, link: Link, key: Bytes) {
    exists depth: nat ::
      PlainLinkProve(sc, db, proof, link, key, depth) == Some(LinkProve(sc, db, proof, link, key, {}))
  }

  ghost predicate InsertionEnds(sc: Scheme, arm: Arm, db: Db, link: Link, key: Bytes, value: Bytes) {
    exists depth: nat ::
      PlainLinkInsert(sc, arm, db, link, key, value, depth) == Some(LinkInsert(sc, arm, db, link, key, value, {}))
  }

  /** On a loop-free database, otherwise cyclic or not, lookup ends. */
  lemma LookupTerminates(sc: Scheme, db: Db, link: Link, key: Bytes)
    requires LoopFree(sc, db)
    ensures LookupEnds(sc, db, link, key) && LinkGet(sc, db, link, key, {}) != Failed(EndlessRecursion)
  {
    if LinkGet(sc, db, link, key, {}) == Failed(EndlessRecursion) {
      EndlessHasLoop(sc, db, link, key, {});
    }
    GuardIsExact(sc, db, link, key);
  }

  /** So does collecting a proof. */
  lemma ProvingTerminates(sc: Scheme, db: Db, proof: Db, link: Link, key: Bytes)
    requires LoopFree(sc, db)
    ensures ProvingEnds(sc, db, proof, link, key)
    ensures LinkProve(sc, db, proof, link, key, {}).found != Failed(EndlessRecursion)
  {
    LookupTerminates(sc, db, link, key);
    ProvingAnswersLikeLookup(sc, db, proof, link, key, {});
    ProvingGuardIsExact(sc, db, proof, link, key);
  }

  /** And insertion, whose recursion into a split leaf is not bounded by the key. */
  lemma InsertionTerminates(sc: Scheme, arm: Arm, db: Db, link: Link, key: Bytes, value: Bytes)
    requires LoopFree(sc, db)
    ensures InsertionEnds(sc, arm, db, link, key, value)
    ensures LinkInsert(sc, arm, db, link, key, value, {}) != Failed(EndlessRecursion)
  {
    LookupTerminates(sc, db, link, key);
    InsertionEndlessLikeLookup(sc, arm, db, link, key, value, {});
    InsertionGuardIsExact(sc, arm, db, link, key, value);
  }

  /** Where there is a loop, none of the three ends below it. */
  lemma LoopEndsNothing(sc: Scheme, arm: Arm, db: Db, proof: Db, h: HashValue, key: Bytes, value: Bytes)
    requires LeadsTo(sc, db, h, Some(h))
    ensures !LookupEnds(sc, db, Hashed(h), key)
    ensures !ProvingEnds(sc, db, proof, Hashed(h), key)
    ensures !InsertionEnds(sc, arm, db, Hashed(h), key, value)
  {
    LoopIsEndless(sc, db, h, key);
    GuardIsExact(sc, db, Hashed(h), key);
    ProvingAnswersLikeLookup(sc, db, proof, Hashed(h), key, {});
    ProvingGuardIsExact(sc, db, proof, Hashed(h), key);
    InsertionEndlessLikeLookup(sc, arm, db, Hashed(h), key, value, {});
    InsertionGuardIsExact(sc, arm, db, Hashed(h), key, value);
    assert forall depth: nat :: PlainLinkGet(sc, db, Hashed(h), key, depth) == None;
    assert forall depth: nat :: PlainLinkProve(sc, db, proof, Hashed(h), key, depth) == None;
    assert forall depth: nat :: PlainLinkInsert(sc, arm, db, Hashed(h), key, value, depth) == None;
  }

  /** All lookups on a database end if and only if it is loop-free. */
  lemma LookupsEndIffLoopFree(sc: Scheme, db: Db)
    ensures LoopFree(sc, db) <==> forall link: Link, key: Bytes :: LookupEnds(sc, db, link, key)
  {
    if LoopFree(sc, db) {
      forall link: Link, key: Bytes ensures LookupEnds(sc, db, link, key) {
        LookupTerminates(sc, db, link, key);
      }
    } else {
      var h: HashValue :| LeadsTo(sc, db, h, Some(h));
      LoopEndsNothing(sc, AsWritten, db, map[], h, [], []);
      assert !LookupEnds(sc, db, Hashed(h), []);
    }
  }

  /** So do all collections of proofs. */
  lemma ProofsEndIffLoopFree(sc: Scheme, db: Db, proof: Db)
    ensures LoopFree(sc, db) <==> forall link: Link, key: Bytes :: ProvingEnds(sc, db, proof, link, key)
  {
    if LoopFree(sc, db) {
      forall link: Link, key: Bytes ensures ProvingEnds(sc, db, proof, link, key) {
        ProvingTerminates(sc, db, proof, link, key);
      }
    } else {
      var h: HashValue :| LeadsTo(sc, db, h, Some(h));
      LoopEndsNothing(sc, AsWritten, db, proof, h, [], []);
      assert !ProvingEnds(sc, db, proof, Hashed(h), []);
    }
  }

  /** And all insertions, in either version and of whatever value. */
  lemma InsertionsEndIffLoopFree(sc: Scheme, arm: Arm, db: Db, value: Bytes)
    ensures LoopFree(sc, db) <==> forall link: Link, key: Bytes :: InsertionEnds(sc, arm, db, link, key, value)
  {
    if LoopFree(sc, db) {
      forall link: Link, key: Bytes ensures InsertionEnds(sc, arm, db, link, key, value) {
        InsertionTerminates(sc, arm, db, link, key, value);
      }
    } else {
      var h: HashValue :| LeadsTo(sc, db, h, Some(h));
      LoopEndsNothing(sc, arm, db, map[], h, [], value);
      assert !InsertionEnds(sc, arm, db, Hashed(h), [], value);
    }
  }

  /** A proof database from elsewhere is safe to verify against, for all roots and keys, if and only if it
      is loop-free. */
  lemma VerificationsEndIffLoopFree(sc: Scheme, proof: Db)
    ensures LoopFree(sc, proof)
       <==> forall root: HashValue, key: Key :: VerifyProof(sc, root, proof, key) != Failed(EndlessRecursion)
  {
    if LoopFree(sc, proof) {
      forall root: HashValue, key: Key ensures VerifyProof(sc, root, proof, key) != Failed(EndlessRecursion) {
        VerifyIsLookup(sc, root, proof, key);
        LookupTerminates(sc, proof, Hashed(root), Keys.ToNibbles(key));
      }
    } else {
      var h: HashValue :| LeadsTo(sc, proof, h, Some(h));
      VerifyIsLookup(sc, h, proof, []);
      LoopIsEndless(sc, proof, h, Keys.ToNibbles([]));
      assert VerifyProof(sc, h, proof, []) == Failed(EndlessRecursion);
    }
  }

  // ---------- a simpler condition, and the smallest loop ----------

  /** No stored extension has an empty partial key. */
  ghost predicate DbConsumes(sc: Scheme, db: Db) {
    forall h {:trigger Load(sc, db, h)} :: h in db && Load(sc, db, h).Done? && Load(sc, db, h).value.Extension?
      ==> Load(sc, db, h).value.partialKey != []
  }

  /** That is enough. */
  lemma ConsumingIsLoopFree(sc: Scheme, db: Db)
    requires DbConsumes(sc, db)
    ensures LoopFree(sc, db)
  {
    NoNextIsLoopFree(sc, db);
  }

  /** But it is not needed: an extension with an empty partial key may lead nowhere. */
  lemma EmptyPartialKeyMayBeHarmless(sc: Scheme, h: HashValue, key: Bytes)
    ensures var db: Db := map[h := sc.encode(Extension([], Empty))];
            LoopFree(sc, db) && !DbConsumes(sc, db) && LinkGet(sc, db, Hashed(h), key, {}) == Done(None)
  {
    var n := Extension([], Empty);
    var db: Db := map[h := sc.encode(n)];
    assert LinkSized(n.child) && NodeSized(n);
    assert sc.decode(sc.encode(n)) == Some(n);
    assert Load(sc, db, h) == Done(n);
    assert NodeGet(sc, db, n, key, {} + {h}) == Done(None);
    NoNextIsLoopFree(sc, db);
  }

  lemma NoNextIsLoopFree(sc: Scheme, db: Db)
    requires forall g :: g in db ==> Next(sc, db, g) == None
    ensures LoopFree(sc, db)
  {
    forall h: HashValue ensures !LeadsTo(sc, db, h, Some(h)) {
      forall steps: nat | steps > 0 ensures Walk(sc, db, h, steps) == None {
        if Walk(sc, db, h, steps).Some? {
          WalkPrefix(sc, db, h, 1, steps);
          assert Walk(sc, db, h, 0) == Some(h);
        }
      }
    }
  }

  /** An extension with an empty partial key that leads to itself. */
  lemma EmptyPartialKeyNeverEnds(sc: Scheme, h: HashValue, key: Bytes)
    ensures var db: Db := map[h := sc.encode(Extension([], Hashed(h)))];
            !LoopFree(sc, db) && !LookupEnds(sc, db, Hashed(h), key)
  {
    var n := Extension([], Hashed(h));
    var db: Db := map[h := sc.encode(n)];
    assert LinkSized(n.child) && NodeSized(n);
    assert sc.decode(sc.encode(n)) == Some(n);
    assert Load(sc, db, h) == Done(n);
    assert LinkTarget(n.child) == Some(h) && NodeTarget(n) == Some(h);
    LeadsOn(sc, db, h, h);
    LoopEndsNothing(sc, AsWritten, db, map[], h, key, []);
  }
}
