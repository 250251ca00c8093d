/** The recursions of the program without any guard, cut off at a depth: the guarded operations of
    `NodeOps` agree with them where they end, and report an endless recursion exactly where they do not. */
module PlainRecursion {
  import opened Base
  import opened Keys
  import opened Nodes
  import opened Schemes
  import opened NodeOps

  // ---------- lookup ----------

  /** The lookup exactly as the program recurses, `None` if it is deeper than `depth`. */
  function PlainLinkGet(sc: Scheme, db: Db, link: Link, key: Bytes, depth: nat): Option<Outcome<Option<Bytes>>>
    decreases depth
  {
    if depth == 0 then None
    else
      match link
      case Empty => Some(Done(None))
      case Mem(n) => PlainNodeGet(sc, db, n, key, depth - 1)
      case Hashed(h) =>
        match Load(sc, db, h)
        case Failed(fault) => Some(Failed(fault))
        case Done(n) => PlainNodeGet(sc, db, n, key, depth - 1)
  }

  function PlainNodeGet(sc: Scheme, db: Db, n: Node, key: Bytes, depth: nat): Option<Outcome<Option<Bytes>>>
    decreases depth
  {
    if depth == 0 then None
    else
      match n
      case Leaf(rest, val) => Some(Done(if rest == key then Some(val) else None))
      case Extension(pk, child) =>
        if SharedLen(pk, key) != |pk| then Some(Done(None)) else PlainLinkGet(sc, db, child, key[|pk|..], depth - 1)
      case Branch(children, value) =>
        if key == [] then Some(Done(value))
        else if key[0] >= |children| then Some(Failed(IndexOutOfRange))
        else PlainLinkGet(sc, db, children[key[0]], key[1..], depth - 1)
  }

  /** Where the guarded lookup answers, the plain recursion ends, with the same answer. */
  lemma {:induction false} LinkGetEnds(sc: Scheme, db: Db, link: Link, key: Bytes,
                                       seen: set<HashValue>) returns (depth: nat)
    requires LinkGet(sc, db, link, key, seen) != Failed(EndlessRecursion)
    ensures PlainLinkGet(sc, db, link, key, depth) == Some(LinkGet(sc, db, link, key, seen))
    decreases |key|, db.Keys - seen, link
  {
    depth := 1;
    match link
    case Empty =>
    case Mem(n) =>
      depth := NodeGetEnds(sc, db, n, key, seen);
      depth := depth + 1;
    case Hashed(h) =>
      if Load(sc, db, h).Done? {
        depth := NodeGetEnds(sc, db, Load(sc, db, h).value, key, seen + {h});
        depth := depth + 1;
      }
  }

  lemma {:induction false} NodeGetEnds(sc: Scheme, db: Db, n: Node, key: Bytes,
                                       seen: set<HashValue>) returns (depth: nat)
    requires NodeGet(sc, db, n, key, seen) != Failed(EndlessRecursion)
    ensures PlainNodeGet(sc, db, n, key, depth) == Some(NodeGet(sc, db, n, key, seen))
    decreases |key|, db.Keys - seen, n
  {
    depth := 1;
    match n
    case Leaf(_, _) =>
    case Extension(pk, child) =>
      if SharedLen(pk, key) == |pk| {
        depth := LinkGetEnds(sc, db, child, key[|pk|..], if pk == [] then seen else {});
        depth := depth + 1;
      }
    case Branch(children, _) =>
      if key != [] && key[0] < |children| {
        depth := LinkGetEnds(sc, db, children[key[0]], key[1..], {});
        depth := depth + 1;
      }
  }

  /** Where the guarded lookup reports an endless recursion, the plain one is deeper than any depth. */
  lemma {:induction false} LinkGetNeverEnds(sc: Scheme, db: Db, link: Link, key: Bytes, seen: set<HashValue>,
                                            depth: nat)
    requires LinkGet(sc, db, link, key, seen) == Failed(EndlessRecursion)
    requires forall h, d: nat :: h in seen && d <= depth ==> PlainLinkGet(sc, db, Hashed(h), key, d) == None
    ensures PlainLinkGet(sc, db, link, key, depth) == None
    decreases depth
  {
    if depth == 0 {
    } else {
      match link
      case Mem(n) => NodeGetNeverEnds(sc, db, n, key, seen, depth - 1);
      case Hashed(h) =>
        if h !in seen {
          forall g, d: nat | g in seen + {h} && d <= depth - 1 ensures PlainLinkGet(sc, db, Hashed(g), key, d) == None {
            if g == h {
              LinkGetNeverEnds(sc, db, link, key, seen, d);
            }
          }
          NodeGetNeverEnds(sc, db, Load(sc, db, h).value, key, seen + {h}, depth - 1);
        }
    }
  }

  lemma {:induction false} NodeGetNeverEnds(sc: Scheme, db: Db, n: Node, key: Bytes, seen: set<HashValue>, depth: nat)
    requires NodeGet(sc, db, n, key, seen) == Failed(EndlessRecursion)
    requires forall h, d: nat :: h in seen && d <= depth ==> PlainLinkGet(sc, db, Hashed(h), key, d) == None
    ensures PlainNodeGet(sc, db, n, key, depth) == None
    decreases depth
  {
    if depth == 0 {
    } else {
      match n
      case Extension(pk, child) =>
        assert key[0..] == key;
        LinkGetNeverEnds(sc, db, child, key[|pk|..], if pk == [] then seen else {}, depth - 1);
      case Branch(children, _) =>
        LinkGetNeverEnds(sc, db, children[key[0]], key[1..], {}, depth - 1);
    }
  }

  /** The guarded lookup is the plain recursion: same answer where that ends, and it reports an endless
      recursion exactly where that does not. */
  lemma GuardIsExact(sc: Scheme, db: Db, link: Link, key: Bytes)
    ensures LinkGet(sc, db, link, key, {}) == Failed(EndlessRecursion)
       <==> forall depth: nat :: PlainLinkGet(sc, db, link, key, depth) == None
    ensures LinkGet(sc, db, link, key, {}) != Failed(EndlessRecursion)
        ==> exists depth: nat :: PlainLinkGet(sc, db, link, key, depth) == Some(LinkGet(sc, db, link, key, {}))
  {
    if LinkGet(sc, db, link, key, {}) == Failed(EndlessRecursion) {
      forall depth: nat ensures PlainLinkGet(sc, db, link, key, depth) == None {
        LinkGetNeverEnds(sc, db, link, key, {}, depth);
      }
    } else {
      var depth := LinkGetEnds(sc, db, link, key, {});
      assert PlainLinkGet(sc, db, link, key, depth) == Some(LinkGet(sc, db, link, key, {}));
    }
  }

  // ---------- proof collection ----------

  function PlainLinkProve(sc: Scheme, db: Db, proof: Db, link: Link, key: Bytes, depth: nat): Option<Collected>
    decreases depth
  {
    if depth == 0 then None
    else
      match link
      case Empty => Some(Collected(proof, Done(false)))
      case Mem(n) => PlainNodeProve(sc, db, proof, n, key, depth - 1)
      case Hashed(h) =>
        match Load(sc, db, h)
        case Failed(fault) => Some(Collected(proof, Failed(fault)))
        case Done(n) => PlainNodeProve(sc, db, proof[h := db[h]], n, key, depth - 1)
  }

  function PlainNodeProve(sc: Scheme, db: Db, proof: Db, n: Node, key: Bytes, depth: nat): Option<Collected>
    decreases depth
  {
    if depth == 0 then None
    else
      match n
      case Leaf(rest, _) => Some(Collected(proof, Done(rest == key)))
      case Extension(pk, child) =>
        if SharedLen(pk, key) != |pk| then Some(Collected(proof, Done(false)))
        else PlainLinkProve(sc, db, proof, child, key[|pk|..], depth - 1)
      case Branch(children, value) =>
        if key == [] then Some(Collected(proof, Done(value.Some?)))
        else if key[0] >= |children| then Some(Collected(proof, Failed(IndexOutOfRange)))
        else PlainLinkProve(sc, db, proof, children[key[0]], key[1..], depth - 1)
  }

  /** What a lookup says about existence. */
  function Existence(r: Outcome<Option<Bytes>>): Outcome<bool> {
    match r
    case Failed(fault) => Failed(fault)
    case Done(v) => Done(v.Some?)
  }

  /** On any database whatever, proof collection finds a key, misses it or fails just as lookup does. */
  lemma {:induction false} ProvingAnswersLikeLookup(sc: Scheme, db: Db, proof: Db, link: Link, key: Bytes,
                                                    seen: set<HashValue>)
    ensures LinkProve(sc, db, proof, link, key, seen).found == Existence(LinkGet(sc, db, link, key, seen))
    decreases |key|, db.Keys - seen, link
  {
    match link
    case Empty =>
    case Mem(n) => NodeProvingAnswersLikeLookup(sc, db, proof, n, key, seen);
    case Hashed(h) =>
      if Load(sc, db, h).Done? && h !in seen {
        NodeProvingAnswersLikeLookup(sc, db, proof[h := db[h]], Load(sc, db, h).value, key, seen + {h});
      }
  }

  lemma {:induction false} NodeProvingAnswersLikeLookup(sc: Scheme, db: Db, proof: Db, n: Node, key: Bytes,
                                                        seen: set<HashValue>)
    ensures NodeProve(sc, db, proof, n, key, seen).found == Existence(NodeGet(sc, db, n, key, seen))
    decreases |key|, db.Keys - seen, n
  {
    match n
    case Leaf(_, _) =>
    case Extension(pk, child) =>
      if SharedLen(pk, key) == |pk| {
        ProvingAnswersLikeLookup(sc, db, proof, child, key[|pk|..], if pk == [] then seen else {});
      }
    case Branch(children, _) =>
      if key != [] && key[0] < |children| {
        ProvingAnswersLikeLookup(sc, db, proof, children[key[0]], key[1..], {});
      }
  }

  lemma {:induction false} LinkProveEnds(sc: Scheme, db: Db, proof: Db, link: Link, key: Bytes,
                                         seen: set<HashValue>) returns (depth: nat)
    requires LinkProve(sc, db, proof, link, key, seen).found != Failed(EndlessRecursion)
    ensures PlainLinkProve(sc, db, proof, link, key, depth) == Some(LinkProve(sc, db, proof, link, key, seen))
    decreases |key|, db.Keys - seen, link
  {
    depth := 1;
    match link
    case Empty =>
    case Mem(n) =>
      depth := NodeProveEnds(sc, db, proof, n, key, seen);
      depth := depth + 1;
    case Hashed(h) =>
      if Load(sc, db, h).Done? {
        depth := NodeProveEnds(sc, db, proof[h := db[h]], Load(sc, db, h).value, key, seen + {h});
        depth := depth + 1;
      }
  }

  lemma {:induction false} NodeProveEnds(sc: Scheme, db: Db, proof: Db, n: Node, key: Bytes,
                                         seen: set<HashValue>) returns (depth: nat)
    requires NodeProve(sc, db, proof, n, key, seen).found != Failed(EndlessRecursion)
    ensures PlainNodeProve(sc, db, proof, n, key, depth) == Some(NodeProve(sc, db, proof, n, key, seen))
    decreases |key|, db.Keys - seen, n
  {
    depth := 1;
    match n
    case Leaf(_, _) =>
    case Extension(pk, child) =>
      if SharedLen(pk, key) == |pk| {
        depth := LinkProveEnds(sc, db, proof, child, key[|pk|..], if pk == [] then seen else {});
        depth := depth + 1;
      }
    case Branch(children, _) =>
      if key != [] && key[0] < |children| {
        depth := LinkProveEnds(sc, db, proof, children[key[0]], key[1..], {});
        depth := depth + 1;
      }
  }

  /** Proof collection recurses as deep as lookup. */
  lemma {:induction false} ProveAsDeepAsGet(sc: Scheme, db: Db, proof: Db, link: Link, key: Bytes, depth: nat)
    requires PlainLinkGet(sc, db, link, key, depth) == None
    ensures PlainLinkProve(sc, db, proof, link, key, depth) == None
    decreases depth
  {
    if depth == 0 {
    } else {
      match link
      case Mem(n) => NodeProveAsDeepAsGet(sc, db, proof, n, key, depth - 1);
      case Hashed(h) => NodeProveAsDeepAsGet(sc, db, proof[h := db[h]], Load(sc, db, h).value, key, depth - 1);
    }
  }

  lemma {:induction false} NodeProveAsDeepAsGet(sc: Scheme, db: Db, proof: Db, n: Node, key: Bytes, depth: nat)
    requires PlainNodeGet(sc, db, n, key, depth) == None
    ensures PlainNodeProve(sc, db, proof, n, key, depth) == None
    decreases depth
  {
    if depth == 0 {
    } else {
      match n
      case Extension(pk, child) => ProveAsDeepAsGet(sc, db, proof, child, key[|pk|..], depth - 1);
      case Branch(children, _) => ProveAsDeepAsGet(sc, db, proof, children[key[0]], key[1..], depth - 1);
    }
  }

  /** The same for proof collection. */
  lemma ProvingGuardIsExact(sc: Scheme, db: Db, proof: Db, link: Link, key: Bytes)
    ensures LinkProve(sc, db, proof, link, key, {}).found == Failed(EndlessRecursion)
       <==> forall depth: nat :: PlainLinkProve(sc, db, proof, link, key, depth) == None
    ensures LinkProve(sc, db, proof, link, key, {}).found != Failed(EndlessRecursion)
        ==> exists depth: nat ::
              PlainLinkProve(sc, db, proof, link, key, depth) == Some(LinkProve(sc, db, proof, link, key, {}))
  {
    if LinkProve(sc, db, proof, link, key, {}).found == Failed(EndlessRecursion) {
      ProvingAnswersLikeLookup(sc, db, proof, link, key, {});
      GuardIsExact(sc, db, link, key);
      forall depth: nat ensures PlainLinkProve(sc, db, proof, link, key, depth) == None {
        ProveAsDeepAsGet(sc, db, proof, link, key, depth);
      }
    } else {
      var depth := LinkProveEnds(sc, db, proof, link, key, {});
      assert PlainLinkProve(sc, db, proof, link, key, depth) == Some(LinkProve(sc, db, proof, link, key, {}));
    }
  }

  // ---------- insertion ----------

  function PlainLinkInsert(sc: Scheme, arm: Arm, db: Db, link: Link, key: Bytes, value: Bytes,
                           depth: nat): Option<Outcome<Link>>
    decreases depth
  {
    if depth == 0 then None
    else
      match link
      case Empty => Some(Done(Mem(Leaf(key, value))))
      case Mem(n) => PlainLinked(PlainNodeInsert(sc, arm, db, n, key, value, depth - 1))
      case Hashed(h) =>
        match Load(sc, db, h)
        case Failed(fault) => Some(Failed(fault))
        case Done(n) => PlainLinked(PlainNodeInsert(sc, arm, db, n, key, value, depth - 1))
  }

  function PlainLinked(r: Option<Outcome<Node>>): Option<Outcome<Link>> {
    match r
    case None => None
    case Some(outcome) => Some(Linked(outcome))
  }

  function PlainNodeInsert(sc: Scheme, arm: Arm, db: Db, n: Node, key: Bytes, value: Bytes,
                           depth: nat): Option<Outcome<Node>>
    decreases depth
  {
    if depth == 0 then None
    else
      match n
      case Leaf(rest, val) =>
        if rest == key then Some(Done(Leaf(rest, value)))
        else PlainSplitLeaf(sc, arm, db, rest, val, SharedLen(rest, key), key, value, depth - 1)
      case Extension(pk, child) =>
        var i := SharedLen(pk, key);
        if i == |pk| then
          (match PlainLinkInsert(sc, arm, db, child, key[i..], value, depth - 1)
           case None => None
           case Some(Failed(fault)) => Some(Failed(fault))
           case Some(Done(child')) => Some(Done(Extension(pk, child'))))
        else
          (match SetChild(NO_CHILDREN, pk[i], Lowered(pk[i + 1..], child))
           case Failed(fault) => Some(Failed(fault))
           case Done(children) =>
             match PlainBranchInsert(sc, arm, db, Branch(children, None), key[i..], value, depth - 1)
             case None => None
             case Some(fork) => Some(Rejoined(arm, pk, i, fork)))
      case Branch(_, _) => PlainBranchInsert(sc, arm, db, n, key, value, depth - 1)
  }

  /** The two insertions into a fresh branch, the first of a suffix that may be longer than the key. */
  function PlainSplitLeaf(sc: Scheme, arm: Arm, db: Db, rest: Bytes, val: Bytes, i: nat, key: Bytes, value: Bytes,
                          depth: nat): Option<Outcome<Node>>
    requires i <= |rest| && i <= |key|
    decreases depth, 1
  {
    match PlainBranchInsert(sc, arm, db, Branch(NO_CHILDREN, None), rest[i..], val, depth)
    case None => None
    case Some(Failed(fault)) => Some(Failed(fault))
    case Some(Done(one)) =>
      match PlainBranchInsert(sc, arm, db, one, key[i..], value, depth)
      case None => None
      case Some(fork) => Some(Prefixed(rest[..i], fork))
  }

  function PlainBranchInsert(sc: Scheme, arm: Arm, db: Db, n: Node, key: Bytes, value: Bytes,
                             depth: nat): (r: Option<Outcome<Node>>)
    requires n.Branch?
    ensures r.Some? && r.value.Done? ==> r.value.value.Branch?
    decreases depth, 0
  {
    if depth == 0 then None
    else if key == [] then Some(Done(n.(value := Some(value))))
    else if key[0] >= |n.children| then Some(Failed(IndexOutOfRange))
    else
      match PlainLinkInsert(sc, arm, db, n.children[key[0]], key[1..], value, depth - 1)
      case None => None
      case Some(Failed(fault)) => Some(Failed(fault))
      case Some(Done(child)) => Some(Done(n.(children := n.children[key[0] := child])))
  }

  ghost predicate FreePlace(n: Node, key: Bytes) {
    n.Branch? && (key != [] && key[0] < |n.children| ==> n.children[key[0]].Empty?)
  }

  /** Into a free place a branch takes a key, however long, two calls deep. */
  lemma FreePlaceEnds(sc: Scheme, arm: Arm, db: Db, n: Node, key: Bytes, value: Bytes, depth: nat)
    requires FreePlace(n, key) && depth >= 2
    ensures PlainBranchInsert(sc, arm, db, n, key, value, depth) == Some(BranchInsert(sc, arm, db, n, key, value))
    ensures BranchInsert(sc, arm, db, n, key, value) != Failed(EndlessRecursion)
  {
  }

  lemma SplitLeafEnds(sc: Scheme, arm: Arm, db: Db, rest: Bytes, val: Bytes, key: Bytes, value: Bytes,
                      seen: set<HashValue>)
    ensures PlainNodeInsert(sc, arm, db, Leaf(rest, val), key, value, 3)
         == Some(NodeInsert(sc, arm, db, Leaf(rest, val), key, value, seen))
    ensures NodeInsert(sc, arm, db, Leaf(rest, val), key, value, seen) != Failed(EndlessRecursion)
  {
    if rest != key {
      var i := SharedLen(rest, key);
      var bare := Branch(NO_CHILDREN, None);
      FreePlaceEnds(sc, arm, db, bare, rest[i..], val, 2);
      var one := BranchInsert(sc, arm, db, bare, rest[i..], val);
      if one.Done? {
        FreePlaceEnds(sc, arm, db, one.value, key[i..], value, 2);
      }
    }
  }

  lemma SplitExtensionEnds(sc: Scheme, arm: Arm, db: Db, pk: Bytes, child: Link, key: Bytes, value: Bytes,
                           seen: set<HashValue>)
    requires SharedLen(pk, key) < |pk|
    ensures PlainNodeInsert(sc, arm, db, Extension(pk, child), key, value, 3)
         == Some(NodeInsert(sc, arm, db, Extension(pk, child), key, value, seen))
    ensures NodeInsert(sc, arm, db, Extension(pk, child), key, value, seen) != Failed(EndlessRecursion)
  {
    var i := SharedLen(pk, key);
    if pk[i] < FANOUT {
      var n := Branch(NO_CHILDREN[pk[i] := Lowered(pk[i + 1..], child)], None);
      FreePlaceEnds(sc, arm, db, n, key[i..], value, 2);
    }
  }

  /** Insertion recurses endlessly exactly where lookup does. */
  lemma {:induction false} InsertionEndlessLikeLookup(sc: Scheme, arm: Arm, db: Db, link: Link, key: Bytes,
                                                      value: Bytes, seen: set<HashValue>)
    ensures LinkInsert(sc, arm, db, link, key, value, seen) == Failed(EndlessRecursion)
       <==> LinkGet(sc, db, link, key, seen) == Failed(EndlessRecursion)
    decreases |key|, db.Keys - seen, link
  {
    match link
    case Empty =>
    case Mem(n) => NodeInsertionEndlessLikeLookup(sc, arm, db, n, key, value, seen);
    case Hashed(h) =>
      if Load(sc, db, h).Done? && h !in seen {
        NodeInsertionEndlessLikeLookup(sc, arm, db, Load(sc, db, h).value, key, value, seen + {h});
      }
  }

  lemma {:induction false} NodeInsertionEndlessLikeLookup(sc: Scheme, arm: Arm, db: Db, n: Node, key: Bytes,
                                                          value: Bytes, seen: set<HashValue>)
    ensures NodeInsert(sc, arm, db, n, key, value, seen) == Failed(EndlessRecursion)
       <==> NodeGet(sc, db, n, key, seen) == Failed(EndlessRecursion)
    decreases |key|, db.Keys - seen, n
  {
    match n
    case Leaf(rest, val) => SplitLeafEnds(sc, arm, db, rest, val, key, value, seen);
    case Extension(pk, child) =>
      if SharedLen(pk, key) == |pk| {
        InsertionEndlessLikeLookup(sc, arm, db, child, key[|pk|..], value, if pk == [] then seen else {});
      } else {
        SplitExtensionEnds(sc, arm, db, pk, child, key, value, seen);
      }
    case Branch(children, _) =>
      if key != [] && key[0] < |children| {
        InsertionEndlessLikeLookup(sc, arm, db, children[key[0]], key[1..], value, {});
      }
  }

  lemma {:induction false} LinkInsertEnds(sc: Scheme, arm: Arm, db: Db, link: Link, key: Bytes, value: Bytes,
                                          seen: set<HashValue>) returns (depth: nat)
    requires LinkInsert(sc, arm, db, link, key, value, seen) != Failed(EndlessRecursion)
    ensures PlainLinkInsert(sc, arm, db, link, key, value, depth)
         == Some(LinkInsert(sc, arm, db, link, key, value, seen))
    decreases |key|, db.Keys - seen, link
  {
    depth := 1;
    match link
    case Empty =>
    case Mem(n) =>
      depth := NodeInsertEnds(sc, arm, db, n, key, value, seen);
      depth := depth + 1;
    case Hashed(h) =>
      match Load(sc, db, h) {
        case Failed(_) =>
        case Done(n) =>
          depth := NodeInsertEnds(sc, arm, db, n, key, value, seen + {h});
          depth := depth + 1;
      }
  }

  lemma {:induction false} NodeInsertEnds(sc: Scheme, arm: Arm, db: Db, n: Node, key: Bytes, value: Bytes,
                                          seen: set<HashValue>) returns (depth: nat)
    requires NodeInsert(sc, arm, db, n, key, value, seen) != Failed(EndlessRecursion)
    ensures PlainNodeInsert(sc, arm, db, n, key, value, depth)
         == Some(NodeInsert(sc, arm, db, n, key, value, seen))
    decreases |key|, db.Keys - seen, n
  {
    depth := 3;
    match n
    case Leaf(rest, val) => SplitLeafEnds(sc, arm, db, rest, val, key, value, seen);
    case Extension(pk, child) =>
      if SharedLen(pk, key) == |pk| {
        depth := LinkInsertEnds(sc, arm, db, child, key[|pk|..], value, if pk == [] then seen else {});
        depth := depth + 1;
      } else {
        SplitExtensionEnds(sc, arm, db, pk, child, key, value, seen);
      }
    case Branch(children, _) =>
      if key != [] && key[0] < |children| {
        depth := LinkInsertEnds(sc, arm, db, children[key[0]], key[1..], value, {});
        depth := depth + 2;
      }
  }

  ghost predicate LookupNeverEnds(sc: Scheme, db: Db, link: Link, key: Bytes) {
    forall depth: nat :: PlainLinkGet(sc, db, link, key, depth) == None
  }

  ghost predicate NodeLookupNeverEnds(sc: Scheme, db: Db, n: Node, key: Bytes) {
    forall depth: nat :: PlainNodeGet(sc, db, n, key, depth) == None
  }

  /** An endless lookup goes on below every node it passes. */
  lemma NeverEndsBelow(sc: Scheme, db: Db, link: Link, key: Bytes)
    requires LookupNeverEnds(sc, db, link, key)
    ensures link.Mem? ==> NodeLookupNeverEnds(sc, db, link.node, key)
    ensures link.Hashed? ==>
      Load(sc, db, link.h).Done? && NodeLookupNeverEnds(sc, db, Load(sc, db, link.h).value, key)
    ensures !link.Empty?
  {
    assert PlainLinkGet(sc, db, link, key, 1) == None;
    var n := if link.Mem? then link.node else Load(sc, db, link.h).value;
    forall depth: nat ensures PlainNodeGet(sc, db, n, key, depth) == None {
      assert PlainLinkGet(sc, db, link, key, depth + 1) == None;
    }
  }

  lemma NodeNeverEndsBelow(sc: Scheme, db: Db, n: Node, key: Bytes)
    requires NodeLookupNeverEnds(sc, db, n, key)
    ensures n.Extension? || (n.Branch? && key != [] && key[0] < |n.children|)
    ensures n.Extension? ==>
      SharedLen(n.partialKey, key) == |n.partialKey| && LookupNeverEnds(sc, db, n.child, key[|n.partialKey|..])
    ensures n.Branch? ==> LookupNeverEnds(sc, db, n.children[key[0]], key[1..])
  {
    assert PlainNodeGet(sc, db, n, key, 1) == None;
    var child := if n.Extension? then n.child else n.children[key[0]];
    var rest := if n.Extension? then key[|n.partialKey|..] else key[1..];
    forall depth: nat ensures PlainLinkGet(sc, db, child, rest, depth) == None {
      assert PlainNodeGet(sc, db, n, key, depth + 1) == None;
    }
  }

  lemma {:induction false} LinkInsertNeverEnds(sc: Scheme, arm: Arm, db: Db, link: Link, key: Bytes, value: Bytes,
                                               depth: nat)
    requires LookupNeverEnds(sc, db, link, key)
    ensures PlainLinkInsert(sc, arm, db, link, key, value, depth) == None
    decreases depth
  {
    if depth == 0 {
    } else {
      NeverEndsBelow(sc, db, link, key);
      var n := if link.Mem? then link.node else Load(sc, db, link.h).value;
      NodeInsertNeverEnds(sc, arm, db, n, key, value, depth - 1);
    }
  }

  lemma {:induction false} NodeInsertNeverEnds(sc: Scheme, arm: Arm, db: Db, n: Node, key: Bytes, value: Bytes,
                                               depth: nat)
    requires NodeLookupNeverEnds(sc, db, n, key)
    ensures PlainNodeInsert(sc, arm, db, n, key, value, depth) == None
    decreases depth
  {
    if depth == 0 {
    } else {
      NodeNeverEndsBelow(sc, db, n, key);
      if n.Extension? {
        LinkInsertNeverEnds(sc, arm, db, n.child, key[|n.partialKey|..], value, depth - 1);
      } else if depth > 1 {
        LinkInsertNeverEnds(sc, arm, db, n.children[key[0]], key[1..], value, depth - 2);
      }
    }
  }

  /** The same for insertion, in both versions. */
  lemma InsertionGuardIsExact(sc: Scheme, arm: Arm, db: Db, link: Link, key: Bytes, value: Bytes)
    ensures LinkInsert(sc, arm, db, link, key, value, {}) == Failed(EndlessRecursion)
       <==> forall depth: nat :: PlainLinkInsert(sc, arm, db, link, key, value, depth) == None
    ensures LinkInsert(sc, arm, db, link, key, value, {}) != Failed(EndlessRecursion)
        ==> exists depth: nat :: PlainLinkInsert(sc, arm, db, link, key, value, depth)
                              == Some(LinkInsert(sc, arm, db, link, key, value, {}))
  {
    if LinkInsert(sc, arm, db, link, key, value, {}) == Failed(EndlessRecursion) {
      InsertionEndlessLikeLookup(sc, arm, db, link, key, value, {});
      GuardIsExact(sc, db, link, key);
      forall depth: nat ensures PlainLinkInsert(sc, arm, db, link, key, value, depth) == None {
        LinkInsertNeverEnds(sc, arm, db, link, key, value, depth);
      }
    } else {
      var depth := LinkInsertEnds(sc, arm, db, link, key, value, {});
      assert PlainLinkInsert(sc, arm, db, link, key, value, depth)
          == Some(LinkInsert(sc, arm, db, link, key, value, {}));
    }
  }
}
