/** The operations told by the path they take, on any database whatever. The path is described on the raw
    database, one hop at a time; every answer, every failure and every change is then read off its end. */
module Lookups {
  import opened Base
  import opened Keys
  import opened Nodes
  import opened Schemes
  import opened NodeOps
  import opened PlainRecursion
  import opened Trees

  // ---------- the path of a key ----------

  /** The node at the end of a link, if it is there and can be read. */
  function NodeAt(sc: Scheme, db: Db, link: Link): Option<Node> {
    match link
    case Empty => None
    case Mem(n) => Some(n)
    case Hashed(h) => if h in db then sc.decode(db[h]) else None
  }

  /** The link a node hands the key on to, and what is left of the key. */
  function HopNode(n: Node, key: Bytes): Option<(Link, Bytes)> {
    match n
    case Leaf(_, _) => None
    case Extension(pk, child) => if pk <= key then Some((child, key[|pk|..])) else None
    case Branch(children, _) =>
      if key != [] && key[0] < |children| then Some((children[key[0]], key[1..])) else None
  }

  function Hop(sc: Scheme, db: Db, link: Link, key: Bytes): Option<(Link, Bytes)> {
    match NodeAt(sc, db, link)
    case None => None
    case Some(n) => HopNode(n, key)
  }

  /** The answer of a node that does not hand the key on. */
  function StopNode(n: Node, key: Bytes): Outcome<Option<Bytes>> {
    match n
    case Leaf(rest, val) => Done(if rest == key then Some(val) else None)
    case Extension(_, _) => Done(None)
    case Branch(_, value) => if key == [] then Done(value) else Failed(IndexOutOfRange)
  }

  /** What is wrong with a link that leads to no node. */
  function LinkFault(db: Db, link: Link): Option<Fault> {
    match link
    case Empty => None
    case Mem(_) => None
    case Hashed(h) => if h in db then Some(BadEncoding) else Some(MissingNode(h))
  }

  function Stop(sc: Scheme, db: Db, link: Link, key: Bytes): Outcome<Option<Bytes>> {
    match NodeAt(sc, db, link)
    case Some(n) => StopNode(n, key)
    case None =>
      match LinkFault(db, link)
      case None => Done(None)
      case Some(fault) => Failed(fault)
  }

  /** Where the path is after some hops, if it is that long. */
  function After(sc: Scheme, db: Db, link: Link, key: Bytes, hops: nat): Option<(Link, Bytes)>
    decreases hops
  {
    if hops == 0 then Some((link, key))
    else
      match Hop(sc, db, link, key)
      case None => None
      case Some(next) => After(sc, db, next.0, next.1, hops - 1)
  }

  ghost predicate EndsAt(sc: Scheme, db: Db, link: Link, key: Bytes, hops: nat, end: Link, rest: Bytes) {
    After(sc, db, link, key, hops) == Some((end, rest)) && Hop(sc, db, end, rest) == None
  }

  ghost predicate HasNoEnd(sc: Scheme, db: Db, link: Link, key: Bytes) {
    forall hops: nat :: After(sc, db, link, key, hops).Some?
  }

  /** The result of looking the key up: the answer at the end of its path, or an endless recursion. */
  ghost predicate LookupIs(sc: Scheme, db: Db, link: Link, key: Bytes, r: Outcome<Option<Bytes>>) {
    if r == Failed(EndlessRecursion) then HasNoEnd(sc, db, link, key)
    else exists hops: nat, end, rest :: EndsAt(sc, db, link, key, hops, end, rest) && r == Stop(sc, db, end, rest)
  }

  lemma {:induction false} LastHop(sc: Scheme, db: Db, link: Link, key: Bytes, hops: nat, end: Link, rest: Bytes)
    requires After(sc, db, link, key, hops) == Some((end, rest))
    ensures After(sc, db, link, key, hops + 1) == Hop(sc, db, end, rest)
    decreases hops
  {
    if hops == 0 {
      match Hop(sc, db, link, key)
      case None =>
      case Some(next) => assert After(sc, db, next.0, next.1, 0) == Some(next);
    } else {
      var next := Hop(sc, db, link, key).value;
      LastHop(sc, db, next.0, next.1, hops - 1, end, rest);
    }
  }

  // ---------- the recursion goes along the path ----------

  lemma {:induction false} DeeperIsSame(sc: Scheme, db: Db, link: Link, key: Bytes, depth: nat, deeper: nat)
    requires PlainLinkGet(sc, db, link, key, depth).Some? && depth <= deeper
    ensures PlainLinkGet(sc, db, link, key, deeper) == PlainLinkGet(sc, db, link, key, depth)
    decreases depth
  {
    match link
    case Empty =>
    case Mem(n) => NodeDeeperIsSame(sc, db, n, key, depth - 1, deeper - 1);
    case Hashed(h) =>
      match Load(sc, db, h)
      case Failed(_) =>
      case Done(n) => NodeDeeperIsSame(sc, db, n, key, depth - 1, deeper - 1);
  }

  lemma {:induction false} NodeDeeperIsSame(sc: Scheme, db: Db, n: Node, key: Bytes, depth: nat, deeper: nat)
    requires PlainNodeGet(sc, db, n, key, depth).Some? && depth <= deeper
    ensures PlainNodeGet(sc, db, n, key, deeper) == PlainNodeGet(sc, db, n, key, depth)
    decreases depth
  {
    match n
    case Leaf(_, _) =>
    case Extension(pk, child) =>
      if SharedLen(pk, key) == |pk| {
        DeeperIsSame(sc, db, child, key[|pk|..], depth - 1, deeper - 1);
      }
    case Branch(children, _) =>
      if key != [] && key[0] < |children| {
        DeeperIsSame(sc, db, children[key[0]], key[1..], depth - 1, deeper - 1);
      }
  }

  lemma PlainHop(sc: Scheme, db: Db, link: Link, key: Bytes, depth: nat)
    ensures match Hop(sc, db, link, key)
            case Some(next) => PlainLinkGet(sc, db, link, key, depth + 2) == PlainLinkGet(sc, db, next.0, next.1, depth)
            case None => PlainLinkGet(sc, db, link, key, depth + 2) == Some(Stop(sc, db, link, key))
  {
    match NodeAt(sc, db, link)
    case None =>
    case Some(n) =>
      if n.Extension? {
        PrefixBySharedLen(n.partialKey, key);
      }
  }

  /** A lookup is the lookup of the rest of the key after the first hop. */
  lemma LookupHops(sc: Scheme, db: Db, link: Link, key: Bytes)
    ensures match Hop(sc, db, link, key)
            case Some(next) => LinkGet(sc, db, link, key, {}) == LinkGet(sc, db, next.0, next.1, {})
            case None => LinkGet(sc, db, link, key, {}) == Stop(sc, db, link, key)
  {
    GuardIsExact(sc, db, link, key);
    match Hop(sc, db, link, key)
    case None =>
      PlainHop(sc, db, link, key, 0);
      ResultAtDepth(sc, db, link, key, 2);
    case Some(next) =>
      GuardIsExact(sc, db, next.0, next.1);
      if LinkGet(sc, db, next.0, next.1, {}) == Failed(EndlessRecursion) {
        forall depth: nat ensures PlainLinkGet(sc, db, link, key, depth) == None {
          PlainHop(sc, db, link, key, depth);
          if PlainLinkGet(sc, db, link, key, depth).Some? {
            DeeperIsSame(sc, db, link, key, depth, depth + 2);
          }
        }
      } else {
        var depth: nat :|
          PlainLinkGet(sc, db, next.0, next.1, depth) == Some(LinkGet(sc, db, next.0, next.1, {}));
        PlainHop(sc, db, link, key, depth);
        ResultAtDepth(sc, db, link, key, depth + 2);
      }
  }

  lemma ResultAtDepth(sc: Scheme, db: Db, link: Link, key: Bytes, depth: nat)
    requires PlainLinkGet(sc, db, link, key, depth).Some?
    ensures PlainLinkGet(sc, db, link, key, depth) == Some(LinkGet(sc, db, link, key, {}))
  {
    GuardIsExact(sc, db, link, key);
    var other: nat :| PlainLinkGet(sc, db, link, key, other) == Some(LinkGet(sc, db, link, key, {}));
    if depth <= other {
      DeeperIsSame(sc, db, link, key, depth, other);
    } else {
      DeeperIsSame(sc, db, link, key, other, depth);
    }
  }

  lemma {:induction false} LookupAfter(sc: Scheme, db: Db, link: Link, key: Bytes, hops: nat)
    requires After(sc, db, link, key, hops).Some?
    ensures var at := After(sc, db, link, key, hops).value;
            LinkGet(sc, db, link, key, {}) == LinkGet(sc, db, at.0, at.1, {})
    decreases hops
  {
    if hops == 0 {
    } else {
      var next := Hop(sc, db, link, key).value;
      LookupHops(sc, db, link, key);
      LookupAfter(sc, db, next.0, next.1, hops - 1);
    }
  }

  lemma {:induction false} EndWithinDepth(sc: Scheme, db: Db, link: Link, key: Bytes, depth: nat)
    returns (hops: nat, end: Link, rest: Bytes)
    requires PlainLinkGet(sc, db, link, key, depth).Some?
    ensures EndsAt(sc, db, link, key, hops, end, rest)
    decreases depth
  {
    match Hop(sc, db, link, key)
    case None => hops, end, rest := 0, link, key;
    case Some(next) =>
      assert depth >= 2;
      PlainHop(sc, db, link, key, depth - 2);
      hops, end, rest := EndWithinDepth(sc, db, next.0, next.1, depth - 2);
      hops := hops + 1;
  }

  lemma {:induction false} EndlessAfter(sc: Scheme, db: Db, link: Link, key: Bytes, hops: nat)
    requires LinkGet(sc, db, link, key, {}) == Failed(EndlessRecursion)
    ensures After(sc, db, link, key, hops).Some?
    decreases hops
  {
    if hops == 0 {
    } else {
      LookupHops(sc, db, link, key);
      var next := Hop(sc, db, link, key).value;
      EndlessAfter(sc, db, next.0, next.1, hops - 1);
    }
  }

  /** On any database lookup gives what stands at the end of the path of the key, failures included,
      and is endless exactly if the path is. */
  lemma LookupIsAtEndOfPath(sc: Scheme, db: Db, link: Link, key: Bytes, r: Outcome<Option<Bytes>>)
    ensures LookupIs(sc, db, link, key, r) <==> r == LinkGet(sc, db, link, key, {})
  {
    var got := LinkGet(sc, db, link, key, {});
    if got == Failed(EndlessRecursion) {
      forall hops: nat ensures After(sc, db, link, key, hops).Some? {
        EndlessAfter(sc, db, link, key, hops);
      }
      assert LookupIs(sc, db, link, key, got);
      if LookupIs(sc, db, link, key, r) && r != got {
        var hops: nat, end, rest :| EndsAt(sc, db, link, key, hops, end, rest) && r == Stop(sc, db, end, rest);
        LastHop(sc, db, link, key, hops, end, rest);
      }
    } else {
      GuardIsExact(sc, db, link, key);
      var depth: nat :| PlainLinkGet(sc, db, link, key, depth) == Some(got);
      var hops, end, rest := EndWithinDepth(sc, db, link, key, depth);
      AnswerAtEnd(sc, db, link, key, hops, end, rest);
      assert LookupIs(sc, db, link, key, got);
      LastHop(sc, db, link, key, hops, end, rest);
      assert !HasNoEnd(sc, db, link, key);
      if LookupIs(sc, db, link, key, r) {
        var hops', end', rest' :| EndsAt(sc, db, link, key, hops', end', rest') && r == Stop(sc, db, end', rest');
        AnswerAtEnd(sc, db, link, key, hops', end', rest');
      }
    }
  }

  lemma AnswerAtEnd(sc: Scheme, db: Db, link: Link, key: Bytes, hops: nat, end: Link, rest: Bytes)
    requires EndsAt(sc, db, link, key, hops, end, rest)
    ensures LinkGet(sc, db, link, key, {}) == Stop(sc, db, end, rest)
  {
    LookupAfter(sc, db, link, key, hops);
    LookupHops(sc, db, end, rest);
  }

  /** A path has one end at most. */
  lemma {:induction false} OneEnd(sc: Scheme, db: Db, link: Link, key: Bytes, hops: nat, end: Link, rest: Bytes,
                                  hops': nat, end': Link, rest': Bytes)
    requires EndsAt(sc, db, link, key, hops, end, rest) && EndsAt(sc, db, link, key, hops', end', rest')
    ensures end == end' && rest == rest'
    decreases hops
  {
    if hops == 0 || hops' == 0 {
    } else {
      var next := Hop(sc, db, link, key).value;
      OneEnd(sc, db, next.0, next.1, hops - 1, end, rest, hops' - 1, end', rest');
    }
  }

  // ---------- lookups at nodes ----------

  /** A lookup depends on the node a link leads to and on nothing else. */
  lemma SameNodeSameLookup(sc: Scheme, db: Db, link: Link, n: Node, key: Bytes)
    requires NodeAt(sc, db, link) == Some(n)
    ensures LinkGet(sc, db, link, key, {}) == NodeGet(sc, db, n, key, {})
  {
    LookupHops(sc, db, link, key);
    LookupHops(sc, db, Mem(n), key);
  }

  // ---------- the nodes a path passes ----------

  /** The path reads the node stored under this hash. */
  ghost predicate Visits(sc: Scheme, db: Db, link: Link, key: Bytes, h: HashValue) {
    && NodeAt(sc, db, Hashed(h)).Some?
    && exists hops: nat, rest :: After(sc, db, link, key, hops) == Some((Hashed(h), rest))
  }

  lemma VisitsHops(sc: Scheme, db: Db, link: Link, key: Bytes, h: HashValue)
    ensures Visits(sc, db, link, key, h) <==>
      || (link == Hashed(h) && NodeAt(sc, db, link).Some?)
      || (Hop(sc, db, link, key).Some?
          && var next := Hop(sc, db, link, key).value; Visits(sc, db, next.0, next.1, h))
  {
    if link == Hashed(h) && NodeAt(sc, db, link).Some? {
      assert After(sc, db, link, key, 0) == Some((Hashed(h), key));
    }
    if Hop(sc, db, link, key).Some? {
      var next := Hop(sc, db, link, key).value;
      if Visits(sc, db, next.0, next.1, h) {
        var hops: nat, rest :| After(sc, db, next.0, next.1, hops) == Some((Hashed(h), rest));
        assert After(sc, db, link, key, hops + 1) == Some((Hashed(h), rest));
      }
      if Visits(sc, db, link, key, h) {
        var hops: nat, rest :| After(sc, db, link, key, hops) == Some((Hashed(h), rest));
        if hops > 0 {
          assert After(sc, db, next.0, next.1, hops - 1) == Some((Hashed(h), rest));
        }
      }
    }
  }

  /** `after` is `before` with the blobs of these hashes, as `db` has them. */
  ghost predicate AddsVisited(sc: Scheme, db: Db, link: Link, key: Bytes, before: Db, after: Db) {
    forall h: HashValue ::
      && (h in after <==> h in before || Visits(sc, db, link, key, h))
      && (Visits(sc, db, link, key, h) ==> h in db && h in after && after[h] == db[h])
      && (!Visits(sc, db, link, key, h) && h in before ==> h in after && after[h] == before[h])
  }

  lemma AddsNone(sc: Scheme, db: Db, link: Link, key: Bytes, before: Db)
    requires Hop(sc, db, link, key) == None && (link.Hashed? ==> NodeAt(sc, db, link) == None)
    ensures AddsVisited(sc, db, link, key, before, before)
  {
    forall g: HashValue ensures !Visits(sc, db, link, key, g) {
      VisitsHops(sc, db, link, key, g);
    }
  }

  lemma AddsThrough(sc: Scheme, db: Db, n: Node, key: Bytes, before: Db, after: Db)
    requires HopNode(n, key).Some?
    requires var next := HopNode(n, key).value; AddsVisited(sc, db, next.0, next.1, before, after)
    ensures AddsVisited(sc, db, Mem(n), key, before, after)
  {
    var next := HopNode(n, key).value;
    forall g: HashValue ensures Visits(sc, db, Mem(n), key, g) <==> Visits(sc, db, next.0, next.1, g) {
      VisitsHops(sc, db, Mem(n), key, g);
    }
  }

  /** On any database, proof collection that ends has added the blobs of exactly the hashes its path read. */
  lemma {:induction false} ProvingAddsVisited(sc: Scheme, db: Db, proof: Db, link: Link, key: Bytes,
                                              seen: set<HashValue>)
    requires LinkProve(sc, db, proof, link, key, seen).found != Failed(EndlessRecursion)
    ensures AddsVisited(sc, db, link, key, proof, LinkProve(sc, db, proof, link, key, seen).proof)
    decreases |key|, db.Keys - seen, link
  {
    match link
    case Empty => AddsNone(sc, db, link, key, proof);
    case Mem(n) => NodeProvingAddsVisited(sc, db, proof, n, key, seen);
    case Hashed(h) =>
      match NodeAt(sc, db, link)
      case None => AddsNone(sc, db, link, key, proof);
      case Some(n) =>
        NodeProvingAddsVisited(sc, db, proof[h := db[h]], n, key, seen + {h});
        var after := LinkProve(sc, db, proof, link, key, seen).proof;
        LoadedAddsVisited(sc, db, h, n, key, proof, after);
  }

  /** The visits of a stored node are those of the node, and its own hash. */
  lemma LoadedAddsVisited(sc: Scheme, db: Db, h: HashValue, n: Node, key: Bytes, before: Db, after: Db)
    requires NodeAt(sc, db, Hashed(h)) == Some(n)
    requires AddsVisited(sc, db, Mem(n), key, before[h := db[h]], after)
    ensures AddsVisited(sc, db, Hashed(h), key, before, after)
  {
    forall g: HashValue ensures Visits(sc, db, Hashed(h), key, g) <==> g == h || Visits(sc, db, Mem(n), key, g) {
      VisitsHops(sc, db, Hashed(h), key, g);
      VisitsHops(sc, db, Mem(n), key, g);
    }
  }

  lemma {:induction false} NodeProvingAddsVisited(sc: Scheme, db: Db, proof: Db, n: Node, key: Bytes,
                                                  seen: set<HashValue>)
    requires NodeProve(sc, db, proof, n, key, seen).found != Failed(EndlessRecursion)
    ensures AddsVisited(sc, db, Mem(n), key, proof, NodeProve(sc, db, proof, n, key, seen).proof)
    decreases |key|, db.Keys - seen, n
  {
    if n.Extension? {
      PrefixBySharedLen(n.partialKey, key);
    }
    match HopNode(n, key)
    case None => AddsNone(sc, db, Mem(n), key, proof);
    case Some(next) =>
      ProvingAddsVisited(sc, db, proof, next.0, next.1, if n.Extension? && n.partialKey == [] then seen else {});
      AddsThrough(sc, db, n, key, proof, NodeProve(sc, db, proof, n, key, seen).proof);
  }
}
