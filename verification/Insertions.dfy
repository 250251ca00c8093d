/** Insertion on any database whatever: when it fails and with what, and what it changes when it does not. */
module Insertions {
  import opened Base
  import opened Keys
  import opened Nodes
  import opened Schemes
  import opened NodeOps
  import opened PlainRecursion
  import opened Trees
  import opened Lookups

  // ---------- when it fails ----------

  function FaultOf<T>(r: Outcome<T>): Option<Fault> {
    match r
    case Failed(fault) => Some(fault)
    case Done(_) => None
  }

  /** A fresh branch has no place for this suffix. */
  predicate NoPlace(suffix: Bytes) {
    suffix != [] && suffix[0] >= FANOUT
  }

  /** What is wrong with putting a key at a node that does not hand it on. */
  function StopFault(n: Node, key: Bytes): Option<Fault> {
    match n
    case Leaf(rest, _) =>
      var i := SharedLen(rest, key);
      if rest != key && (NoPlace(rest[i..]) || NoPlace(key[i..])) then Some(IndexOutOfRange) else None
    case Extension(pk, _) =>
      var i := SharedLen(pk, key);
      if NoPlace(pk[i..]) || NoPlace(key[i..]) then Some(IndexOutOfRange) else None
    case Branch(_, _) => if key == [] then None else Some(IndexOutOfRange)
  }

  function EndFault(sc: Scheme, db: Db, end: Link, rest: Bytes): Option<Fault> {
    match NodeAt(sc, db, end)
    case None => LinkFault(db, end)
    case Some(n) => StopFault(n, rest)
  }

  /** How inserting the key fails, if it does: as what stands at the end of its path says. */
  ghost predicate InsertFaultIs(sc: Scheme, db: Db, link: Link, key: Bytes, fault: Option<Fault>) {
    if fault == Some(EndlessRecursion) then HasNoEnd(sc, db, link, key)
    else exists hops: nat, end, rest ::
      EndsAt(sc, db, link, key, hops, end, rest) && fault == EndFault(sc, db, end, rest)
  }

  /** A branch with one more entry, in a place that is free. */
  function Filled(n: Node, key: Bytes, value: Bytes): Node
    requires n.Branch? && (key != [] ==> key[0] < |n.children|)
  {
    if key == [] then n.(value := Some(value))
    else n.(children := n.children[key[0] := Mem(Leaf(key[1..], value))])
  }

  ghost predicate Roomy(n: Node, key: Bytes) {
    n.Branch? && |n.children| == FANOUT && (key != [] && key[0] < FANOUT ==> n.children[key[0]].Empty?)
  }

  lemma FillBranch(sc: Scheme, arm: Arm, db: Db, n: Node, key: Bytes, value: Bytes)
    requires Roomy(n, key)
    ensures BranchInsert(sc, arm, db, n, key, value)
         == if NoPlace(key) then Failed(IndexOutOfRange) else Done(Filled(n, key, value))
  {
  }

  const BARE: Node := Branch(NO_CHILDREN, None)

  lemma SplitLeaf(sc: Scheme, arm: Arm, db: Db, rest: Bytes, val: Bytes, key: Bytes, value: Bytes,
                  seen: set<HashValue>)
    requires rest != key
    ensures var i := SharedLen(rest, key);
      NodeInsert(sc, arm, db, Leaf(rest, val), key, value, seen)
      == if NoPlace(rest[i..]) || NoPlace(key[i..]) then Failed(IndexOutOfRange)
         else Prefixed(rest[..i], Done(Filled(Filled(BARE, rest[i..], val), key[i..], value)))
    ensures var i := SharedLen(rest, key); !NoPlace(rest[i..]) ==> Roomy(Filled(BARE, rest[i..], val), key[i..])
    ensures Roomy(BARE, rest[SharedLen(rest, key)..])
  {
    var i := SharedLen(rest, key);
    FillBranch(sc, arm, db, BARE, rest[i..], val);
    if !NoPlace(rest[i..]) {
      FillBranch(sc, arm, db, Filled(BARE, rest[i..], val), key[i..], value);
    }
  }

  /** The branch that takes the place of an extension the key leaves. */
  function Hung(pk: Bytes, child: Link): Node
    requires pk != [] && !NoPlace(pk)
  {
    Branch(NO_CHILDREN[pk[0] := Lowered(pk[1..], child)], None)
  }

  lemma SplitExtension(sc: Scheme, arm: Arm, db: Db, pk: Bytes, child: Link, key: Bytes, value: Bytes,
                       seen: set<HashValue>)
    requires SharedLen(pk, key) < |pk|
    ensures var i := SharedLen(pk, key);
      NodeInsert(sc, arm, db, Extension(pk, child), key, value, seen)
      == if NoPlace(pk[i..]) || NoPlace(key[i..]) then Failed(IndexOutOfRange)
         else Rejoined(arm, pk, i, Done(Filled(Hung(pk[i..], child), key[i..], value)))
    ensures var i := SharedLen(pk, key); !NoPlace(pk[i..]) ==> Roomy(Hung(pk[i..], child), key[i..])
  {
    var i := SharedLen(pk, key);
    if !NoPlace(pk[i..]) {
      assert pk[i..][1..] == pk[i + 1..];
      FillBranch(sc, arm, db, Hung(pk[i..], child), key[i..], value);
    }
  }

  lemma StopFails(sc: Scheme, arm: Arm, db: Db, n: Node, key: Bytes, value: Bytes, seen: set<HashValue>)
    requires HopNode(n, key) == None
    ensures FaultOf(NodeInsert(sc, arm, db, n, key, value, seen)) == StopFault(n, key)
  {
    match n
    case Leaf(rest, val) =>
      if rest != key {
        SplitLeaf(sc, arm, db, rest, val, key, value, seen);
      }
    case Extension(pk, child) =>
      PrefixBySharedLen(pk, key);
      SplitExtension(sc, arm, db, pk, child, key, value, seen);
    case Branch(_, _) =>
  }

  lemma HopFails(sc: Scheme, arm: Arm, db: Db, n: Node, key: Bytes, value: Bytes, seen: set<HashValue>)
    requires HopNode(n, key).Some?
    ensures var next := HopNode(n, key).value;
      var seen' := if n.Extension? && n.partialKey == [] then seen else {};
      FaultOf(NodeInsert(sc, arm, db, n, key, value, seen))
      == FaultOf(LinkInsert(sc, arm, db, next.0, next.1, value, seen'))
  {
    if n.Extension? {
      PrefixBySharedLen(n.partialKey, key);
    }
  }

  lemma {:induction false} InsertionEnd(sc: Scheme, arm: Arm, db: Db, link: Link, key: Bytes, value: Bytes,
                                        seen: set<HashValue>) returns (hops: nat, end: Link, rest: Bytes)
    requires LinkInsert(sc, arm, db, link, key, value, seen) != Failed(EndlessRecursion)
    ensures EndsAt(sc, db, link, key, hops, end, rest)
    ensures FaultOf(LinkInsert(sc, arm, db, link, key, value, seen)) == EndFault(sc, db, end, rest)
    decreases |key|, db.Keys - seen, link
  {
    match NodeAt(sc, db, link)
    case None => hops, end, rest := 0, link, key;
    case Some(n) =>
      var seen' := if link.Hashed? then seen + {link.h} else seen;
      match HopNode(n, key) {
        case None =>
          StopFails(sc, arm, db, n, key, value, seen');
          hops, end, rest := 0, link, key;
        case Some(next) =>
          HopFails(sc, arm, db, n, key, value, seen');
          hops, end, rest := InsertionEnd(sc, arm, db, next.0, next.1, value,
                                          if n.Extension? && n.partialKey == [] then seen' else {});
          hops := hops + 1;
      }
  }

  lemma EndFaultIsFinite(sc: Scheme, db: Db, end: Link, rest: Bytes)
    ensures EndFault(sc, db, end, rest) != Some(EndlessRecursion)
  {
  }

  /** On any database an insertion fails exactly as the end of the path of its key says, and is endless exactly
      if the path is. */
  lemma InsertionFailsAtEndOfPath(sc: Scheme, arm: Arm, db: Db, link: Link, key: Bytes, value: Bytes,
                                  fault: Option<Fault>)
    ensures InsertFaultIs(sc, db, link, key, fault)
       <==> fault == FaultOf(LinkInsert(sc, arm, db, link, key, value, {}))
  {
    var r := LinkInsert(sc, arm, db, link, key, value, {});
    InsertionEndlessLikeLookup(sc, arm, db, link, key, value, {});
    LookupIsAtEndOfPath(sc, db, link, key, Failed(EndlessRecursion));
    if r != Failed(EndlessRecursion) {
      var hops, end, rest := InsertionEnd(sc, arm, db, link, key, value, {});
      EndFaultIsFinite(sc, db, end, rest);
      assert InsertFaultIs(sc, db, link, key, FaultOf(r));
      if InsertFaultIs(sc, db, link, key, fault) && fault != Some(EndlessRecursion) {
        var hops', end', rest' :|
          EndsAt(sc, db, link, key, hops', end', rest') && fault == EndFault(sc, db, end', rest');
        OneEnd(sc, db, link, key, hops, end, rest, hops', end', rest');
      }
    } else if InsertFaultIs(sc, db, link, key, fault) && fault != Some(EndlessRecursion) {
      var hops: nat, end, rest :| EndsAt(sc, db, link, key, hops, end, rest);
      LastHop(sc, db, link, key, hops, end, rest);
    }
  }

  /** What the database makes of a link is the same for both: an insertion misses a node, or meets a blob that
      cannot be read, exactly where a lookup does, and fails wherever a lookup fails. */
  lemma InsertionFailsLikeLookup(sc: Scheme, arm: Arm, db: Db, link: Link, key: Bytes, value: Bytes)
    ensures var r, found := LinkInsert(sc, arm, db, link, key, value, {}), LinkGet(sc, db, link, key, {});
      && (forall h: HashValue :: r == Failed(MissingNode(h)) <==> found == Failed(MissingNode(h)))
      && (r == Failed(BadEncoding) <==> found == Failed(BadEncoding))
      && (r == Failed(EndlessRecursion) <==> found == Failed(EndlessRecursion))
      && (found.Failed? ==> r == Failed(found.fault))
      && (r.Done? ==> r.value.Mem?)
  {
    var r := LinkInsert(sc, arm, db, link, key, value, {});
    InsertionEndlessLikeLookup(sc, arm, db, link, key, value, {});
    if r != Failed(EndlessRecursion) {
      var hops, end, rest := InsertionEnd(sc, arm, db, link, key, value, {});
      AnswerAtEnd(sc, db, link, key, hops, end, rest);
    }
  }

  // ---------- what it changes ----------

  lemma GetFilled(sc: Scheme, db: Db, n: Node, key: Bytes, value: Bytes, q: Bytes)
    requires Roomy(n, key) && !NoPlace(key)
    ensures NodeGet(sc, db, Filled(n, key, value), q, {})
         == if q == key then Done(Some(value)) else NodeGet(sc, db, n, q, {})
  {
    if key != [] && q != [] && q[0] == key[0] {
      assert q == [q[0]] + q[1..] && key == [key[0]] + key[1..];
      assert LinkGet(sc, db, n.children[key[0]], q[1..], {}) == Done(None);
      assert NodeGet(sc, db, Leaf(key[1..], value), q[1..], {})
          == Done(if key[1..] == q[1..] then Some(value) else None);
    }
  }

  lemma GetPrefixed(sc: Scheme, db: Db, prefix: Bytes, fork: Node, q: Bytes)
    ensures Prefixed(prefix, Done(fork)).Done?
    ensures NodeGet(sc, db, Prefixed(prefix, Done(fork)).value, q, {})
         == if prefix <= q then NodeGet(sc, db, fork, q[|prefix|..], {}) else Done(None)
  {
    PrefixBySharedLen(prefix, q);
  }

  lemma GetExtension(sc: Scheme, db: Db, pk: Bytes, child: Link, q: Bytes)
    ensures NodeGet(sc, db, Extension(pk, child), q, {})
         == if pk <= q then LinkGet(sc, db, child, q[|pk|..], {}) else Done(None)
  {
    PrefixBySharedLen(pk, q);
  }

  lemma GetBare(sc: Scheme, db: Db, q: Bytes)
    requires AllNibbles(q)
    ensures NodeGet(sc, db, BARE, q, {}) == Done(None)
  {
  }

  /** A branch answers with the child of the first nibble as the extension did. */
  lemma GetHung(sc: Scheme, db: Db, pk: Bytes, child: Link, q: Bytes)
    requires pk != [] && !NoPlace(pk) && AllNibbles(q)
    ensures NodeGet(sc, db, Hung(pk, child), q, {}) == NodeGet(sc, db, Extension(pk, child), q, {})
  {
    GetExtension(sc, db, pk, child, q);
    if q != [] && q[0] == pk[0] {
      SharedTail(pk, q);
      GetExtension(sc, db, pk[1..], child, q[1..]);
    }
  }

  /** An extension is a shorter one below a prefix. */
  lemma GetCutExtension(sc: Scheme, db: Db, pk: Bytes, i: nat, child: Link, q: Bytes)
    requires i < |pk|
    ensures NodeGet(sc, db, Extension(pk, child), q, {})
         == if pk[..i] <= q then NodeGet(sc, db, Extension(pk[i..], child), q[i..], {}) else Done(None)
  {
    GetExtension(sc, db, pk, child, q);
    assert pk == pk[..i] + pk[i..];
    if pk[..i] <= q {
      assert q == pk[..i] + q[i..];
      GetExtension(sc, db, pk[i..], child, q[i..]);
      if pk[i..] <= q[i..] {
        assert q[i..][|pk| - i..] == q[|pk|..];
      }
    }
  }

  lemma GetFilledTwice(sc: Scheme, db: Db, rest: Bytes, val: Bytes, key: Bytes, value: Bytes, q: Bytes)
    requires !NoPlace(rest) && !NoPlace(key) && AllNibbles(q)
    requires Roomy(Filled(BARE, rest, val), key)
    ensures NodeGet(sc, db, Filled(Filled(BARE, rest, val), key, value), q, {})
         == Done(if q == key then Some(value) else if q == rest then Some(val) else None)
  {
    GetFilled(sc, db, Filled(BARE, rest, val), key, value, q);
    GetFilled(sc, db, BARE, rest, val, q);
    GetBare(sc, db, q);
  }

  lemma GetSplitLeaf(sc: Scheme, db: Db, rest: Bytes, val: Bytes, i: nat, key: Bytes, value: Bytes, q: Bytes)
    requires rest != key && AllNibbles(q) && i == SharedLen(rest, key)
    requires !NoPlace(rest[i..]) && !NoPlace(key[i..]) && Roomy(Filled(BARE, rest[i..], val), key[i..])
    ensures var r := Prefixed(rest[..i], Done(Filled(Filled(BARE, rest[i..], val), key[i..], value)));
      r.Done? && NodeGet(sc, db, r.value, q, {})
      == if q == key then Done(Some(value)) else NodeGet(sc, db, Leaf(rest, val), q, {})
  {
    GetPrefixed(sc, db, rest[..i], Filled(Filled(BARE, rest[i..], val), key[i..], value), q);
    SamePrefix(rest[..i], key, q);
    SamePrefix(rest[..i], rest, q);
    if rest[..i] <= q {
      GetFilledTwice(sc, db, rest[i..], val, key[i..], value, q[i..]);
    }
  }

  lemma GetFilledHung(sc: Scheme, db: Db, pk: Bytes, child: Link, key: Bytes, value: Bytes, q: Bytes)
    requires pk != [] && !NoPlace(pk) && !NoPlace(key) && AllNibbles(q)
    requires Roomy(Hung(pk, child), key)
    ensures NodeGet(sc, db, Filled(Hung(pk, child), key, value), q, {})
         == if q == key then Done(Some(value)) else NodeGet(sc, db, Extension(pk, child), q, {})
  {
    GetFilled(sc, db, Hung(pk, child), key, value, q);
    GetHung(sc, db, pk, child, q);
  }

  lemma GetJoined(sc: Scheme, db: Db, pk: Bytes, child: Link, i: nat, fork: Node, key: Bytes, value: Bytes, q: Bytes)
    requires i < |pk| && pk[..i] <= key
    requires pk[..i] <= q ==>
      NodeGet(sc, db, fork, q[i..], {})
      == if q[i..] == key[i..] then Done(Some(value)) else NodeGet(sc, db, Extension(pk[i..], child), q[i..], {})
    ensures var r := Prefixed(pk[..i], Done(fork));
      r.Done? && NodeGet(sc, db, r.value, q, {})
      == if q == key then Done(Some(value)) else NodeGet(sc, db, Extension(pk, child), q, {})
  {
    GetPrefixed(sc, db, pk[..i], fork, q);
    GetCutExtension(sc, db, pk, i, child, q);
    SamePrefix(pk[..i], key, q);
  }

  lemma GetSplitExtension(sc: Scheme, db: Db, pk: Bytes, child: Link, i: nat, key: Bytes, value: Bytes, q: Bytes)
    requires i == SharedLen(pk, key) < |pk| && AllNibbles(q)
    requires !NoPlace(pk[i..]) && !NoPlace(key[i..]) && Roomy(Hung(pk[i..], child), key[i..])
    ensures var r := Prefixed(pk[..i], Done(Filled(Hung(pk[i..], child), key[i..], value)));
      r.Done? && NodeGet(sc, db, r.value, q, {})
      == if q == key then Done(Some(value)) else NodeGet(sc, db, Extension(pk, child), q, {})
  {
    if pk[..i] <= q {
      GetFilledHung(sc, db, pk[i..], child, key[i..], value, q[i..]);
    }
    GetJoined(sc, db, pk, child, i, Filled(Hung(pk[i..], child), key[i..], value), key, value, q);
  }

  lemma ChangedBelowExtension(sc: Scheme, db: Db, pk: Bytes, child: Link, child': Link, key: Bytes, value: Bytes,
                              q: Bytes)
    requires SharedLen(pk, key) == |pk|
    requires pk <= q ==>
      LinkGet(sc, db, child', q[|pk|..], {})
      == if q[|pk|..] == key[|pk|..] then Done(Some(value)) else LinkGet(sc, db, child, q[|pk|..], {})
    ensures NodeGet(sc, db, Extension(pk, child'), q, {})
         == if q == key then Done(Some(value)) else NodeGet(sc, db, Extension(pk, child), q, {})
  {
    PrefixBySharedLen(pk, key);
    SamePrefix(pk, key, q);
    GetExtension(sc, db, pk, child, q);
    GetExtension(sc, db, pk, child', q);
  }

  lemma GetBranch(sc: Scheme, db: Db, children: seq<Link>, here: Option<Bytes>, q: Bytes)
    ensures NodeGet(sc, db, Branch(children, here), q, {})
         == if q == [] then Done(here)
            else if q[0] >= |children| then Failed(IndexOutOfRange)
            else LinkGet(sc, db, children[q[0]], q[1..], {})
  {
  }

  lemma ChangedBelowBranch(sc: Scheme, db: Db, children: seq<Link>, here: Option<Bytes>, child': Link, key: Bytes,
                           value: Bytes, q: Bytes)
    requires key != [] && key[0] < |children|
    requires q != [] && q[0] == key[0] ==>
      LinkGet(sc, db, child', q[1..], {})
      == if q[1..] == key[1..] then Done(Some(value)) else LinkGet(sc, db, children[key[0]], q[1..], {})
    ensures NodeGet(sc, db, Branch(children[key[0] := child'], here), q, {})
         == if q == key then Done(Some(value)) else NodeGet(sc, db, Branch(children, here), q, {})
  {
    GetBranch(sc, db, children, here, q);
    GetBranch(sc, db, children[key[0] := child'], here, q);
    if q != [] && q[0] == key[0] {
      assert key == [key[0]] + key[1..] && q == [q[0]] + q[1..];
    }
  }

  /** On any database, whatever it holds, an insertion that does not fail changes the lookup of one key and of no
      other: the others find, miss, fail and run on as before. The prefix is kept. */
  lemma {:induction false} InsertionChangesOneKey(sc: Scheme, db: Db, link: Link, key: Bytes, value: Bytes,
                                                  seen: set<HashValue>, q: Bytes)
    requires AllNibbles(q)
    ensures var r := LinkInsert(sc, Wrapping, db, link, key, value, seen);
      r.Done? ==>
        LinkGet(sc, db, r.value, q, {}) == if q == key then Done(Some(value)) else LinkGet(sc, db, link, q, {})
    decreases |key|, db.Keys - seen, link
  {
    match NodeAt(sc, db, link)
    case None =>
    case Some(n) =>
      var seen' := if link.Hashed? then seen + {link.h} else seen;
      if LinkInsert(sc, Wrapping, db, link, key, value, seen).Done? {
        SameNodeSameLookup(sc, db, link, n, q);
        NodeInsertionChangesOneKey(sc, db, n, key, value, seen', q);
      }
  }

  lemma {:induction false} NodeInsertionChangesOneKey(sc: Scheme, db: Db, n: Node, key: Bytes, value: Bytes,
                                                      seen: set<HashValue>, q: Bytes)
    requires AllNibbles(q) && NodeInsert(sc, Wrapping, db, n, key, value, seen).Done?
    ensures NodeGet(sc, db, NodeInsert(sc, Wrapping, db, n, key, value, seen).value, q, {})
         == if q == key then Done(Some(value)) else NodeGet(sc, db, n, q, {})
    decreases |key|, db.Keys - seen, n
  {
    match n
    case Leaf(rest, val) =>
      if rest != key {
        SplitLeaf(sc, Wrapping, db, rest, val, key, value, seen);
        GetSplitLeaf(sc, db, rest, val, SharedLen(rest, key), key, value, q);
      }
    case Extension(pk, child) =>
      var i := SharedLen(pk, key);
      if i == |pk| {
        var seen' := if pk == [] then seen else {};
        if pk <= q {
          InsertionChangesOneKey(sc, db, child, key[i..], value, seen', q[i..]);
        }
        ChangedBelowExtension(sc, db, pk, child, LinkInsert(sc, Wrapping, db, child, key[i..], value, seen').value, key,
                              value, q);
      } else {
        SplitExtension(sc, Wrapping, db, pk, child, key, value, seen);
        GetSplitExtension(sc, db, pk, child, i, key, value, q);
      }
    case Branch(children, here) =>
      if key != [] {
        if q != [] && q[0] == key[0] {
          InsertionChangesOneKey(sc, db, children[key[0]], key[1..], value, {}, q[1..]);
        }
        ChangedBelowBranch(sc, db, children, here,
                           LinkInsert(sc, Wrapping, db, children[key[0]], key[1..], value, {}).value, key, value, q);
      }
  }

  // ---------- the two versions ----------

  /** The one-nibble case: the path ends at an extension of which the key leaves exactly the last nibble, and
      some prefix is shared. */
  ghost predicate DropsAtEnd(sc: Scheme, db: Db, link: Link, key: Bytes) {
    exists hops: nat, end, rest ::
      EndsAt(sc, db, link, key, hops, end, rest) && DropsAtLink(sc, db, end, rest)
  }

  predicate DropsAtLink(sc: Scheme, db: Db, link: Link, key: Bytes) {
    match NodeAt(sc, db, link)
    case None => false
    case Some(n) => n.Extension? && var i := SharedLen(n.partialKey, key); 0 < i && i + 1 == |n.partialKey|
  }

  lemma DropsAfterHop(sc: Scheme, db: Db, link: Link, key: Bytes)
    ensures DropsAtEnd(sc, db, link, key) <==>
      match Hop(sc, db, link, key)
      case Some(next) => DropsAtEnd(sc, db, next.0, next.1)
      case None => DropsAtLink(sc, db, link, key)
  {
    match Hop(sc, db, link, key)
    case None => assert EndsAt(sc, db, link, key, 0, link, key);
    case Some(next) =>
      if DropsAtEnd(sc, db, next.0, next.1) {
        var hops: nat, end, rest :|
          EndsAt(sc, db, next.0, next.1, hops, end, rest) && DropsAtLink(sc, db, end, rest);
        assert EndsAt(sc, db, link, key, hops + 1, end, rest);
      }
      if DropsAtEnd(sc, db, link, key) {
        var hops: nat, end, rest :| EndsAt(sc, db, link, key, hops, end, rest) && DropsAtLink(sc, db, end, rest);
        assert EndsAt(sc, db, next.0, next.1, hops - 1, end, rest);
      }
  }

  /** On any database the program as written builds what the wrapping version builds exactly outside that case. */
  lemma {:induction false} VersionsAgree(sc: Scheme, db: Db, link: Link, key: Bytes, value: Bytes,
                                         seen: set<HashValue>)
    ensures var written, wrapping := LinkInsert(sc, AsWritten, db, link, key, value, seen),
                                     LinkInsert(sc, Wrapping, db, link, key, value, seen);
      && FaultOf(written) == FaultOf(wrapping)
      && (wrapping.Done? ==> (written == wrapping <==> !DropsAtEnd(sc, db, link, key)))
    decreases |key|, db.Keys - seen, link
  {
    DropsAfterHop(sc, db, link, key);
    if NodeAt(sc, db, link).Some? && !(link.Hashed? && link.h in seen) {
      var n := NodeAt(sc, db, link).value;
      var seen' := if link.Hashed? then seen + {link.h} else seen;
      match HopNode(n, key)
      case Some(next) =>
        VersionsAgreeBelow(sc, db, n, key, value, seen');
        VersionsAgree(sc, db, next.0, next.1, value, if n.Extension? && n.partialKey == [] then seen' else {});
      case None => VersionsAgreeAtEnd(sc, db, n, key, value, seen');
    }
  }

  lemma VersionsAgreeBelow(sc: Scheme, db: Db, n: Node, key: Bytes, value: Bytes, seen: set<HashValue>)
    requires HopNode(n, key).Some?
    ensures var next := HopNode(n, key).value;
      var seen' := if n.Extension? && n.partialKey == [] then seen else {};
      var written, wrapping := LinkInsert(sc, AsWritten, db, next.0, next.1, value, seen'),
                               LinkInsert(sc, Wrapping, db, next.0, next.1, value, seen');
      var written', wrapping' := NodeInsert(sc, AsWritten, db, n, key, value, seen),
                                 NodeInsert(sc, Wrapping, db, n, key, value, seen);
      && FaultOf(written') == FaultOf(written) && FaultOf(wrapping') == FaultOf(wrapping)
      && (written.Done? && wrapping.Done? ==> (written' == wrapping' <==> written == wrapping))
  {
    match n
    case Extension(pk, child) => PrefixBySharedLen(pk, key);
    case Branch(children, here) =>
      var written, wrapping := LinkInsert(sc, AsWritten, db, children[key[0]], key[1..], value, {}),
                               LinkInsert(sc, Wrapping, db, children[key[0]], key[1..], value, {});
      if written.Done? && wrapping.Done? {
        assert children[key[0] := written.value][key[0]] == written.value;
        assert children[key[0] := wrapping.value][key[0]] == wrapping.value;
      }
  }

  lemma VersionsAgreeAtEnd(sc: Scheme, db: Db, n: Node, key: Bytes, value: Bytes, seen: set<HashValue>)
    requires HopNode(n, key) == None
    ensures var written, wrapping := NodeInsert(sc, AsWritten, db, n, key, value, seen),
                                     NodeInsert(sc, Wrapping, db, n, key, value, seen);
      && FaultOf(written) == FaultOf(wrapping)
      && (wrapping.Done? ==> (written == wrapping <==> !DropsAtLink(sc, db, Mem(n), key)))
  {
    match n
    case Leaf(rest, val) =>
      if rest != key {
        SplitLeaf(sc, AsWritten, db, rest, val, key, value, seen);
        SplitLeaf(sc, Wrapping, db, rest, val, key, value, seen);
      }
    case Extension(pk, child) =>
      PrefixBySharedLen(pk, key);
      SplitExtension(sc, AsWritten, db, pk, child, key, value, seen);
      SplitExtension(sc, Wrapping, db, pk, child, key, value, seen);
    case Branch(_, _) =>
  }
}
