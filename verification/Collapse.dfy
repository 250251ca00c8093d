/** Collapsing a link stores the tree it stands for and changes no lookup; how much it writes. */
module Collapse {
  import opened Base
  import opened Keys
  import opened Nodes
  import opened Schemes
  import opened NodeOps
  import opened Trees
  import opened Represent

  ghost function Elements(blobs: seq<Blob>): set<Blob> {
    set b | b in blobs
  }

  /** Every blob of the list is stored under its hash. */
  ghost predicate AllPut(sc: Scheme, db: Db, blobs: seq<Blob>) {
    forall b :: b in blobs ==> sc.hash(b) in db && db[sc.hash(b)] == b
  }

  // ---------- writing without collisions only grows the database ----------

  /** `db'` is `db` with these blobs added, each under its hash, and nothing lost. */
  ghost predicate Grown(sc: Scheme, db: Db, db': Db, blobs: set<Blob>) {
    && SubDb(db, db') && ContentAddressed(sc, db') && db'.Values == db.Values + blobs
  }

  lemma PutGrows(sc: Scheme, db: Db, b: Blob)
    requires ContentAddressed(sc, db) && CollisionFree(sc, db.Values + {b})
    ensures Grown(sc, db, db[sc.hash(b) := b], {b})
  {
    var db' := db[sc.hash(b) := b];
    assert db'[sc.hash(b)] == b;
    forall h | h in db ensures db'[h] == db[h] {
      assert db[h] in db.Values;
    }
    forall x | x in db.Values ensures x in db'.Values {
      var h :| h in db && db[h] == x;
      assert db'[h] == x;
    }
  }

  lemma GrownTwice(sc: Scheme, db: Db, db1: Db, db2: Db, a: set<Blob>, b: set<Blob>)
    requires Grown(sc, db, db1, a) && Grown(sc, db1, db2, b)
    ensures Grown(sc, db, db2, a + b)
  {
  }

  lemma {:induction false} PutAllGrows(sc: Scheme, db: Db, blobs: seq<Blob>)
    requires ContentAddressed(sc, db) && CollisionFree(sc, db.Values + Elements(blobs))
    ensures Grown(sc, db, PutAll(sc, db, blobs), Elements(blobs))
    ensures AllPut(sc, PutAll(sc, db, blobs), blobs)
    decreases blobs
  {
    if blobs == [] {
      assert Elements(blobs) == {};
    } else {
      var init, last := blobs[..|blobs| - 1], blobs[|blobs| - 1];
      var d := PutAll(sc, db, init);
      assert Elements(blobs) == Elements(init) + {last};
      PutAllGrows(sc, db, init);
      assert d.Values + {last} == db.Values + Elements(blobs);
      PutGrows(sc, d, last);
      GrownTwice(sc, db, d, d[sc.hash(last) := last], Elements(init), {last});
      StoredUnderHash(sc, PutAll(sc, db, blobs), blobs);
    }
  }

  lemma StoredUnderHash(sc: Scheme, db: Db, blobs: seq<Blob>)
    requires ContentAddressed(sc, db) && Elements(blobs) <= db.Values
    ensures AllPut(sc, db, blobs)
  {
    forall b | b in blobs ensures sc.hash(b) in db && db[sc.hash(b)] == b {
      assert b in Elements(blobs);
    }
  }

  /** At every point of a sequence of writes, what was there before is still there. */
  lemma EarlierWritesStay(sc: Scheme, db: Db, a: seq<Blob>, b: seq<Blob>)
    requires ContentAddressed(sc, db) && CollisionFree(sc, db.Values + Elements(a + b))
    ensures SubDb(PutAll(sc, db, a), PutAll(sc, db, a + b))
  {
    assert Elements(a + b) == Elements(a) + Elements(b);
    PutAllGrows(sc, db, a);
    assert PutAll(sc, db, a).Values + Elements(b) == db.Values + Elements(a + b);
    PutAllGrows(sc, PutAll(sc, db, a), b);
    PutAllAppend(sc, db, a, b);
  }

  /** Of several writes under one hash the last one stands; where nothing is written nothing changes. */
  lemma {:induction false} LastWriteStands(sc: Scheme, db: Db, blobs: seq<Blob>, h: HashValue)
    ensures var d := PutAll(sc, db, blobs);
      && (forall i :: 0 <= i < |blobs| && sc.hash(blobs[i]) == h && NotWritten(sc, blobs[i + 1..], h) ==>
            h in d && d[h] == blobs[i])
      && (NotWritten(sc, blobs, h) ==> (h in d <==> h in db) && (h in d ==> d[h] == db[h]))
    decreases blobs
  {
    if blobs == [] {
    } else {
      var init, last := blobs[..|blobs| - 1], blobs[|blobs| - 1];
      LastWriteStands(sc, db, init, h);
      var d := PutAll(sc, db, init);
      assert PutAll(sc, db, blobs) == d[sc.hash(last) := last];
      forall i | 0 <= i < |blobs| && sc.hash(blobs[i]) == h && NotWritten(sc, blobs[i + 1..], h)
        ensures h in PutAll(sc, db, blobs) && PutAll(sc, db, blobs)[h] == blobs[i]
      {
        if i < |init| {
          NotWrittenBefore(sc, blobs[i + 1..], h);
          assert blobs[i + 1..][..|init| - i - 1] == init[i + 1..];
        }
      }
      if NotWritten(sc, blobs, h) {
        NotWrittenBefore(sc, blobs, h);
      }
    }
  }

  lemma NotWrittenBefore(sc: Scheme, blobs: seq<Blob>, h: HashValue)
    requires NotWritten(sc, blobs, h) && blobs != []
    ensures NotWritten(sc, blobs[..|blobs| - 1], h) && sc.hash(blobs[|blobs| - 1]) != h
  {
  }

  ghost predicate NotWritten(sc: Scheme, blobs: seq<Blob>, h: HashValue) {
    forall j :: 0 <= j < |blobs| ==> sc.hash(blobs[j]) != h
  }

  lemma {:induction false} PutAllSize(sc: Scheme, db: Db, blobs: seq<Blob>)
    ensures |PutAll(sc, db, blobs)| <= |db| + |blobs|
    decreases blobs
  {
    if blobs == [] {
    } else {
      var init, last := blobs[..|blobs| - 1], blobs[|blobs| - 1];
      PutAllSize(sc, db, init);
      var d := PutAll(sc, db, init);
      assert d[sc.hash(last) := last].Keys == d.Keys + {sc.hash(last)};
    }
  }

  // ---------- the collapsed link ----------

  /** Whatever mixture of memory and hashes a link is, collapsing gives the hash of the tree it stands for. */
  lemma {:induction false} ShutIsLinkOf(sc: Scheme, db: Db, link: Link, t: Tree)
    requires Rep(sc, db, link, t)
    ensures Shut(sc, link) == LinkOf(sc, t)
    decreases link
  {
    if !link.Mem? {
    } else {
      match link.node
      case Leaf(_, _) =>
      case Extension(_, child) => ShutIsLinkOf(sc, db, child, t.below);
      case Branch(children, _) =>
        forall i | 0 <= i < |children| ensures Shut(sc, children[i]) == LinkOf(sc, t.kids[i]) {
          ShutIsLinkOf(sc, db, children[i], t.kids[i]);
        }
        assert ShutNode(sc, link.node).children == NodeOf(sc, t).children;
    }
  }

  lemma {:induction false} WrittenForChild(sc: Scheme, links: seq<Link>, b: Blob) returns (i: nat)
    requires b in WritesAll(sc, links)
    ensures i < |links| && b in Writes(sc, links[i])
    decreases links
  {
    i := |links| - 1;
    if b !in Writes(sc, links[i]) {
      i := WrittenForChild(sc, links[..i], b);
    }
  }

  /** The writes of one child are a stretch of the writes of all. */
  lemma {:induction false} ChildWrites(sc: Scheme, links: seq<Link>, i: nat) returns (before: seq<Blob>,
                                       after: seq<Blob>)
    requires i < |links|
    ensures WritesAll(sc, links) == before + Writes(sc, links[i]) + after
    decreases links
  {
    var n := |links| - 1;
    if i == n {
      before, after := WritesAll(sc, links[..n]), [];
    } else {
      before, after := ChildWrites(sc, links[..n], i);
      after := after + Writes(sc, links[n]);
    }
  }

  /** What collapsing writes are blobs of the tree. */
  lemma {:induction false} WritesAreBlobs(sc: Scheme, db: Db, link: Link, t: Tree)
    requires Rep(sc, db, link, t)
    ensures Elements(Writes(sc, link)) <= Blobs(sc, t)
    decreases link
  {
    if !link.Mem? {
    } else {
      ShutIsLinkOf(sc, db, link, t);
      ShutNodeIsNodeOf(sc, db, link.node, t);
      match link.node
      case Leaf(_, _) =>
      case Extension(_, child) => WritesAreBlobs(sc, db, child, t.below);
      case Branch(children, _) =>
        forall b | b in WritesAll(sc, children) ensures b in Blobs(sc, t) {
          var i := WrittenForChild(sc, children, b);
          WritesAreBlobs(sc, db, children[i], t.kids[i]);
          assert b in Elements(Writes(sc, children[i]));
        }
    }
  }

  lemma ShutNodeIsNodeOf(sc: Scheme, db: Db, n: Node, t: Tree)
    requires RepNode(sc, db, n, t)
    ensures ShutNode(sc, n) == NodeOf(sc, t)
  {
    match n
    case Leaf(_, _) =>
    case Extension(_, child) => ShutIsLinkOf(sc, db, child, t.below);
    case Branch(children, _) =>
      forall i | 0 <= i < |children| ensures Shut(sc, children[i]) == LinkOf(sc, t.kids[i]) {
        ShutIsLinkOf(sc, db, children[i], t.kids[i]);
      }
      assert ShutNode(sc, n).children == NodeOf(sc, t).children;
  }

  lemma LastWrite(sc: Scheme, n: Node)
    ensures var blobs := Writes(sc, Mem(n));
            blobs != [] && blobs[|blobs| - 1] == sc.encode(ShutNode(sc, n))
  {
  }

  /** Once a link's writes are in the database the whole tree is. */
  lemma {:induction false} WrittenIsStored(sc: Scheme, db: Db, db': Db, link: Link, t: Tree)
    requires Rep(sc, db, link, t) && SubDb(db, db') && AllPut(sc, db', Writes(sc, link))
    ensures Stored(sc, db', t)
    decreases link
  {
    match link
    case Empty =>
    case Hashed(_) => StoredGrows(sc, db, db', t);
    case Mem(n) =>
      ShutNodeIsNodeOf(sc, db, n, t);
      LastWrite(sc, n);
      assert BlobOf(sc, t) in Writes(sc, link);
      match n
      case Leaf(_, _) =>
      case Extension(_, child) => WrittenIsStored(sc, db, db', child, t.below);
      case Branch(children, _) =>
        forall i | 0 <= i < |children| ensures Stored(sc, db', t.kids[i]) {
          var before, after := ChildWrites(sc, children, i);
          forall b | b in Writes(sc, children[i]) ensures sc.hash(b) in db' && db'[sc.hash(b)] == b {
            assert b in before + Writes(sc, children[i]) + after;
          }
          WrittenIsStored(sc, db, db', children[i], t.kids[i]);
        }
  }

  /** Collapse preserves meaning: the link it returns is the root hash of the tree the given link stood
      for, stands for that same tree in the new database, and every other link still stands for its own. */
  lemma CollapsePreservesMeaning(sc: Scheme, db: Db, link: Link, t: Tree, other: Link, u: Tree, key: Bytes)
    requires Canon(t) && Rep(sc, db, link, t) && AllNibbles(key)
    requires Canon(u) && Rep(sc, db, other, u)
    requires ContentAddressed(sc, db) && CollisionFree(sc, db.Values + Elements(Writes(sc, link)))
    ensures var db' := PutAll(sc, db, Writes(sc, link));
      && Shut(sc, link) == LinkOf(sc, t)
      && Stored(sc, db', t) && Rep(sc, db', Shut(sc, link), t)
      && LinkGet(sc, db', Shut(sc, link), key, {}) == LinkGet(sc, db, link, key, {})
      && Rep(sc, db', other, u)
      && LinkGet(sc, db', other, key, {}) == LinkGet(sc, db, other, key, {})
  {
    var db' := PutAll(sc, db, Writes(sc, link));
    PutAllGrows(sc, db, Writes(sc, link));
    ShutIsLinkOf(sc, db, link, t);
    WrittenIsStored(sc, db, db', link, t);
    RepGrows(sc, db, db', other, u);
    LinkGetIsGet(sc, db, link, t, key);
    LinkGetIsGet(sc, db', Shut(sc, link), t, key);
    LinkGetIsGet(sc, db, other, u, key);
    LinkGetIsGet(sc, db', other, u, key);
  }

  // ---------- structural sharing ----------

  lemma {:induction false} ReplaceMemCount(links: seq<Link>, i: nat, link: Link)
    requires i < |links|
    ensures MemCountAll(links[i := link]) == MemCountAll(links) - MemCount(links[i]) + MemCount(link)
    decreases links
  {
    var n := |links| - 1;
    var links' := links[i := link];
    if i == n {
      assert links'[..n] == links[..n];
    } else {
      assert links'[..n] == links[..n][i := link];
      ReplaceMemCount(links[..n], i, link);
    }
  }

  lemma {:induction false} NoneInMemory(links: seq<Link>)
    requires forall i :: 0 <= i < |links| ==> !links[i].Mem?
    ensures MemCountAll(links) == 0
    decreases links
  {
    if links == [] {
    } else {
      NoneInMemory(links[..|links| - 1]);
    }
  }

  /** A node loaded from the database is the only one of its tree in memory. */
  lemma LoadedMemCount(sc: Scheme, t: Tree)
    requires !t.Nil?
    ensures NodeMemCount(NodeOf(sc, t)) == 1
  {
    if t.Fork? {
      var links := NodeOf(sc, t).children;
      forall i | 0 <= i < |links| ensures !links[i].Mem? {
        assert links[i] == LinkOf(sc, t.kids[i]);
      }
      NoneInMemory(links);
    }
  }

  lemma BranchInsertMemCount(sc: Scheme, arm: Arm, db: Db, n: Node, key: Bytes, value: Bytes)
    requires n.Branch? && (key != [] ==> key[0] < |n.children| && n.children[key[0]].Empty?)
    ensures var r := BranchInsert(sc, arm, db, n, key, value);
      && r.Done? && NodeMemCount(r.value) == NodeMemCount(n) + if key == [] then 0 else 1
  {
    if key != [] {
      ReplaceMemCount(n.children, key[0], Mem(Leaf(key[1..], value)));
    }
  }

  /** A fresh branch with one entry. */
  lemma FreshInsertMemCount(sc: Scheme, arm: Arm, db: Db, rest: Bytes, val: Bytes)
    requires AllNibbles(rest)
    ensures var one := BranchInsert(sc, arm, db, Branch(NO_CHILDREN, None), rest, val);
      && one.Done? && one.value.Branch? && NodeMemCount(one.value) <= 2 && |one.value.children| == FANOUT
      && forall j :: 0 <= j < FANOUT && (rest == [] || j != rest[0]) ==> one.value.children[j].Empty?
  {
    NoneInMemory(NO_CHILDREN);
    BranchInsertMemCount(sc, arm, db, Branch(NO_CHILDREN, None), rest, val);
  }

  lemma LeafForkMemCount(sc: Scheme, arm: Arm, db: Db, rest: Bytes, val: Bytes, i: nat, key: Bytes, value: Bytes)
    requires AllNibbles(rest) && AllNibbles(key) && rest != key && i == SharedLen(rest, key)
    ensures var one := BranchInsert(sc, arm, db, Branch(NO_CHILDREN, None), rest[i..], val);
      && one.Done? && one.value.Branch?
      && var two := BranchInsert(sc, arm, db, one.value, key[i..], value);
         two.Done? && NodeMemCount(two.value) <= if i == |key| then 2 else 3
  {
    FreshInsertMemCount(sc, arm, db, rest[i..], val);
    var one := BranchInsert(sc, arm, db, Branch(NO_CHILDREN, None), rest[i..], val).value;
    BranchInsertMemCount(sc, arm, db, one, key[i..], value);
  }

  lemma LeafInsertMemCount(sc: Scheme, arm: Arm, db: Db, rest: Bytes, val: Bytes, key: Bytes, value: Bytes,
                           seen: set<HashValue>)
    requires AllNibbles(rest) && AllNibbles(key)
    ensures var r := NodeInsert(sc, arm, db, Leaf(rest, val), key, value, seen);
            r.Done? && NodeMemCount(r.value) <= |key| + 2
  {
    if rest != key {
      LeafForkMemCount(sc, arm, db, rest, val, SharedLen(rest, key), key, value);
    }
  }

  lemma SplitForkMemCount(sc: Scheme, arm: Arm, db: Db, pk: Bytes, i: nat, child: Link, key: Bytes, value: Bytes)
    requires AllNibbles(pk) && AllNibbles(key) && i == SharedLen(pk, key) < |pk|
    ensures var children := NO_CHILDREN[pk[i] := Lowered(pk[i + 1..], child)];
            var r := BranchInsert(sc, arm, db, Branch(children, None), key[i..], value);
            r.Done? && NodeMemCount(r.value) <= MemCount(child) + if i == |key| then 2 else 3
  {
    var lower := Lowered(pk[i + 1..], child);
    var children := NO_CHILDREN[pk[i] := lower];
    NoneInMemory(NO_CHILDREN);
    ReplaceMemCount(NO_CHILDREN, pk[i], lower);
    assert MemCount(lower) <= MemCount(child) + 1;
    BranchInsertMemCount(sc, arm, db, Branch(children, None), key[i..], value);
  }

  lemma SplitExtensionMemCount(sc: Scheme, arm: Arm, db: Db, pk: Bytes, child: Link, key: Bytes, value: Bytes,
                               seen: set<HashValue>)
    requires AllNibbles(pk) && AllNibbles(key) && SharedLen(pk, key) < |pk|
    ensures var r := NodeInsert(sc, arm, db, Extension(pk, child), key, value, seen);
            r.Done? && NodeMemCount(r.value) <= MemCount(child) + |key| + 2
  {
    SplitForkMemCount(sc, arm, db, pk, SharedLen(pk, key), child, key, value);
  }

  /** An insertion brings at most one node per nibble of the key, and two more, into memory. */
  lemma {:induction false} LinkInsertMemCount(sc: Scheme, arm: Arm, db: Db, link: Link, t: Tree, key: Bytes,
                                              value: Bytes)
    requires Canon(t) && Rep(sc, db, link, t) && AllNibbles(key)
    ensures var r := LinkInsert(sc, arm, db, link, key, value, {});
            r.Done? && MemCount(r.value) <= MemCount(link) + |key| + 2
    decreases t, 1
  {
    match link
    case Empty =>
    case Mem(n) => NodeInsertMemCount(sc, arm, db, n, t, key, value, {});
    case Hashed(h) =>
      LoadStored(sc, db, t);
      LoadedMemCount(sc, t);
      NodeInsertMemCount(sc, arm, db, NodeOf(sc, t), t, key, value, {} + {h});
  }

  lemma {:induction false} NodeInsertMemCount(sc: Scheme, arm: Arm, db: Db, n: Node, t: Tree, key: Bytes, value: Bytes,
                                              seen: set<HashValue>)
    requires Canon(t) && RepNode(sc, db, n, t) && AllNibbles(key)
    ensures var r := NodeInsert(sc, arm, db, n, key, value, seen);
            r.Done? && NodeMemCount(r.value) <= NodeMemCount(n) + |key| + 1
    decreases t, 0
  {
    match n
    case Leaf(rest, val) => LeafInsertMemCount(sc, arm, db, rest, val, key, value, seen);
    case Extension(pk, child) =>
      var i := SharedLen(pk, key);
      if i == |pk| {
        LinkInsertMemCount(sc, arm, db, child, t.below, key[i..], value);
      } else {
        SplitExtensionMemCount(sc, arm, db, pk, child, key, value, seen);
      }
    case Branch(children, _) =>
      if key == [] {
      } else {
        LinkInsertMemCount(sc, arm, db, children[key[0]], t.kids[key[0]], key[1..], value);
        ReplaceMemCount(children, key[0], LinkInsert(sc, arm, db, children[key[0]], key[1..], value, {}).value);
      }
  }
}
