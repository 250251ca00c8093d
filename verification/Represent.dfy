/** Which tree a link stands for in a given database, and why the operations on links
    do to the link what the operations on trees do to the tree. */
module Represent {
  import opened Base
  import opened Keys
  import opened Nodes
  import opened Schemes
  import opened NodeOps
  import opened Trees

  // ---------- the stored form of a tree ----------

  function NodeOf(sc: Scheme, t: Tree): Node
    requires !t.Nil?
    decreases t, 0
  {
    match t
    case Tip(rest, val) => Leaf(rest, val)
    case Stem(pk, below) => Extension(pk, LinkOf(sc, below))
    case Fork(kids, here) => Branch(seq(|kids|, i requires 0 <= i < |kids| => LinkOf(sc, kids[i])), here)
  }

  function LinkOf(sc: Scheme, t: Tree): Link
    decreases t, 1
  {
    if t.Nil? then Empty else Hashed(sc.hash(sc.encode(NodeOf(sc, t))))
  }

  function BlobOf(sc: Scheme, t: Tree): Blob
    requires !t.Nil?
  {
    sc.encode(NodeOf(sc, t))
  }

  /** The root hash of a tree. */
  function HashOf(sc: Scheme, t: Tree): HashValue
    requires !t.Nil?
  {
    sc.hash(BlobOf(sc, t))
  }

  /** Every node of the tree is in the database under its hash. */
  ghost predicate Stored(sc: Scheme, db: Db, t: Tree)
    decreases t
  {
    t.Nil? ||
    (&& HashOf(sc, t) in db && db[HashOf(sc, t)] == BlobOf(sc, t)
     && match t
        case Tip(_, _) => true
        case Stem(_, below) => Stored(sc, db, below)
        case Fork(kids, _) => forall i :: 0 <= i < |kids| ==> Stored(sc, db, kids[i]))
  }

  /** Following its hashes in the database, the link stands for the tree. */
  ghost predicate Rep(sc: Scheme, db: Db, link: Link, t: Tree)
    decreases link
  {
    match link
    case Empty => t.Nil?
    case Hashed(h) => !t.Nil? && h == HashOf(sc, t) && Stored(sc, db, t)
    case Mem(n) => RepNode(sc, db, n, t)
  }

  ghost predicate RepNode(sc: Scheme, db: Db, n: Node, t: Tree)
    decreases n
  {
    match n
    case Leaf(rest, val) => t == Tip(rest, val)
    case Extension(pk, child) => t.Stem? && t.pk == pk && Rep(sc, db, child, t.below)
    case Branch(children, value) =>
      && t.Fork? && t.here == value && |t.kids| == |children|
      && forall i :: 0 <= i < |children| ==> Rep(sc, db, children[i], t.kids[i])
  }

  // ---------- loading ----------

  lemma NodeOfIsSized(sc: Scheme, t: Tree)
    requires Canon(t) && !t.Nil?
    ensures NodeSized(NodeOf(sc, t))
  {
    match t
    case Tip(_, _) =>
    case Stem(_, below) => assert LinkSized(LinkOf(sc, below));
    case Fork(kids, _) =>
      assert forall i :: 0 <= i < |kids| ==> LinkSized(LinkOf(sc, kids[i]));
  }

  lemma DecodeBlobOf(sc: Scheme, t: Tree)
    requires Canon(t) && !t.Nil?
    ensures sc.decode(BlobOf(sc, t)) == Some(NodeOf(sc, t))
  {
    NodeOfIsSized(sc, t);
    assert sc.decode(sc.encode(NodeOf(sc, t))) == Some(NodeOf(sc, t));
  }

  /** A stored tree can be loaded by its root hash, and the loaded node stands for it. */
  lemma LoadStored(sc: Scheme, db: Db, t: Tree)
    requires Canon(t) && !t.Nil? && Stored(sc, db, t)
    ensures Load(sc, db, HashOf(sc, t)) == Done(NodeOf(sc, t))
    ensures RepNode(sc, db, NodeOf(sc, t), t)
  {
    DecodeBlobOf(sc, t);
    StoredNode(sc, db, t);
  }

  lemma StoredNode(sc: Scheme, db: Db, t: Tree)
    requires !t.Nil? && Stored(sc, db, t)
    ensures RepNode(sc, db, NodeOf(sc, t), t)
  {
    match t
    case Tip(_, _) =>
    case Stem(_, below) => assert Rep(sc, db, LinkOf(sc, below), below);
    case Fork(kids, _) =>
      forall i | 0 <= i < |kids| ensures Rep(sc, db, LinkOf(sc, kids[i]), kids[i]) {
      }
  }

  // ---------- growing databases ----------

  lemma {:induction false} StoredGrows(sc: Scheme, db: Db, db': Db, t: Tree)
    requires SubDb(db, db') && Stored(sc, db, t)
    ensures Stored(sc, db', t)
    decreases t
  {
    match t
    case Nil =>
    case Tip(_, _) =>
    case Stem(_, below) => StoredGrows(sc, db, db', below);
    case Fork(kids, _) =>
      forall i | 0 <= i < |kids| ensures Stored(sc, db', kids[i]) {
        StoredGrows(sc, db, db', kids[i]);
      }
  }

  lemma {:induction false} RepGrows(sc: Scheme, db: Db, db': Db, link: Link, t: Tree)
    requires SubDb(db, db') && Rep(sc, db, link, t)
    ensures Rep(sc, db', link, t)
    decreases link
  {
    match link
    case Empty =>
    case Hashed(_) => StoredGrows(sc, db, db', t);
    case Mem(n) =>
      match n
      case Leaf(_, _) =>
      case Extension(_, child) => RepGrows(sc, db, db', child, t.below);
      case Branch(children, _) =>
        forall i | 0 <= i < |children| ensures Rep(sc, db', children[i], t.kids[i]) {
          RepGrows(sc, db, db', children[i], t.kids[i]);
        }
  }

  // ---------- a link stands for one tree ----------

  lemma {:induction false} HashStandsForOneTree(sc: Scheme, t: Tree, u: Tree)
    requires Canon(t) && Canon(u) && !t.Nil? && !u.Nil?
    requires CollisionFree(sc, Blobs(sc, t) + Blobs(sc, u))
    ensures HashOf(sc, t) == HashOf(sc, u) <==> t == u
    decreases t
  {
    if HashOf(sc, t) == HashOf(sc, u) {
      assert BlobOf(sc, t) in Blobs(sc, t) && BlobOf(sc, u) in Blobs(sc, u);
      DecodeBlobOf(sc, t);
      DecodeBlobOf(sc, u);
      assert NodeOf(sc, t) == NodeOf(sc, u);
      match t
      case Tip(_, _) =>
      case Stem(pk, below) =>
        assert LinkOf(sc, below) == LinkOf(sc, u.below);
        HashStandsForOneTree(sc, below, u.below);
      case Fork(kids, here) =>
        forall i | 0 <= i < |kids| ensures kids[i] == u.kids[i] {
          assert NodeOf(sc, t).children[i] == LinkOf(sc, kids[i]);
          assert NodeOf(sc, u).children[i] == LinkOf(sc, u.kids[i]);
          if !kids[i].Nil? {
            KidBlobs(sc, kids, here, i);
            KidBlobs(sc, u.kids, here, i);
            HashStandsForOneTree(sc, kids[i], u.kids[i]);
          }
        }
    }
  }

  /** The blobs of a tree: one for each of its nodes. */
  ghost function Blobs(sc: Scheme, t: Tree): set<Blob>
    decreases t
  {
    match t
    case Nil => {}
    case Tip(_, _) => {BlobOf(sc, t)}
    case Stem(_, below) => {BlobOf(sc, t)} + Blobs(sc, below)
    case Fork(kids, _) => {BlobOf(sc, t)} + set i, b | 0 <= i < |kids| && b in Blobs(sc, kids[i]) :: b
  }

  lemma KidBlobs(sc: Scheme, kids: seq<Tree>, here: Option<Bytes>, i: nat)
    requires i < |kids|
    ensures Blobs(sc, kids[i]) <= Blobs(sc, Fork(kids, here))
  {
  }

  /** In one database a link stands for one tree, collisions or not. */
  lemma {:induction false} RepIsUnique(sc: Scheme, db: Db, link: Link, t: Tree, u: Tree)
    requires Canon(t) && Canon(u) && Rep(sc, db, link, t) && Rep(sc, db, link, u)
    ensures t == u
    decreases t
  {
    match link
    case Empty =>
    case Hashed(_) =>
      LoadStored(sc, db, t);
      LoadStored(sc, db, u);
      NodeRepIsUnique(sc, db, NodeOf(sc, t), t, u);
    case Mem(n) => NodeRepIsUnique(sc, db, n, t, u);
  }

  lemma {:induction false} NodeRepIsUnique(sc: Scheme, db: Db, n: Node, t: Tree, u: Tree)
    requires Canon(t) && Canon(u) && RepNode(sc, db, n, t) && RepNode(sc, db, n, u)
    ensures t == u
    decreases t, 0
  {
    match n
    case Leaf(_, _) =>
    case Extension(_, child) => RepIsUnique(sc, db, child, t.below, u.below);
    case Branch(children, _) =>
      forall i | 0 <= i < |children| ensures t.kids[i] == u.kids[i] {
        RepIsUnique(sc, db, children[i], t.kids[i], u.kids[i]);
      }
  }

  // ---------- lookup ----------

  /** Looking up in a link is looking up in the tree; hash links make no difference, nothing fails. */
  lemma {:induction false} LinkGetIsGet(sc: Scheme, db: Db, link: Link, t: Tree, key: Bytes)
    requires Canon(t) && Rep(sc, db, link, t) && AllNibbles(key)
    ensures LinkGet(sc, db, link, key, {}) == Done(Get(t, key))
    decreases t, 1
  {
    match link
    case Empty =>
    case Mem(n) => NodeGetIsGet(sc, db, n, t, key, {});
    case Hashed(h) =>
      LoadStored(sc, db, t);
      NodeGetIsGet(sc, db, NodeOf(sc, t), t, key, {} + {h});
  }

  lemma {:induction false} NodeGetIsGet(sc: Scheme, db: Db, n: Node, t: Tree, key: Bytes, seen: set<HashValue>)
    requires Canon(t) && RepNode(sc, db, n, t) && AllNibbles(key)
    ensures NodeGet(sc, db, n, key, seen) == Done(Get(t, key))
    decreases t, 0
  {
    match n
    case Leaf(_, _) =>
    case Extension(pk, child) =>
      PrefixBySharedLen(pk, key);
      if pk <= key {
        LinkGetIsGet(sc, db, child, t.below, key[|pk|..]);
      }
    case Branch(children, _) =>
      if key == [] {
      } else {
        LinkGetIsGet(sc, db, children[key[0]], t.kids[key[0]], key[1..]);
      }
  }

  // ---------- insertion ----------

  lemma BranchInsertIsGraft(sc: Scheme, arm: Arm, db: Db, n: Node, fork: Tree, key: Bytes, value: Bytes)
    requires n.Branch? && fork.Fork? && |fork.kids| == FANOUT && RepNode(sc, db, n, fork) && AllNibbles(key)
    requires key != [] ==> n.children[key[0]].Empty?
    ensures var r := BranchInsert(sc, arm, db, n, key, value);
            r.Done? && RepNode(sc, db, r.value, Graft(fork, key, value))
  {
    if key != [] {
      var link := Mem(Leaf(key[1..], value));
      assert LinkInsert(sc, arm, db, n.children[key[0]], key[1..], value, {}) == Done(link);
      assert Rep(sc, db, link, Tip(key[1..], value));
    }
  }

  lemma PrefixedIsUnder(sc: Scheme, db: Db, prefix: Bytes, r: Outcome<Node>, t: Tree)
    requires r.Done? && RepNode(sc, db, r.value, t)
    ensures Prefixed(prefix, r).Done? && RepNode(sc, db, Prefixed(prefix, r).value, Under(prefix, t))
  {
  }

  lemma EmptyBranchIsEmptyFork(sc: Scheme, db: Db)
    ensures RepNode(sc, db, Branch(NO_CHILDREN, None), Fork(NO_KIDS, None))
  {
    assert forall j :: 0 <= j < FANOUT ==> NO_CHILDREN[j].Empty? && NO_KIDS[j].Nil?;
  }

  lemma SetChildIsSetKid(sc: Scheme, db: Db, i: nat, link: Link, kid: Tree)
    requires i < FANOUT && Rep(sc, db, link, kid)
    ensures RepNode(sc, db, Branch(NO_CHILDREN[i := link], None), Fork(NO_KIDS[i := kid], None))
  {
    EmptyBranchIsEmptyFork(sc, db);
  }

  /** A fresh branch with one entry. */
  lemma FreshInsertIsGraft(sc: Scheme, arm: Arm, db: Db, rest: Bytes, val: Bytes)
    requires AllNibbles(rest)
    ensures var one := BranchInsert(sc, arm, db, Branch(NO_CHILDREN, None), rest, val);
      && one.Done? && one.value.Branch? && |one.value.children| == FANOUT
      && RepNode(sc, db, one.value, Graft(Fork(NO_KIDS, None), rest, val))
      && forall j :: 0 <= j < FANOUT && (rest == [] || j != rest[0]) ==> one.value.children[j].Empty?
  {
    EmptyBranchIsEmptyFork(sc, db);
    BranchInsertIsGraft(sc, arm, db, Branch(NO_CHILDREN, None), Fork(NO_KIDS, None), rest, val);
  }

  lemma LeafForkIsTipFork(sc: Scheme, arm: Arm, db: Db, rest: Bytes, val: Bytes, i: nat, key: Bytes, value: Bytes)
    requires AllNibbles(rest) && AllNibbles(key) && rest != key && i == SharedLen(rest, key)
    ensures var one := BranchInsert(sc, arm, db, Branch(NO_CHILDREN, None), rest[i..], val);
      && one.Done? && one.value.Branch?
      && var two := BranchInsert(sc, arm, db, one.value, key[i..], value);
         two.Done? && RepNode(sc, db, two.value, TipFork(rest, val, i, key, value))
  {
    FreshInsertIsGraft(sc, arm, db, rest[i..], val);
    var one := BranchInsert(sc, arm, db, Branch(NO_CHILDREN, None), rest[i..], val).value;
    BranchInsertIsGraft(sc, arm, db, one, Graft(Fork(NO_KIDS, None), rest[i..], val), key[i..], value);
  }

  lemma LeafInsertIsInsert(sc: Scheme, arm: Arm, db: Db, rest: Bytes, val: Bytes, key: Bytes, value: Bytes,
                           seen: set<HashValue>)
    requires AllNibbles(rest) && AllNibbles(key)
    ensures var r := NodeInsert(sc, arm, db, Leaf(rest, val), key, value, seen);
            r.Done? && RepNode(sc, db, r.value, Insert(arm, Tip(rest, val), key, value))
  {
    if rest != key {
      var i := SharedLen(rest, key);
      LeafForkIsTipFork(sc, arm, db, rest, val, i, key, value);
      var one := BranchInsert(sc, arm, db, Branch(NO_CHILDREN, None), rest[i..], val).value;
      PrefixedIsUnder(sc, db, rest[..i], BranchInsert(sc, arm, db, one, key[i..], value),
                      TipFork(rest, val, i, key, value));
    }
  }

  lemma SplitForkIsStemFork(sc: Scheme, arm: Arm, db: Db, pk: Bytes, child: Link, below: Tree, i: nat,
                            key: Bytes, value: Bytes)
    requires Canon(Stem(pk, below)) && Rep(sc, db, child, below) && AllNibbles(key) && i == SharedLen(pk, key) < |pk|
    ensures var children := NO_CHILDREN[pk[i] := Lowered(pk[i + 1..], child)];
            var r := BranchInsert(sc, arm, db, Branch(children, None), key[i..], value);
            r.Done? && RepNode(sc, db, r.value, StemFork(pk, below, i, key, value))
  {
    var link := Lowered(pk[i + 1..], child);
    var lower := Under(pk[i + 1..], below);
    assert Rep(sc, db, link, lower);
    var children, kids := NO_CHILDREN[pk[i] := link], NO_KIDS[pk[i] := lower];
    SetChildIsSetKid(sc, db, pk[i], link, lower);
    BranchInsertIsGraft(sc, arm, db, Branch(children, None), Fork(kids, None), key[i..], value);
  }

  lemma SplitExtensionIsInsert(sc: Scheme, arm: Arm, db: Db, pk: Bytes, child: Link, below: Tree,
                               key: Bytes, value: Bytes, seen: set<HashValue>)
    requires Canon(Stem(pk, below)) && Rep(sc, db, child, below) && AllNibbles(key) && SharedLen(pk, key) < |pk|
    ensures var r := NodeInsert(sc, arm, db, Extension(pk, child), key, value, seen);
            r.Done? && RepNode(sc, db, r.value, Insert(arm, Stem(pk, below), key, value))
  {
    var i := SharedLen(pk, key);
    SplitForkIsStemFork(sc, arm, db, pk, child, below, i, key, value);
    var children := NO_CHILDREN[pk[i] := Lowered(pk[i + 1..], child)];
    PrefixedIsUnder(sc, db, pk[..i], BranchInsert(sc, arm, db, Branch(children, None), key[i..], value),
                    StemFork(pk, below, i, key, value));
  }

  /** Inserting into a link is inserting into the tree, in both arms; nothing fails. */
  lemma {:induction false} LinkInsertIsInsert(sc: Scheme, arm: Arm, db: Db, link: Link, t: Tree, key: Bytes,
                                              value: Bytes)
    requires Canon(t) && Rep(sc, db, link, t) && AllNibbles(key)
    ensures var r := LinkInsert(sc, arm, db, link, key, value, {});
            r.Done? && r.value.Mem? && Rep(sc, db, r.value, Insert(arm, t, key, value))
    decreases t, 1
  {
    match link
    case Empty =>
    case Mem(n) => NodeInsertIsInsert(sc, arm, db, n, t, key, value, {});
    case Hashed(h) =>
      LoadStored(sc, db, t);
      NodeInsertIsInsert(sc, arm, db, NodeOf(sc, t), t, key, value, {} + {h});
  }

  lemma {:induction false} NodeInsertIsInsert(sc: Scheme, arm: Arm, db: Db, n: Node, t: Tree, key: Bytes, value: Bytes,
                                              seen: set<HashValue>)
    requires Canon(t) && RepNode(sc, db, n, t) && AllNibbles(key)
    ensures var r := NodeInsert(sc, arm, db, n, key, value, seen);
            r.Done? && RepNode(sc, db, r.value, Insert(arm, t, key, value))
    decreases t, 0
  {
    match n
    case Leaf(rest, val) => LeafInsertIsInsert(sc, arm, db, rest, val, key, value, seen);
    case Extension(pk, child) =>
      var i := SharedLen(pk, key);
      if i == |pk| {
        LinkInsertIsInsert(sc, arm, db, child, t.below, key[i..], value);
      } else {
        SplitExtensionIsInsert(sc, arm, db, pk, child, t.below, key, value, seen);
      }
    case Branch(children, _) =>
      if key == [] {
      } else {
        LinkInsertIsInsert(sc, arm, db, children[key[0]], t.kids[key[0]], key[1..], value);
      }
  }

  /** Into any branch, whether the place of the key is free or taken. */
  lemma BranchInsertIsInsert(sc: Scheme, arm: Arm, db: Db, n: Node, t: Tree, key: Bytes, value: Bytes)
    requires n.Branch? && Canon(t) && RepNode(sc, db, n, t) && AllNibbles(key)
    ensures var r := BranchInsert(sc, arm, db, n, key, value);
            r.Done? && RepNode(sc, db, r.value, Insert(arm, t, key, value))
  {
    NodeInsertIsInsert(sc, arm, db, n, t, key, value, {});
  }
}
