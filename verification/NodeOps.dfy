/** The recursive operations of src/trie/node over links that may be in memory, a hash, or empty.

    Every recursion may follow hash links into a database nobody has checked. `seen` holds the hashes
    followed since the last nibble was consumed: meeting one of them again means the recursion of the
    program never ends, and the operation says so. */
module NodeOps {
  import opened Base
  import opened Keys
  import opened Nodes
  import opened Schemes

  function Load(sc: Scheme, db: Db, h: HashValue): Outcome<Node> {
    if h !in db then Failed(MissingNode(h))
    else
      match sc.decode(db[h])
      case None => Failed(BadEncoding)
      case Some(n) => Done(n)
  }

  // ---------- lookup ----------

  function LinkGet(sc: Scheme, db: Db, link: Link, key: Bytes, seen: set<HashValue>): Outcome<Option<Bytes>>
    decreases |key|, db.Keys - seen, link
  {
    match link
    case Empty => Done(None)
    case Mem(n) => NodeGet(sc, db, n, key, seen)
    case Hashed(h) =>
      match Load(sc, db, h)
      case Failed(fault) => Failed(fault)
      case Done(n) => if h in seen then Failed(EndlessRecursion) else NodeGet(sc, db, n, key, seen + {h})
  }

  function NodeGet(sc: Scheme, db: Db, n: Node, key: Bytes, seen: set<HashValue>): Outcome<Option<Bytes>>
    decreases |key|, db.Keys - seen, n
  {
    match n
    case Leaf(rest, val) => Done(if rest == key then Some(val) else None)
    case Extension(pk, child) =>
      if SharedLen(pk, key) != |pk| then Done(None)
      else LinkGet(sc, db, child, key[|pk|..], if pk == [] then seen else {})
    case Branch(children, value) =>
      if key == [] then Done(value)
      else if key[0] >= |children| then Failed(IndexOutOfRange)
      else LinkGet(sc, db, children[key[0]], key[1..], {})
  }

  // ---------- collecting the nodes on a path ----------

  /** The content of the proof database afterwards, and whether the key was found. */
  datatype Collected = Collected(proof: Db, found: Outcome<bool>)

  function LinkProve(sc: Scheme, db: Db, proof: Db, link: Link, key: Bytes, seen: set<HashValue>): Collected
    decreases |key|, db.Keys - seen, link
  {
    match link
    case Empty => Collected(proof, Done(false))
    case Mem(n) => NodeProve(sc, db, proof, n, key, seen)
    case Hashed(h) =>
      match Load(sc, db, h)
      case Failed(fault) => Collected(proof, Failed(fault))
      case Done(n) =>
        if h in seen then Collected(proof[h := db[h]], Failed(EndlessRecursion))
        else NodeProve(sc, db, proof[h := db[h]], n, key, seen + {h})
  }

  function NodeProve(sc: Scheme, db: Db, proof: Db, n: Node, key: Bytes, seen: set<HashValue>): Collected
    decreases |key|, db.Keys - seen, n
  {
    match n
    case Leaf(rest, _) => Collected(proof, Done(rest == key))
    case Extension(pk, child) =>
      if SharedLen(pk, key) != |pk| then Collected(proof, Done(false))
      else LinkProve(sc, db, proof, child, key[|pk|..], if pk == [] then seen else {})
    case Branch(children, value) =>
      if key == [] then Collected(proof, Done(value.Some?))
      else if key[0] >= |children| then Collected(proof, Failed(IndexOutOfRange))
      else LinkProve(sc, db, proof, children[key[0]], key[1..], {})
  }

  // ---------- insertion ----------

  const NO_CHILDREN: seq<Link> :=
    [Empty, Empty, Empty, Empty, Empty, Empty, Empty, Empty, Empty, Empty, Empty, Empty, Empty, Empty, Empty, Empty]

  function SetChild(children: seq<Link>, index: int, child: Link): (r: Outcome<seq<Link>>)
    requires index >= 0
  {
    if index < |children| then Done(children[index := child]) else Failed(IndexOutOfRange)
  }

  /** How deep the splitting of a leaf still has to go; it bounds the recursion where the key,
      being a stored suffix, does not. */
  function InsertRank(n: Node, key: Bytes): nat {
    match n
    case Leaf(_, _) => 2
    case Extension(_, _) => 3
    case Branch(children, _) =>
      if key == [] || key[0] >= |children| || children[key[0]].Empty? then 1 else 3
  }

  /** A node becomes an in-memory link. */
  function Linked(r: Outcome<Node>): Outcome<Link> {
    match r
    case Failed(fault) => Failed(fault)
    case Done(n) => Done(Mem(n))
  }

  /** Puts a non-empty prefix above a branch. */
  function Prefixed(prefix: Bytes, r: Outcome<Node>): Outcome<Node> {
    match r
    case Failed(_) => r
    case Done(fork) => if prefix == [] then r else Done(Extension(prefix, Mem(fork)))
  }

  /** What goes below a new branch: the old target, under what is left of the partial key. */
  function Lowered(restOfPartialKey: Bytes, child: Link): Link {
    if restOfPartialKey == [] then child else Mem(Extension(restOfPartialKey, child))
  }

  /** What goes above a new branch when the first `i` nibbles of the partial key are shared. */
  function Rejoined(arm: Arm, pk: Bytes, i: nat, fork: Outcome<Node>): Outcome<Node>
    requires i < |pk|
  {
    if i + 1 == |pk| && arm.AsWritten? then fork else Prefixed(pk[..i], fork)
  }

  function LinkInsert(sc: Scheme, arm: Arm, db: Db, link: Link, key: Bytes, value: Bytes,
                      seen: set<HashValue>): (r: Outcome<Link>)
    decreases if link.Empty? then 0 else 3, |key|, db.Keys - seen, link, 2
  {
    match link
    case Empty => Done(Mem(Leaf(key, value)))
    case Mem(n) => Linked(NodeInsert(sc, arm, db, n, key, value, seen))
    case Hashed(h) =>
      match Load(sc, db, h)
      case Failed(fault) => Failed(fault)
      case Done(n) =>
        if h in seen then Failed(EndlessRecursion)
        else Linked(NodeInsert(sc, arm, db, n, key, value, seen + {h}))
  }

  function NodeInsert(sc: Scheme, arm: Arm, db: Db, n: Node, key: Bytes, value: Bytes,
                      seen: set<HashValue>): (r: Outcome<Node>)
    decreases InsertRank(n, key), |key|, db.Keys - seen, n, 1
  {
    match n
    case Leaf(rest, val) =>
      if rest == key then Done(Leaf(rest, value))
      else
        var i := SharedLen(rest, key);
        (match BranchInsert(sc, arm, db, Branch(NO_CHILDREN, None), rest[i..], val)
         case Failed(fault) => Failed(fault)
         case Done(fork) => Prefixed(rest[..i], BranchInsert(sc, arm, db, fork, key[i..], value)))
    case Extension(pk, child) =>
      var i := SharedLen(pk, key);
      if i == |pk| then
        (match LinkInsert(sc, arm, db, child, key[i..], value, if pk == [] then seen else {})
         case Failed(fault) => Failed(fault)
         case Done(child') => Done(Extension(pk, child')))
      else
        (match SetChild(NO_CHILDREN, pk[i], Lowered(pk[i + 1..], child))
         case Failed(fault) => Failed(fault)
         case Done(children) =>
           Rejoined(arm, pk, i, BranchInsert(sc, arm, db, Branch(children, None), key[i..], value)))
    case Branch(_, _) => BranchInsert(sc, arm, db, n, key, value)
  }

  function BranchInsert(sc: Scheme, arm: Arm, db: Db, n: Node, key: Bytes, value: Bytes): (r: Outcome<Node>)
    requires n.Branch?
    ensures r.Done? ==> r.value.Branch? && |r.value.children| == |n.children|
    ensures r.Done? ==>
      forall i :: 0 <= i < |n.children| && (key == [] || i != key[0]) ==> r.value.children[i] == n.children[i]
    decreases InsertRank(n, key), |key|, db.Keys - db.Keys, n, 0
  {
    if key == [] then Done(n.(value := Some(value)))
    else if key[0] >= |n.children| then Failed(IndexOutOfRange)
    else
      match LinkInsert(sc, arm, db, n.children[key[0]], key[1..], value, {})
      case Failed(fault) => Failed(fault)
      case Done(child) => Done(n.(children := n.children[key[0] := child]))
  }

  // ---------- collapse ----------

  /** What `collapse` makes of a link: a hash, or nothing. */
  function Shut(sc: Scheme, link: Link): Link
    decreases link, 1
  {
    if link.Mem? then Hashed(sc.hash(sc.encode(ShutNode(sc, link.node)))) else link
  }

  /** The node that is stored: its children are collapsed. */
  function ShutNode(sc: Scheme, n: Node): Node
    decreases n, 0
  {
    match n
    case Leaf(_, _) => n
    case Extension(pk, child) => Extension(pk, Shut(sc, child))
    case Branch(children, value) => Branch(ShutAll(sc, children), value)
  }

  function ShutAll(sc: Scheme, links: seq<Link>): seq<Link>
    decreases links, 2
  {
    seq(|links|, i requires 0 <= i < |links| => Shut(sc, links[i]))
  }

  /** The blobs `collapse` writes, in the order it writes them. */
  function Writes(sc: Scheme, link: Link): seq<Blob>
    decreases link
  {
    if link.Mem? then NodeWrites(sc, link.node) else []
  }

  function NodeWrites(sc: Scheme, n: Node): seq<Blob>
    decreases n, 1
  {
    (match n
     case Leaf(_, _) => []
     case Extension(_, child) => Writes(sc, child)
     case Branch(children, _) => WritesAll(sc, children)) + [sc.encode(ShutNode(sc, n))]
  }

  function WritesAll(sc: Scheme, links: seq<Link>): seq<Blob>
    decreases links
  {
    if links == [] then []
    else WritesAll(sc, links[..|links| - 1]) + Writes(sc, links[|links| - 1])
  }

  /** The database after writing blobs one after the other, each under its hash. */
  function PutAll(sc: Scheme, db: Db, blobs: seq<Blob>): Db {
    if blobs == [] then db
    else
      var last := blobs[|blobs| - 1];
      PutAll(sc, db, blobs[..|blobs| - 1])[sc.hash(last) := last]
  }

  lemma {:induction false} PutAllAppend(sc: Scheme, db: Db, a: seq<Blob>, b: seq<Blob>)
    ensures PutAll(sc, db, a + b) == PutAll(sc, PutAll(sc, db, a), b)
    decreases b
  {
    if b == [] {
      assert a + b == a;
    } else {
      var init := b[..|b| - 1];
      PutAllAppend(sc, db, a, init);
      assert (a + b)[..|a + b| - 1] == a + init;
    }
  }

  // ---------- nodes in memory ----------

  function MemCount(link: Link): nat
    decreases link
  {
    if link.Mem? then NodeMemCount(link.node) else 0
  }

  function NodeMemCount(n: Node): nat
    decreases n
  {
    1 + match n
        case Leaf(_, _) => 0
        case Extension(_, child) => MemCount(child)
        case Branch(children, _) => MemCountAll(children)
  }

  function MemCountAll(links: seq<Link>): nat
    decreases links
  {
    if links == [] then 0 else MemCountAll(links[..|links| - 1]) + MemCount(links[|links| - 1])
  }

  /** Collapsing writes one blob for each node in memory. */
  lemma {:induction false} WritesCount(sc: Scheme, link: Link)
    ensures |Writes(sc, link)| == MemCount(link)
    decreases link, 0
  {
    if !link.Mem? {
    } else {
      match link.node
      case Leaf(_, _) =>
      case Extension(_, child) => WritesCount(sc, child);
      case Branch(children, _) => WritesAllCount(sc, children);
    }
  }

  lemma {:induction false} WritesAllCount(sc: Scheme, links: seq<Link>)
    ensures |WritesAll(sc, links)| == MemCountAll(links)
    decreases links
  {
    if links == [] {
    } else {
      WritesAllCount(sc, links[..|links| - 1]);
      WritesCount(sc, links[|links| - 1]);
    }
  }
}
