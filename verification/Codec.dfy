/** The stored form of a node: the layout bincode 1 gives to `TrieNode` by default, with
    four-byte variant tags, eight-byte lengths, little end first, and trailing bytes ignored. */
module Codec {
  import opened Base
  import opened Nodes

  // ---------- fixed-width integers ----------

  function LittleEndian(n: nat, width: nat): (b: seq<u8>)
    ensures |b| == width
    decreases width
  {
    if width == 0 then [] else [n % 256] + LittleEndian(n / 256, width - 1)
  }

  function FromLittleEndian(b: seq<u8>): nat {
    if b == [] then 0 else b[0] + 256 * FromLittleEndian(b[1..])
  }

  function Capacity(width: nat): (c: nat)
    ensures c > 0
  {
    if width == 0 then 1 else 256 * Capacity(width - 1)
  }

  lemma {:induction false} LittleEndianRoundTrip(n: nat, width: nat)
    requires n < Capacity(width)
    ensures FromLittleEndian(LittleEndian(n, width)) == n
    decreases width
  {
    if width == 0 {
    } else {
      LittleEndianRoundTrip(n / 256, width - 1);
      assert LittleEndian(n, width)[1..] == LittleEndian(n / 256, width - 1);
    }
  }

  lemma WordCapacity()
    ensures Capacity(4) == 0x1_0000_0000 && Capacity(8) == 0x1_0000_0000_0000_0000
  {
    assert Capacity(1) == 256 && Capacity(2) == 0x1_0000 && Capacity(3) == 0x100_0000;
    assert Capacity(5) == 0x100_0000_0000 && Capacity(6) == 0x1_0000_0000_0000;
    assert Capacity(7) == 0x100_0000_0000_0000;
  }

  // ---------- writing ----------

  function EncodeTag(tag: nat): (b: Blob)
    ensures |b| == 4
  {
    LittleEndian(tag, 4)
  }

  function EncodeVec(s: Bytes): Blob {
    LittleEndian(|s|, 8) + s
  }

  function EncodeOption(v: Option<Bytes>): Blob {
    match v
    case None => [0]
    case Some(s) => [1] + EncodeVec(s)
  }

  function Encode(n: Node): Blob
    decreases n
  {
    match n
    case Extension(pk, child) => EncodeTag(0) + (EncodeVec(pk) + EncodeLink(child))
    case Leaf(rest, val) => EncodeTag(1) + (EncodeVec(rest) + EncodeVec(val))
    case Branch(children, value) => EncodeTag(2) + (EncodeLinks(children) + EncodeOption(value))
  }

  function EncodeLink(link: Link): Blob
    decreases link
  {
    match link
    case Mem(n) => EncodeTag(0) + Encode(n)
    case Hashed(h) => EncodeTag(1) + h
    case Empty => EncodeTag(2)
  }

  function EncodeLinks(links: seq<Link>): Blob
    decreases links
  {
    if links == [] then [] else EncodeLink(links[0]) + EncodeLinks(links[1..])
  }

  // ---------- reading: each reader gives back what it did not consume ----------

  datatype Read<+T> = Read(value: T, rest: Blob)

  function ReadTag(b: Blob): (r: Option<Read<nat>>)
    ensures r.Some? ==> |r.value.rest| == |b| - 4
  {
    if |b| < 4 then None else Some(Read(FromLittleEndian(b[..4]), b[4..]))
  }

  function ReadVec(b: Blob): (r: Option<Read<Bytes>>)
    ensures r.Some? ==> |r.value.rest| < |b|
  {
    if |b| < 8 then None
    else
      var len := FromLittleEndian(b[..8]);
      if len >= VEC_LIMIT || len > |b| - 8 then None else Some(Read(b[8..8 + len], b[8 + len..]))
  }

  function ReadOption(b: Blob): (r: Option<Read<Option<Bytes>>>) {
    if b == [] then None
    else if b[0] == 0 then Some(Read(None, b[1..]))
    else if b[0] == 1 then
      match ReadVec(b[1..])
      case None => None
      case Some(v) => Some(Read(Some(v.value), v.rest))
    else None
  }

  function ReadNode(b: Blob): (r: Option<Read<Node>>)
    ensures r.Some? ==> |r.value.rest| < |b| && NodeSized(r.value.value)
    decreases |b|, 0
  {
    match ReadTag(b)
    case None => None
    case Some(tag) =>
      if tag.value == 0 then
        match ReadVec(tag.rest)
        case None => None
        case Some(pk) =>
          match ReadLink(pk.rest)
          case None => None
          case Some(child) => Some(Read(Extension(pk.value, child.value), child.rest))
      else if tag.value == 1 then
        match ReadVec(tag.rest)
        case None => None
        case Some(rest) =>
          match ReadVec(rest.rest)
          case None => None
          case Some(val) => Some(Read(Leaf(rest.value, val.value), val.rest))
      else if tag.value == 2 then
        match ReadLinks(tag.rest, FANOUT)
        case None => None
        case Some(children) =>
          match ReadOption(children.rest)
          case None => None
          case Some(value) => Some(Read(Branch(children.value, value.value), value.rest))
      else None
  }

  function ReadLink(b: Blob): (r: Option<Read<Link>>)
    ensures r.Some? ==> |r.value.rest| < |b| && LinkSized(r.value.value)
    decreases |b|, 0
  {
    match ReadTag(b)
    case None => None
    case Some(tag) =>
      if tag.value == 0 then
        match ReadNode(tag.rest)
        case None => None
        case Some(n) => Some(Read(Mem(n.value), n.rest))
      else if tag.value == 1 then
        if |tag.rest| < HASH_SIZE then None
        else Some(Read(Hashed(tag.rest[..HASH_SIZE]), tag.rest[HASH_SIZE..]))
      else if tag.value == 2 then Some(Read(Empty, tag.rest))
      else None
  }

  function ReadLinks(b: Blob, count: nat): (r: Option<Read<seq<Link>>>)
    ensures r.Some? ==> |r.value.rest| <= |b| && |r.value.value| == count
    ensures r.Some? ==> forall i :: 0 <= i < count ==> LinkSized(r.value.value[i])
    decreases |b|, 1, count
  {
    if count == 0 then Some(Read([], b))
    else
      match ReadLink(b)
      case None => None
      case Some(first) =>
        match ReadLinks(first.rest, count - 1)
        case None => None
        case Some(others) => Some(Read([first.value] + others.value, others.rest))
  }

  /** `bincode::deserialize`: reads one node and ignores what follows it. */
  function Decode(b: Blob): (n: Option<Node>)
    ensures n.Some? ==> NodeSized(n.value)
  {
    match ReadNode(b)
    case None => None
    case Some(r) => Some(r.value)
  }

  // ---------- reading undoes writing ----------

  lemma Regroup(a: Blob, b: Blob, c: Blob)
    ensures (a + b) + c == a + (b + c)
  {
  }

  lemma ReadTagAfter(tag: nat, tail: Blob)
    requires tag < 0x1_0000_0000
    ensures ReadTag(EncodeTag(tag) + tail) == Some(Read(tag, tail))
  {
    var b := EncodeTag(tag) + tail;
    WordCapacity();
    LittleEndianRoundTrip(tag, 4);
    assert b[..4] == EncodeTag(tag) && b[4..] == tail;
  }

  lemma ReadVecAfter(s: Bytes, tail: Blob)
    ensures ReadVec(EncodeVec(s) + tail) == Some(Read(s, tail))
  {
    var b := EncodeVec(s) + tail;
    WordCapacity();
    LittleEndianRoundTrip(|s|, 8);
    assert b[..8] == LittleEndian(|s|, 8);
    assert b[8..8 + |s|] == s && b[8 + |s|..] == tail;
  }

  lemma ReadOptionAfter(v: Option<Bytes>, tail: Blob)
    ensures ReadOption(EncodeOption(v) + tail) == Some(Read(v, tail))
  {
    if v.Some? {
      var body := EncodeVec(v.value) + tail;
      Regroup([1], EncodeVec(v.value), tail);
      assert ([1] + body)[1..] == body;
      ReadVecAfter(v.value, tail);
    } else {
      assert ([0] + tail)[1..] == tail;
    }
  }

  lemma {:induction false} ReadNodeAfter(n: Node, tail: Blob)
    requires NodeSized(n)
    ensures ReadNode(Encode(n) + tail) == Some(Read(n, tail))
    decreases n
  {
    match n
    case Leaf(rest, val) => ReadLeafAfter(rest, val, tail);
    case Extension(pk, child) => ReadExtensionAfter(pk, child, tail);
    case Branch(children, value) => ReadBranchAfter(children, value, tail);
  }

  lemma ReadLeafAfter(rest: Bytes, val: Bytes, tail: Blob)
    ensures ReadNode(Encode(Leaf(rest, val)) + tail) == Some(Read(Leaf(rest, val), tail))
  {
    var last := EncodeVec(val) + tail;
    Regroup(EncodeTag(1), EncodeVec(rest) + EncodeVec(val), tail);
    Regroup(EncodeVec(rest), EncodeVec(val), tail);
    ReadTagAfter(1, EncodeVec(rest) + last);
    ReadVecAfter(rest, last);
    ReadVecAfter(val, tail);
  }

  lemma {:induction false} ReadExtensionAfter(pk: Bytes, child: Link, tail: Blob)
    requires LinkSized(child)
    ensures ReadNode(Encode(Extension(pk, child)) + tail) == Some(Read(Extension(pk, child), tail))
    decreases child, 1
  {
    var link := EncodeLink(child) + tail;
    Regroup(EncodeTag(0), EncodeVec(pk) + EncodeLink(child), tail);
    Regroup(EncodeVec(pk), EncodeLink(child), tail);
    ReadTagAfter(0, EncodeVec(pk) + link);
    ReadVecAfter(pk, link);
    ReadLinkAfter(child, tail);
  }

  lemma {:induction false} ReadBranchAfter(children: seq<Link>, value: Option<Bytes>, tail: Blob)
    requires |children| == FANOUT && forall i :: 0 <= i < |children| ==> LinkSized(children[i])
    ensures ReadNode(Encode(Branch(children, value)) + tail) == Some(Read(Branch(children, value), tail))
    decreases children, 1
  {
    var last := EncodeOption(value) + tail;
    Regroup(EncodeTag(2), EncodeLinks(children) + EncodeOption(value), tail);
    Regroup(EncodeLinks(children), EncodeOption(value), tail);
    ReadTagAfter(2, EncodeLinks(children) + last);
    ReadLinksAfter(children, last);
    ReadOptionAfter(value, tail);
  }

  lemma {:induction false} ReadLinkAfter(link: Link, tail: Blob)
    requires LinkSized(link)
    ensures ReadLink(EncodeLink(link) + tail) == Some(Read(link, tail))
    decreases link, 0
  {
    var b := EncodeLink(link) + tail;
    match link
    case Mem(n) =>
      assert b == EncodeTag(0) + (Encode(n) + tail);
      ReadTagAfter(0, Encode(n) + tail);
      ReadNodeAfter(n, tail);
    case Hashed(h) =>
      assert b == EncodeTag(1) + (h + tail);
      ReadTagAfter(1, h + tail);
      assert (h + tail)[..HASH_SIZE] == h && (h + tail)[HASH_SIZE..] == tail;
    case Empty =>
      ReadTagAfter(2, tail);
  }

  lemma {:induction false} ReadLinksAfter(links: seq<Link>, tail: Blob)
    requires forall i :: 0 <= i < |links| ==> LinkSized(links[i])
    ensures ReadLinks(EncodeLinks(links) + tail, |links|) == Some(Read(links, tail))
    decreases links, 0
  {
    if links == [] {
      assert EncodeLinks(links) + tail == tail;
    } else {
      var others := EncodeLinks(links[1..]) + tail;
      Regroup(EncodeLink(links[0]), EncodeLinks(links[1..]), tail);
      ReadLinkAfter(links[0], others);
      ReadLinksAfter(links[1..], tail);
      assert links == [links[0]] + links[1..];
    }
  }

  /** Every node survives being stored. */
  lemma DecodeEncode(n: Node)
    requires NodeSized(n)
    ensures Decode(Encode(n)) == Some(n)
  {
    ReadNodeAfter(n, []);
    assert Encode(n) + [] == Encode(n);
  }

  /** Different nodes have different stored forms. */
  lemma EncodeIsInjective(a: Node, b: Node)
    requires NodeSized(a) && NodeSized(b)
    ensures Encode(a) == Encode(b) <==> a == b
  {
    DecodeEncode(a);
    DecodeEncode(b);
  }

  // ---------- nothing else can be read ----------

  lemma {:induction false} FromLittleEndianRoundTrip(b: seq<u8>)
    ensures FromLittleEndian(b) < Capacity(|b|) && LittleEndian(FromLittleEndian(b), |b|) == b
    decreases b
  {
    if b == [] {
    } else {
      FromLittleEndianRoundTrip(b[1..]);
      var n := FromLittleEndian(b);
      assert n % 256 == b[0] && n / 256 == FromLittleEndian(b[1..]);
      assert b == [b[0]] + b[1..];
    }
  }

  lemma TagRead(b: Blob)
    requires ReadTag(b).Some?
    ensures var r := ReadTag(b).value; b == EncodeTag(r.value) + r.rest
  {
    FromLittleEndianRoundTrip(b[..4]);
    assert b == b[..4] + b[4..];
  }

  lemma VecRead(b: Blob)
    requires ReadVec(b).Some?
    ensures var r := ReadVec(b).value; b == EncodeVec(r.value) + r.rest
  {
    var len := FromLittleEndian(b[..8]);
    FromLittleEndianRoundTrip(b[..8]);
    assert b == b[..8] + b[8..8 + len] + b[8 + len..];
  }

  lemma OptionRead(b: Blob)
    requires ReadOption(b).Some?
    ensures var r := ReadOption(b).value; b == EncodeOption(r.value) + r.rest
  {
    assert b == [b[0]] + b[1..];
    if b[0] == 1 {
      var v := ReadVec(b[1..]).value;
      VecRead(b[1..]);
      Regroup([1], EncodeVec(v.value), v.rest);
    }
  }

  lemma {:induction false} NodeRead(b: Blob)
    requires ReadNode(b).Some?
    ensures var r := ReadNode(b).value; b == Encode(r.value) + r.rest
    decreases |b|, 0
  {
    TagRead(b);
    var tag := ReadTag(b).value;
    if tag.value == 0 {
      ExtensionRead(b, tag.rest);
    } else if tag.value == 1 {
      LeafRead(b, tag.rest);
    } else {
      BranchRead(b, tag.rest);
    }
  }

  lemma LeafRead(b: Blob, body: Blob)
    requires b == EncodeTag(1) + body && ReadNode(b).Some? && ReadTag(b) == Some(Read(1, body))
    ensures var r := ReadNode(b).value; b == Encode(r.value) + r.rest
  {
    var rest := ReadVec(body).value;
    VecRead(body);
    var val := ReadVec(rest.rest).value;
    VecRead(rest.rest);
    Regroup(EncodeVec(rest.value), EncodeVec(val.value), val.rest);
    Regroup(EncodeTag(1), EncodeVec(rest.value) + EncodeVec(val.value), val.rest);
  }

  lemma {:induction false} ExtensionRead(b: Blob, body: Blob)
    requires b == EncodeTag(0) + body && ReadNode(b).Some? && ReadTag(b) == Some(Read(0, body))
    ensures var r := ReadNode(b).value; b == Encode(r.value) + r.rest
    decreases |body|, 2
  {
    var pk := ReadVec(body).value;
    VecRead(body);
    var child := ReadLink(pk.rest).value;
    LinkRead(pk.rest);
    Regroup(EncodeVec(pk.value), EncodeLink(child.value), child.rest);
    Regroup(EncodeTag(0), EncodeVec(pk.value) + EncodeLink(child.value), child.rest);
  }

  lemma {:induction false} BranchRead(b: Blob, body: Blob)
    requires b == EncodeTag(2) + body && ReadNode(b).Some? && ReadTag(b) == Some(Read(2, body))
    ensures var r := ReadNode(b).value; b == Encode(r.value) + r.rest
    decreases |body|, 2
  {
    var children := ReadLinks(body, FANOUT).value;
    LinksRead(body, FANOUT);
    var value := ReadOption(children.rest).value;
    OptionRead(children.rest);
    Regroup(EncodeLinks(children.value), EncodeOption(value.value), value.rest);
    Regroup(EncodeTag(2), EncodeLinks(children.value) + EncodeOption(value.value), value.rest);
  }

  lemma {:induction false} LinkRead(b: Blob)
    requires ReadLink(b).Some?
    ensures var r := ReadLink(b).value; b == EncodeLink(r.value) + r.rest
    decreases |b|, 0
  {
    TagRead(b);
    var tag := ReadTag(b).value;
    if tag.value == 0 {
      var n := ReadNode(tag.rest).value;
      NodeRead(tag.rest);
      Regroup(EncodeTag(0), Encode(n.value), n.rest);
    } else if tag.value == 1 {
      assert tag.rest == tag.rest[..HASH_SIZE] + tag.rest[HASH_SIZE..];
      Regroup(EncodeTag(1), tag.rest[..HASH_SIZE], tag.rest[HASH_SIZE..]);
    }
  }

  lemma {:induction false} LinksRead(b: Blob, count: nat)
    requires ReadLinks(b, count).Some?
    ensures var r := ReadLinks(b, count).value; b == EncodeLinks(r.value) + r.rest
    decreases |b|, 1, count
  {
    if count == 0 {
    } else {
      var first := ReadLink(b).value;
      LinkRead(b);
      var others := ReadLinks(first.rest, count - 1).value;
      LinksRead(first.rest, count - 1);
      assert ([first.value] + others.value)[1..] == others.value;
      Regroup(EncodeLink(first.value), EncodeLinks(others.value), others.rest);
    }
  }

  /** A blob reads as a node if and only if it begins with the stored form of that node: every other blob, with an
      unknown variant tag, a length past its end, or cut short, is refused. */
  lemma DecodeIffStoredForm(b: Blob, n: Node)
    ensures Decode(b) == Some(n) <==> NodeSized(n) && Encode(n) <= b
  {
    if Decode(b) == Some(n) {
      NodeRead(b);
    }
    if NodeSized(n) && Encode(n) <= b {
      ReadNodeAfter(n, b[|Encode(n)|..]);
      assert b == Encode(n) + b[|Encode(n)|..];
    }
  }

  // ---------- the layout, byte for byte ----------

  lemma {:induction false} ZeroBytes(width: nat)
    ensures LittleEndian(0, width) == seq(width, _ => 0)
    decreases width
  {
    if width == 0 {
    } else {
      ZeroBytes(width - 1);
    }
  }

  lemma SmallNumber(n: u8)
    ensures LittleEndian(n, 4) == [n, 0, 0, 0] && LittleEndian(n, 8) == [n, 0, 0, 0, 0, 0, 0, 0]
  {
    ZeroBytes(3);
    ZeroBytes(7);
    assert seq(3, _ => 0) == [0, 0, 0] && seq(7, _ => 0) == [0, 0, 0, 0, 0, 0, 0];
    assert n % 256 == n && n / 256 == 0;
  }

  lemma OneByteVec(x: u8)
    ensures EncodeVec([x]) == [1, 0, 0, 0, 0, 0, 0, 0, x]
  {
    SmallNumber(1);
  }

  /** Variants are numbered in the order of their declaration, and a sequence comes after its length. */
  lemma LayoutOfExtension(pk: u8, h: HashValue)
    ensures Encode(Extension([pk], Hashed(h))) == [0, 0, 0, 0] + ([1, 0, 0, 0, 0, 0, 0, 0, pk] + ([1, 0, 0, 0] + h))
  {
    SmallNumber(0);
    SmallNumber(1);
    OneByteVec(pk);
  }

  lemma LayoutOfLeaf(rest: u8, val: u8)
    ensures Encode(Leaf([rest], [val])) == [1, 0, 0, 0, 1, 0, 0, 0, 0, 0, 0, 0, rest, 1, 0, 0, 0, 0, 0, 0, 0, val]
  {
    SmallNumber(1);
    OneByteVec(rest);
    OneByteVec(val);
  }

  /** A branch has its children, here all empty, and then its value. */
  lemma LayoutOfBranch(val: u8)
    ensures Encode(Branch(seq(FANOUT, _ => Empty), Some([val])))
         == [2, 0, 0, 0] + Repeated([2, 0, 0, 0], FANOUT) + [1, 1, 0, 0, 0, 0, 0, 0, 0, val]
  {
    SmallNumber(2);
    OneByteVec(val);
    EmptyLinks(FANOUT);
    Regroup([2, 0, 0, 0], Repeated([2, 0, 0, 0], FANOUT), [1, 1, 0, 0, 0, 0, 0, 0, 0, val]);
    assert [1] + EncodeVec([val]) == [1, 1, 0, 0, 0, 0, 0, 0, 0, val];
  }

  function Repeated(b: Blob, times: nat): Blob {
    if times == 0 then [] else b + Repeated(b, times - 1)
  }

  lemma {:induction false} EmptyLinks(n: nat)
    ensures EncodeLinks(seq(n, _ => Empty)) == Repeated([2, 0, 0, 0], n)
    decreases n
  {
    if n == 0 {
    } else {
      SmallNumber(2);
      EmptyLinks(n - 1);
      assert seq<Link>(n, _ => Empty)[1..] == seq<Link>(n - 1, _ => Empty);
    }
  }
}
