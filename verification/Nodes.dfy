/** The nodes of the trie and the links between them (src/trie/node). */
module Nodes {
  import opened Base

  const FANOUT: nat := 16

  /** How an extension splits when exactly one nibble of its partial key is left over:
      the program returns the bare branch, whatever prefix it shared with the key;
      the sibling case of the program wraps that prefix around the branch. */
  datatype Arm = AsWritten | Wrapping

  datatype Node =
    | Leaf(rest: Bytes, val: Bytes)
    | Extension(partialKey: Bytes, child: Link)
    | Branch(children: seq<Link>, value: Option<Bytes>)

  datatype Link = Mem(node: Node) | Hashed(h: HashValue) | Empty

  /** `children` is an array of sixteen links; a Dafny datatype cannot say so by itself. */
  ghost predicate NodeSized(n: Node)
    decreases n
  {
    match n
    case Leaf(_, _) => true
    case Extension(_, child) => LinkSized(child)
    case Branch(children, _) =>
      |children| == FANOUT && forall i :: 0 <= i < |children| ==> LinkSized(children[i])
  }

  ghost predicate LinkSized(link: Link)
    decreases link
  {
    link.Mem? ==> NodeSized(link.node)
  }
}
