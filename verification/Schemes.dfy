/** What the trie needs of its storage: a hash function and a reader that undoes the writer. */
module Schemes {
  import opened Base
  import opened Nodes
  import opened Codec

  datatype RawScheme = RawScheme(hash: Hasher, encode: Node -> Blob, decode: Blob -> Option<Node>)

  ghost predicate Lawful(sc: RawScheme) {
    forall n: Node {:trigger sc.decode(sc.encode(n))} :: NodeSized(n) ==> sc.decode(sc.encode(n)) == Some(n)
  }

  /** Reading a stored node gives back the node. Of the hash function nothing is assumed. */
  type Scheme = sc: RawScheme | Lawful(sc) ghost witness Bincode(_ => seq(HASH_SIZE, _ => 0))

  /** The stored form the program uses, with any hash function. */
  function Bincode(hash: Hasher): (sc: RawScheme)
    ensures Lawful(sc)
  {
    BincodeIsLawful(hash);
    RawScheme(hash, Encode, Decode)
  }

  lemma BincodeIsLawful(hash: Hasher)
    ensures Lawful(RawScheme(hash, Encode, Decode))
  {
    var sc := RawScheme(hash, Encode, Decode);
    forall n: Node | NodeSized(n) ensures sc.decode(sc.encode(n)) == Some(n) {
      DecodeEncode(n);
    }
  }

  /** No two different blobs of `blobs` share a hash. */
  ghost predicate CollisionFree(sc: Scheme, blobs: set<Blob>) {
    forall a, b :: a in blobs && b in blobs && sc.hash(a) == sc.hash(b) ==> a == b
  }

  /** Every blob is stored under its own hash. */
  ghost predicate ContentAddressed(sc: Scheme, db: Db) {
    forall h :: h in db ==> sc.hash(db[h]) == h
  }
}
