/** The hypotheses of the theorems can be met by a run that writes several different blobs. */
module Witness {
  import opened Base
  import opened Keys
  import opened Nodes
  import opened Codec
  import opened Schemes
  import opened NodeOps
  import opened Trees
  import opened Represent
  import opened Collapse
  import opened Runs
  import opened Theorems

  const KEY_00: Key := [0x00]
  const KEY_11: Key := [0x11]

  function Filled(n: u8): HashValue {
    seq(HASH_SIZE, _ => n)
  }

  /** A hash function that tells two blobs apart from each other and from all others. */
  function Apart(a: Blob, b: Blob): Hasher {
    x => if x == a then Filled(0) else if x == b then Filled(1) else Filled(2)
  }

  /** The stored form of the program with a hash function for the two leaves. */
  function ApartScheme(v: Bytes, w: Bytes): Scheme {
    Bincode(Apart(Encode(Leaf([0], v)), Encode(Leaf([1], w))))
  }

  ghost predicate TellsApart(sc: Scheme, v: Bytes, w: Bytes) {
    sc.hash == Apart(sc.encode(Leaf([0], v)), sc.encode(Leaf([1], w)))
  }

  function BothLeaves(v: Bytes, w: Bytes): Tree {
    Fork(NO_KIDS[0 := Tip([0], v)][1 := Tip([1], w)], None)
  }

  lemma TreeOfBoth(arm: Arm, v: Bytes, w: Bytes)
    requires AllNibbles([0, 0]) && AllNibbles([1, 1])
    ensures Insert(arm, Tip([0, 0], v), [1, 1], w) == BothLeaves(v, w)
  {
    var k, l: Bytes := [0, 0], [1, 1];
    SharedLenIsLongest(k, l, 0);
    assert k[0..] == k && l[0..] == l && k[1..] == [0] && l[1..] == [1];
  }

  lemma BlobsOfBoth(sc: Scheme, v: Bytes, w: Bytes)
    ensures Blobs(sc, BothLeaves(v, w))
         == {BlobOf(sc, BothLeaves(v, w)), BlobOf(sc, Tip([0], v)), BlobOf(sc, Tip([1], w))}
  {
    var t := BothLeaves(v, w);
    KidBlobs(sc, t.kids, None, 0);
    KidBlobs(sc, t.kids, None, 1);
    assert t.kids[0] == Tip([0], v) && t.kids[1] == Tip([1], w);
    assert forall i :: 2 <= i < FANOUT ==> t.kids[i] == Nil;
  }

  lemma BothAreCanon(v: Bytes, w: Bytes)
    ensures Canon(BothLeaves(v, w)) && Canon(Tip([0], v)) && Canon(Tip([1], w))
  {
    var t := BothLeaves(v, w);
    assert !t.kids[0].Nil? && !t.kids[1].Nil?;
  }

  lemma ThreeBlobsDiffer(sc: Scheme, v: Bytes, w: Bytes)
    ensures BlobOf(sc, Tip([0], v)) != BlobOf(sc, Tip([1], w))
    ensures BlobOf(sc, Tip([0], v)) != BlobOf(sc, BothLeaves(v, w))
    ensures BlobOf(sc, Tip([1], w)) != BlobOf(sc, BothLeaves(v, w))
  {
    BothAreCanon(v, w);
    DecodeBlobOf(sc, BothLeaves(v, w));
    DecodeBlobOf(sc, Tip([0], v));
    DecodeBlobOf(sc, Tip([1], w));
  }

  lemma ThreeBlobs(sc: Scheme, v: Bytes, w: Bytes)
    ensures |Blobs(sc, BothLeaves(v, w))| == 3
    ensures TellsApart(sc, v, w) ==> CollisionFree(sc, Blobs(sc, BothLeaves(v, w)))
  {
    ThreeBlobsDiffer(sc, v, w);
    BlobsOfBoth(sc, v, w);
    assert Filled(0)[0] == 0 && Filled(1)[0] == 1 && Filled(2)[0] == 2;
  }

  lemma OneByteNibbles(a: u8)
    ensures ToNibbles([a]) == [a / 16, a % 16]
  {
    assert [a][..0] == [];
  }

  lemma OnePut(sc: Scheme, arm: Arm, v: Bytes)
    ensures var ops := [Put(KEY_00, v)];
            var r := Exec(sc, arm, ops);
            && Legal(sc, arm, ops) && KeepsPrefixes(sc, arm, ops)
            && r.tree == Tip([0, 0], v) && r.written == {} && r.roots == map[]
  {
    var ops := [Put(KEY_00, v)];
    var none: seq<Op> := [];
    OneByteNibbles(0x00);
    assert ops == none + [ops[0]] && ops[..0] == none;
    ExecNext(sc, arm, none, ops[0]);
  }

  lemma TwoPuts(sc: Scheme, arm: Arm, v: Bytes, w: Bytes)
    ensures var ops := [Put(KEY_00, v), Put(KEY_11, w)];
            var r := Exec(sc, arm, ops);
            && Legal(sc, arm, ops) && KeepsPrefixes(sc, arm, ops)
            && r.tree == BothLeaves(v, w) && r.written == {} && r.roots == map[]
  {
    var one, second := [Put(KEY_00, v)], Put(KEY_11, w);
    var ops := [Put(KEY_00, v), Put(KEY_11, w)];
    assert ops == one + [second] && ops[..1] == one;
    OnePut(sc, arm, v);
    OneByteNibbles(0x11);
    ExecNext(sc, arm, one, second);
    TreeOfBoth(arm, v, w);
  }

  lemma CommitOfBoth(sc: Scheme, r: Run, v: Bytes, w: Bytes)
    requires TellsApart(sc, v, w) && Faithful(sc, r)
    requires r.tree == BothLeaves(v, w) && r.written == {} && r.roots == map[]
    ensures NoCollision(sc, CommitRun(sc, r)) && |CommitRun(sc, r).written| == 3
    ensures CommitRun(sc, r).roots == map[HashOf(sc, r.tree) := r.tree]
  {
    WritesAreBlobs(sc, r.state.db, r.state.root, r.tree);
    assert CommitRun(sc, r).written == Elements(Writes(sc, r.state.root));
    ThreeBlobs(sc, v, w);
    CommitWritesTree(sc, r);
    assert CommitRun(sc, r).written == Blobs(sc, r.tree);
  }

  /** Two keys, one branch, one commit, with the stored form of the program. */
  lemma ThreeBlobRun(arm: Arm, v: Bytes, w: Bytes)
    ensures var sc, ops := ApartScheme(v, w), [Put(KEY_00, v), Put(KEY_11, w), Commit];
            var r := Exec(sc, arm, ops);
            && Legal(sc, arm, ops) && NoCollision(sc, r) && KeepsPrefixes(sc, arm, ops)
            && |r.written| == 3
            && r.roots == map[HashOf(sc, BothLeaves(v, w)) := BothLeaves(v, w)]
  {
    BothThenCommit(ApartScheme(v, w), arm, v, w);
  }

  lemma BothThenCommit(sc: Scheme, arm: Arm, v: Bytes, w: Bytes)
    requires TellsApart(sc, v, w)
    ensures var ops := [Put(KEY_00, v), Put(KEY_11, w), Commit];
            var r := Exec(sc, arm, ops);
            && Legal(sc, arm, ops) && NoCollision(sc, r) && KeepsPrefixes(sc, arm, ops)
            && |r.written| == 3
            && r.roots == map[HashOf(sc, BothLeaves(v, w)) := BothLeaves(v, w)]
  {
    var ops := [Put(KEY_00, v), Put(KEY_11, w), Commit];
    var two := [Put(KEY_00, v), Put(KEY_11, w)];
    assert ops == two + [Commit] && ops[..2] == two;
    TwoPuts(sc, arm, v, w);
    ExecNext(sc, arm, two, Commit);
    RunIsFaithful(sc, arm, two);
    CommitOfBoth(sc, Exec(sc, arm, two), v, w);
  }
}
