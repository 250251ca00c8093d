/** Three insertions after which the program as written finds none of the three keys. */
module Counterexample {
  import opened Base
  import opened Keys
  import opened Nodes
  import opened Schemes
  import opened Trees
  import opened Represent
  import opened TrieState
  import opened Runs
  import opened Theorems

  const KEY_A: Key := [0x11, 0x10]
  const KEY_B: Key := [0x11, 0x20]
  const KEY_C: Key := [0x12, 0x00]

  lemma TwoByteNibbles(a: u8, b: u8)
    ensures ToNibbles([a, b]) == [a / 16, a % 16, b / 16, b % 16]
  {
    assert [a, b][..1] == [a] && [a][..0] == [];
  }

  lemma NibblesOfKeys()
    ensures ToNibbles(KEY_A) == [1, 1, 1, 0]
    ensures ToNibbles(KEY_B) == [1, 1, 2, 0]
    ensures ToNibbles(KEY_C) == [1, 2, 0, 0]
  {
    TwoByteNibbles(0x11, 0x10);
    TwoByteNibbles(0x11, 0x20);
    TwoByteNibbles(0x12, 0x00);
  }

  function Inner(a: Bytes, b: Bytes): Tree {
    Fork(NO_KIDS[1 := Tip([0], a)][2 := Tip([0], b)], None)
  }

  lemma FirstTwo(arm: Arm, a: Bytes, b: Bytes)
    requires AllNibbles([1, 1, 1, 0]) && AllNibbles([1, 1, 2, 0])
    ensures Insert(arm, Tip([1, 1, 1, 0], a), [1, 1, 2, 0], b) == Stem([1, 1], Inner(a, b))
  {
    var k, l: Bytes := [1, 1, 1, 0], [1, 1, 2, 0];
    SharedLenIsLongest(k, l, 2);
    assert k[..2] == [1, 1] && k[2..] == [1, 0] && l[2..] == [2, 0];
  }

  lemma ThirdAsWritten(a: Bytes, b: Bytes, c: Bytes)
    requires Canon(Stem([1, 1], Inner(a, b))) && AllNibbles([1, 2, 0, 0])
    ensures Insert(AsWritten, Stem([1, 1], Inner(a, b)), [1, 2, 0, 0], c)
         == Fork(NO_KIDS[1 := Inner(a, b)][2 := Tip([0, 0], c)], None)
  {
    var pk, k: Bytes := [1, 1], [1, 2, 0, 0];
    SharedLenIsLongest(pk, k, 1);
    assert k[1..] == [2, 0, 0] && pk[2..] == [];
  }

  lemma GetKid(kids: seq<Tree>, i: int, q: seq<int>)
    requires 0 <= i < |kids|
    ensures Get(Fork(kids, None), [i] + q) == Get(kids[i], q)
  {
    assert ([i] + q)[1..] == q;
  }

  /** The old branch is found one nibble too early, so every last nibble is compared too early as well. */
  lemma NoneFound(a: Bytes, b: Bytes, c: Bytes)
    ensures var t := Fork(NO_KIDS[1 := Inner(a, b)][2 := Tip([0, 0], c)], None);
      Get(t, [1, 1, 1, 0]) == None && Get(t, [1, 1, 2, 0]) == None && Get(t, [1, 2, 0, 0]) == None
  {
    var outer := NO_KIDS[1 := Inner(a, b)][2 := Tip([0, 0], c)];
    var inner := Inner(a, b).kids;
    GetKid(outer, 1, [1, 1, 0]);
    GetKid(outer, 1, [1, 2, 0]);
    GetKid(outer, 1, [2, 0, 0]);
    GetKid(inner, 1, [1, 0]);
    GetKid(inner, 1, [2, 0]);
    GetKid(inner, 2, [0, 0]);
    assert [1] + [1, 1, 0] == [1, 1, 1, 0] && [1] + [1, 2, 0] == [1, 1, 2, 0] && [1] + [2, 0, 0] == [1, 2, 0, 0];
    assert [1] + [1, 0] == [1, 1, 0] && [1] + [2, 0] == [1, 2, 0] && [2] + [0, 0] == [2, 0, 0];
    assert [1, 0] != [0] && [2, 0] != [0] && [0, 0] != [0];
  }

  function ThreePuts(a: Bytes, b: Bytes, c: Bytes): seq<Op> {
    [Put(KEY_A, a), Put(KEY_B, b), Put(KEY_C, c)]
  }

  lemma TreeOfThreePuts(sc: Scheme, a: Bytes, b: Bytes, c: Bytes)
    ensures Legal(sc, AsWritten, ThreePuts(a, b, c))
    ensures var r := Exec(sc, AsWritten, ThreePuts(a, b, c));
      && r.tree == Fork(NO_KIDS[1 := Inner(a, b)][2 := Tip([0, 0], c)], None)
      && r.written == {}
  {
    NibblesOfKeys();
    var ops := ThreePuts(a, b, c);
    var none: seq<Op> := [];
    assert ops[..2] == none + [ops[0]] + [ops[1]] && ops == ops[..2] + [ops[2]];
    ExecNext(sc, AsWritten, none, ops[0]);
    ExecNext(sc, AsWritten, none + [ops[0]], ops[1]);
    ExecNext(sc, AsWritten, ops[..2], ops[2]);
    FirstTwo(AsWritten, a, b);
    ThirdAsWritten(a, b, c);
  }

  /** Whatever the hash function and the values. */
  lemma ProgramLosesThreeKeys(sc: Scheme, a: Bytes, b: Bytes, c: Bytes)
    ensures var s := Exec(sc, AsWritten, ThreePuts(a, b, c)).state;
      && GetValue(sc, s, KEY_A) == Done(None)
      && GetValue(sc, s, KEY_B) == Done(None)
      && GetValue(sc, s, KEY_C) == Done(None)
  {
    var r := Exec(sc, AsWritten, ThreePuts(a, b, c));
    NibblesOfKeys();
    TreeOfThreePuts(sc, a, b, c);
    RunIsFaithful(sc, AsWritten, ThreePuts(a, b, c));
    NoneFound(a, b, c);
    LinkGetIsGet(sc, r.state.db, r.state.root, r.tree, ToNibbles(KEY_A));
    LinkGetIsGet(sc, r.state.db, r.state.root, r.tree, ToNibbles(KEY_B));
    LinkGetIsGet(sc, r.state.db, r.state.root, r.tree, ToNibbles(KEY_C));
  }
}
