/** The one-nibble case of extension splitting loses the shared prefix. This module says when, what it
    does to the trie, and that nothing else goes wrong. */
module Defect {
  import opened Base
  import opened Keys
  import opened Nodes
  import opened Trees

  /** The insertion of `k` meets the case: a stem shares a non-empty prefix with the key and parts
      from it at its last nibble. */
  predicate DropsPrefix(t: Tree, k: Bytes)
    requires Canon(t) && AllNibbles(k)
    decreases t
  {
    match t
    case Nil => false
    case Tip(_, _) => false
    case Stem(pk, below) =>
      var i := SharedLen(pk, k);
      if i == |pk| then DropsPrefix(below, k[i..]) else 0 < i && i + 1 == |pk|
    case Fork(kids, _) => k != [] && DropsPrefix(kids[k[0]], k[1..])
  }

  /** Where it happens: the nibbles above the stem. */
  function DropPath(t: Tree, k: Bytes): (p: seq<int>)
    requires Canon(t) && AllNibbles(k) && DropsPrefix(t, k)
    decreases t
  {
    match t
    case Stem(pk, below) =>
      var i := SharedLen(pk, k);
      if i == |pk| then pk + DropPath(below, k[i..]) else []
    case Fork(kids, _) => [k[0]] + DropPath(kids[k[0]], k[1..])
  }

  /** What is lost: the shared prefix. */
  function Dropped(t: Tree, k: Bytes): (s: seq<int>)
    requires Canon(t) && AllNibbles(k) && DropsPrefix(t, k)
    ensures s != []
    decreases t
  {
    match t
    case Stem(pk, below) =>
      var i := SharedLen(pk, k);
      if i == |pk| then Dropped(below, k[i..]) else pk[..i]
    case Fork(kids, _) => Dropped(kids[k[0]], k[1..])
  }

  /** Outside the case both versions do the same. */
  lemma {:induction false} SameUnlessDropped(t: Tree, k: Bytes, v: Bytes)
    requires Canon(t) && AllNibbles(k) && !DropsPrefix(t, k)
    ensures Insert(AsWritten, t, k, v) == Insert(Wrapping, t, k, v)
    decreases t
  {
    match t
    case Nil =>
    case Tip(_, _) =>
    case Stem(pk, below) =>
      var i := SharedLen(pk, k);
      if i == |pk| {
        SameUnlessDropped(below, k[i..], v);
      }
    case Fork(kids, _) =>
      if k == [] {
      } else {
        SameUnlessDropped(kids[k[0]], k[1..], v);
      }
  }

  /** Where an entry is meant to be that sits at `q`: below the path, the lost prefix is missing. */
  function Meant(p: seq<int>, s: seq<int>, q: seq<int>): seq<int> {
    if p <= q then p + s + q[|p|..] else q
  }

  lemma MeantUnderPrefix(a: seq<int>, p: seq<int>, s: seq<int>, q: seq<int>)
    ensures Meant(a + p, s, q) == if a <= q then a + Meant(p, s, q[|a|..]) else q
  {
    if a <= q {
      var x := q[|a|..];
      assert q == a + x;
      if p <= x {
        assert x == p + x[|p|..];
        assert q == (a + p) + x[|p|..];
        assert q[|a + p|..] == x[|p|..];
      }
    }
  }

  lemma MeantAgain(p: seq<int>, s: seq<int>, x: seq<int>)
    ensures Meant(p, s, p + s + x) == p + s + (s + x)
  {
    assert (p + s + x)[|p|..] == s + x;
  }

  lemma PrefixBelowPrefix(a: seq<int>, p: seq<int>, s: seq<int>, k: seq<int>)
    requires a <= k && p + s <= k[|a|..]
    ensures a + p + s <= k
  {
    assert a + p + s == a + (p + s);
    assert k == a + k[|a|..];
  }

  lemma {:induction false} DropIsInKey(t: Tree, k: Bytes)
    requires Canon(t) && AllNibbles(k) && DropsPrefix(t, k)
    ensures DropPath(t, k) + Dropped(t, k) <= k
    decreases t
  {
    match t
    case Stem(pk, below) =>
      var i := SharedLen(pk, k);
      if i == |pk| {
        DropIsInKey(below, k[i..]);
        PrefixBelowPrefix(pk, DropPath(below, k[i..]), Dropped(below, k[i..]), k);
      }
    case Fork(kids, _) =>
      DropIsInKey(kids[k[0]], k[1..]);
      PrefixBelowPrefix([k[0]], DropPath(kids[k[0]], k[1..]), Dropped(kids[k[0]], k[1..]), k);
  }

  ghost predicate MovedAsMeant(t: Tree, k: Bytes, v: Bytes, q: seq<int>)
    requires Canon(t) && AllNibbles(k) && DropsPrefix(t, k)
  {
    Get(Insert(AsWritten, t, k, v), q) == Get(Insert(Wrapping, t, k, v), Meant(DropPath(t, k), Dropped(t, k), q))
  }

  /** In the case, everything meant to sit below the path and the prefix sits below the path,
      and every other lookup is as intended. */
  lemma {:induction false} EffectOfDrop(t: Tree, k: Bytes, v: Bytes, q: seq<int>)
    requires Canon(t) && AllNibbles(k) && DropsPrefix(t, k)
    ensures MovedAsMeant(t, k, v, q)
    decreases t
  {
    match t
    case Stem(pk, below) =>
      var i := SharedLen(pk, k);
      if i == |pk| {
        if pk <= q {
          EffectOfDrop(below, k[i..], v, q[i..]);
        }
        EffectBelowStem(pk, below, k, v, q);
      } else {
        GetUnder(pk[..i], StemFork(pk, below, i, k, v), pk[..i] + q);
        assert (pk[..i] + q)[i..] == q;
        assert [] + pk[..i] + q == pk[..i] + q;
      }
    case Fork(kids, here) =>
      if [k[0]] <= q {
        EffectOfDrop(kids[k[0]], k[1..], v, q[1..]);
      }
      EffectBelowFork(kids, here, k, v, q);
  }

  lemma EffectBelowStem(pk: Bytes, below: Tree, k: Bytes, v: Bytes, q: seq<int>)
    requires Canon(Stem(pk, below)) && AllNibbles(k) && SharedLen(pk, k) == |pk|
    requires DropsPrefix(below, k[|pk|..])
    requires pk <= q ==> MovedAsMeant(below, k[|pk|..], v, q[|pk|..])
    ensures MovedAsMeant(Stem(pk, below), k, v, q)
  {
    var p, s := DropPath(below, k[|pk|..]), Dropped(below, k[|pk|..]);
    MeantUnderPrefix(pk, p, s, q);
    if pk <= q {
      var m := Meant(p, s, q[|pk|..]);
      assert pk <= pk + m && (pk + m)[|pk|..] == m;
    }
  }

  lemma EffectBelowFork(kids: seq<Tree>, here: Option<Bytes>, k: Bytes, v: Bytes, q: seq<int>)
    requires Canon(Fork(kids, here)) && AllNibbles(k) && k != [] && DropsPrefix(kids[k[0]], k[1..])
    requires [k[0]] <= q ==> MovedAsMeant(kids[k[0]], k[1..], v, q[1..])
    ensures MovedAsMeant(Fork(kids, here), k, v, q)
  {
    var p, s := DropPath(kids[k[0]], k[1..]), Dropped(kids[k[0]], k[1..]);
    MeantUnderPrefix([k[0]], p, s, q);
    if [k[0]] <= q {
      var m := Meant(p, s, q[1..]);
      assert ([k[0]] + m)[1..] == m;
    }
  }

  // ---------- no entry is longer than the tree is deep ----------

  function Depth(t: Tree): nat
    decreases t
  {
    match t
    case Nil => 0
    case Tip(rest, _) => |rest|
    case Stem(pk, below) => |pk| + Depth(below)
    case Fork(kids, _) => 1 + DepthAll(kids)
  }

  function DepthAll(kids: seq<Tree>): nat
    decreases kids
  {
    if kids == [] then 0 else Depth(kids[0]) + DepthAll(kids[1..])
  }

  lemma {:induction false} KidDepth(kids: seq<Tree>, i: nat)
    requires i < |kids|
    ensures Depth(kids[i]) <= DepthAll(kids)
    decreases kids
  {
    if i == 0 {
    } else {
      KidDepth(kids[1..], i - 1);
    }
  }

  lemma {:induction false} EntryDepth(t: Tree, q: seq<int>)
    requires Get(t, q).Some?
    ensures |q| <= Depth(t)
    decreases t
  {
    match t
    case Tip(_, _) =>
    case Stem(pk, below) => EntryDepth(below, q[|pk|..]);
    case Fork(kids, _) =>
      if q == [] {
      } else {
        EntryDepth(kids[q[0]], q[1..]);
        KidDepth(kids, q[0]);
      }
  }

  /** In the case, some entry of the intended trie cannot be found. */
  lemma DropLosesAnEntry(t: Tree, k: Bytes, v: Bytes) returns (q: seq<int>)
    requires Canon(t) && AllNibbles(k) && DropsPrefix(t, k)
    ensures Get(Insert(Wrapping, t, k, v), q).Some?
    ensures Get(Insert(AsWritten, t, k, v), q) == None
  {
    var p, s := DropPath(t, k), Dropped(t, k);
    DropIsInKey(t, k);
    InsertLaw(t, k, v, k);
    assert k == p + s + k[|p + s|..];
    q := LastInChain(t, k, v, k[|p + s|..]);
  }

  /** Puts the lost prefix in front of a tail until no entry answers. */
  lemma LastInChain(t: Tree, k: Bytes, v: Bytes, x: seq<int>) returns (q: seq<int>)
    requires Canon(t) && AllNibbles(k) && DropsPrefix(t, k)
    requires Get(Insert(Wrapping, t, k, v), DropPath(t, k) + Dropped(t, k) + x).Some?
    ensures Get(Insert(Wrapping, t, k, v), q).Some?
    ensures Get(Insert(AsWritten, t, k, v), q) == None
    decreases Depth(Insert(Wrapping, t, k, v)) - |x|
  {
    var p, s := DropPath(t, k), Dropped(t, k);
    q := p + s + x;
    EntryDepth(Insert(Wrapping, t, k, v), q);
    EffectOfDrop(t, k, v, q);
    MeantAgain(p, s, x);
    if Get(Insert(Wrapping, t, k, v), p + s + (s + x)).Some? {
      q := LastInChain(t, k, v, s + x);
    }
  }

  /** An insertion of the program changes one key and no other. */
  ghost predicate UpdatesOneKey(t: Tree, k: Bytes, v: Bytes)
    requires Canon(t) && AllNibbles(k)
  {
    forall q: seq<int> :: Get(Insert(AsWritten, t, k, v), q) == if q == k then Some(v) else Get(t, q)
  }

  /** The insertion of the program is a map update exactly outside the case. */
  lemma UpdateIffNotDropped(t: Tree, k: Bytes, v: Bytes)
    requires Canon(t) && AllNibbles(k)
    ensures UpdatesOneKey(t, k, v) <==> !DropsPrefix(t, k)
    ensures Insert(AsWritten, t, k, v) == Insert(Wrapping, t, k, v) <==> !DropsPrefix(t, k)
  {
    if DropsPrefix(t, k) {
      var q := DropLosesAnEntry(t, k, v);
      InsertLaw(t, k, v, q);
      assert Get(Insert(AsWritten, t, k, v), q) != if q == k then Some(v) else Get(t, q);
    } else {
      SameUnlessDropped(t, k, v);
      forall q: seq<int> ensures Get(Insert(AsWritten, t, k, v), q) == if q == k then Some(v) else Get(t, q) {
        InsertLaw(t, k, v, q);
      }
    }
  }
}
