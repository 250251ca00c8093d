/** The trie without hashes: what a link stands for once every hash has been followed.
    Lookup and insertion are defined here a second time, on whole trees. */
module Trees {
  import opened Base
  import opened Keys
  import opened Nodes

  datatype Tree =
    | Nil
    | Tip(rest: Bytes, val: Bytes)
    | Stem(pk: Bytes, below: Tree)
    | Fork(kids: seq<Tree>, here: Option<Bytes>)

  function Get(t: Tree, q: seq<int>): Option<Bytes>
    decreases t
  {
    match t
    case Nil => None
    case Tip(rest, val) => if q == rest then Some(val) else None
    case Stem(pk, below) => if pk <= q then Get(below, q[|pk|..]) else None
    case Fork(kids, here) =>
      if q == [] then here
      else if 0 <= q[0] < |kids| then Get(kids[q[0]], q[1..])
      else None
  }

  // ---------- the shape of a trie ----------

  ghost predicate TwoEntries(kids: seq<Tree>, here: Option<Bytes>) {
    || (here.Some? && exists i :: 0 <= i < |kids| && !kids[i].Nil?)
    || exists i, j :: 0 <= i < j < |kids| && !kids[i].Nil? && !kids[j].Nil?
  }

  /** Nibbles are below 16, stems are not empty and lead to forks, forks have sixteen children
      and at least two entries. */
  ghost predicate Canon(t: Tree)
    decreases t
  {
    match t
    case Nil => true
    case Tip(rest, _) => AllNibbles(rest)
    case Stem(pk, below) => pk != [] && AllNibbles(pk) && below.Fork? && Canon(below)
    case Fork(kids, here) =>
      |kids| == FANOUT && TwoEntries(kids, here) && forall i :: 0 <= i < |kids| ==> Canon(kids[i])
  }

  // ---------- insertion ----------

  const NO_KIDS: seq<Tree> := [Nil, Nil, Nil, Nil, Nil, Nil, Nil, Nil, Nil, Nil, Nil, Nil, Nil, Nil, Nil, Nil]

  /** A prefix above a tree, unless it is empty. */
  function Under(prefix: Bytes, t: Tree): Tree {
    if prefix == [] then t else Stem(prefix, t)
  }

  /** A fork with one more entry, in a place that is still free. */
  function Graft(fork: Tree, q: Bytes, v: Bytes): Tree
    requires fork.Fork? && |fork.kids| == FANOUT && AllNibbles(q)
  {
    if q == [] then Fork(fork.kids, Some(v))
    else Fork(fork.kids[q[0] := Tip(q[1..], v)], fork.here)
  }

  /** The fork where the key leaves a stored suffix after `i` shared nibbles. */
  function TipFork(rest: Bytes, val: Bytes, i: nat, k: Bytes, v: Bytes): Tree
    requires i <= |rest| && i <= |k| && AllNibbles(rest) && AllNibbles(k)
  {
    Graft(Graft(Fork(NO_KIDS, None), rest[i..], val), k[i..], v)
  }

  /** The fork where the key leaves a stem after `i` shared nibbles. */
  function StemFork(pk: Bytes, below: Tree, i: nat, k: Bytes, v: Bytes): Tree
    requires i < |pk| && i <= |k| && AllNibbles(pk) && AllNibbles(k)
  {
    Graft(Fork(NO_KIDS[pk[i] := Under(pk[i + 1..], below)], None), k[i..], v)
  }

  function Insert(arm: Arm, t: Tree, k: Bytes, v: Bytes): (r: Tree)
    requires Canon(t) && AllNibbles(k)
    decreases t
  {
    match t
    case Nil => Tip(k, v)
    case Tip(rest, val) =>
      var i := SharedLen(rest, k);
      if rest == k then Tip(k, v) else Under(rest[..i], TipFork(rest, val, i, k, v))
    case Stem(pk, below) =>
      var i := SharedLen(pk, k);
      if i == |pk| then Stem(pk, Insert(arm, below, k[i..], v))
      else if arm.AsWritten? && i + 1 == |pk| then StemFork(pk, below, i, k, v)
      else Under(pk[..i], StemFork(pk, below, i, k, v))
    case Fork(kids, here) =>
      if k == [] then Fork(kids, Some(v))
      else Fork(kids[k[0] := Insert(arm, kids[k[0]], k[1..], v)], here)
  }

  // ---------- insertion keeps the shape, in both arms ----------

  lemma TipForkIsCanon(rest: Bytes, val: Bytes, k: Bytes, v: Bytes)
    requires AllNibbles(rest) && AllNibbles(k) && rest != k
    ensures Canon(TipFork(rest, val, SharedLen(rest, k), k, v))
  {
    var i := SharedLen(rest, k);
    var one := Graft(Fork(NO_KIDS, None), rest[i..], val);
    var t := Graft(one, k[i..], v);
    assert rest[..|rest|] == rest && k[..|k|] == k;
    GraftKeepsKids(Fork(NO_KIDS, None), rest[i..], val);
    GraftKeepsKids(one, k[i..], v);
    assert i < |rest| ==> !t.kids[rest[i]].Nil?;
    assert i < |k| ==> !t.kids[k[i]].Nil?;
  }

  lemma GraftKeepsKids(fork: Tree, q: Bytes, v: Bytes)
    requires fork.Fork? && |fork.kids| == FANOUT && AllNibbles(q)
    requires forall j :: 0 <= j < FANOUT ==> Canon(fork.kids[j])
    ensures var t := Graft(fork, q, v);
      && (forall j :: 0 <= j < FANOUT ==> Canon(t.kids[j]) && (fork.kids[j].Nil? || !t.kids[j].Nil?))
      && (if q == [] then t.here.Some? else !t.kids[q[0]].Nil? && t.here == fork.here)
  {
  }

  lemma StemForkIsCanon(pk: Bytes, below: Tree, k: Bytes, v: Bytes)
    requires Canon(Stem(pk, below)) && AllNibbles(k) && SharedLen(pk, k) < |pk|
    ensures Canon(StemFork(pk, below, SharedLen(pk, k), k, v))
  {
    var i := SharedLen(pk, k);
    var t := StemFork(pk, below, i, k, v);
    assert Canon(Under(pk[i + 1..], below));
    assert !t.kids[pk[i]].Nil?;
    if i < |k| {
      assert !t.kids[k[i]].Nil?;
    }
  }

  lemma {:induction false} InsertIsCanon(arm: Arm, t: Tree, k: Bytes, v: Bytes)
    requires Canon(t) && AllNibbles(k)
    ensures Canon(Insert(arm, t, k, v)) && !Insert(arm, t, k, v).Nil?
    ensures t.Fork? ==> Insert(arm, t, k, v).Fork?
    decreases t
  {
    match t
    case Nil =>
    case Tip(rest, val) =>
      if rest != k {
        TipForkIsCanon(rest, val, k, v);
      }
    case Stem(pk, below) =>
      var i := SharedLen(pk, k);
      if i == |pk| {
        InsertIsCanon(arm, below, k[i..], v);
      } else {
        StemForkIsCanon(pk, below, k, v);
      }
    case Fork(kids, here) =>
      if k != [] {
        InsertIsCanon(arm, kids[k[0]], k[1..], v);
        ReplaceKeepsEntries(kids, here, k[0], Insert(arm, kids[k[0]], k[1..], v));
      } else {
        AddValueKeepsEntries(kids, here, v);
      }
  }

  lemma ReplaceKeepsEntries(kids: seq<Tree>, here: Option<Bytes>, i: nat, kid: Tree)
    requires i < |kids| && !kid.Nil? && TwoEntries(kids, here)
    ensures TwoEntries(kids[i := kid], here)
  {
    var kids' := kids[i := kid];
    assert forall j :: 0 <= j < |kids| && !kids[j].Nil? ==> !kids'[j].Nil?;
    if here.Some? && exists j :: 0 <= j < |kids| && !kids[j].Nil? {
      assert !kids'[i].Nil?;
    } else {
      var a, b :| 0 <= a < b < |kids| && !kids[a].Nil? && !kids[b].Nil?;
      assert !kids'[a].Nil? && !kids'[b].Nil?;
    }
  }

  lemma AddValueKeepsEntries(kids: seq<Tree>, here: Option<Bytes>, v: Bytes)
    requires TwoEntries(kids, here)
    ensures TwoEntries(kids, Some(v))
  {
  }

  // ---------- insertion is map update when the prefix is kept ----------

  lemma GetUnder(prefix: Bytes, t: Tree, q: seq<int>)
    ensures Get(Under(prefix, t), q) == if prefix <= q then Get(t, q[|prefix|..]) else None
  {
    if prefix == [] {
      assert q[0..] == q;
    }
  }

  lemma GetGraft(fork: Tree, r: Bytes, v: Bytes, q: seq<int>)
    requires fork.Fork? && |fork.kids| == FANOUT && AllNibbles(r)
    requires r != [] ==> fork.kids[r[0]].Nil?
    ensures Get(Graft(fork, r, v), q) == if q == r then Some(v) else Get(fork, q)
  {
    if r != [] && q != [] && q[0] == r[0] {
      assert q == [q[0]] + q[1..] && r == [r[0]] + r[1..];
    }
  }

  /** `SharedLen` splits a stored prefix from a query exactly where they part. */
  lemma PrefixBySharedLen(pk: seq<int>, q: seq<int>)
    ensures pk <= q <==> SharedLen(pk, q) == |pk|
  {
    SharedLenIsLongest(pk, q, SharedLen(pk, q));
    if pk <= q {
      SharedLenIsLongest(pk, q, |pk|);
    }
  }

  lemma GetTipFork(rest: Bytes, val: Bytes, i: nat, k: Bytes, v: Bytes, q: seq<int>)
    requires AllNibbles(rest) && AllNibbles(k) && rest != k && i == SharedLen(rest, k)
    ensures Get(TipFork(rest, val, i, k, v), q)
         == if q == k[i..] then Some(v) else if q == rest[i..] then Some(val) else None
  {
    var empty := Fork(NO_KIDS, None);
    var one := Graft(empty, rest[i..], val);
    GetGraft(empty, rest[i..], val, q);
    assert Get(empty, q) == None;
    assert i < |k| ==> one.kids[k[i]].Nil?;
    GetGraft(one, k[i..], v, q);
  }

  lemma GetPrefixedTipFork(rest: Bytes, val: Bytes, i: nat, k: Bytes, v: Bytes, q: seq<int>)
    requires AllNibbles(rest) && AllNibbles(k) && rest != k && i == SharedLen(rest, k)
    ensures Get(Under(rest[..i], TipFork(rest, val, i, k, v)), q)
         == if q == k then Some(v) else Get(Tip(rest, val), q)
  {
    GetUnder(rest[..i], TipFork(rest, val, i, k, v), q);
    GetTipFork(rest, val, i, k, v, q[if i <= |q| then i else 0..]);
    SamePrefix(rest[..i], k, q);
    SamePrefix(rest[..i], rest, q);
  }

  /** Equality with a key that has a prefix is equality of the two parts. */
  lemma SamePrefix(p: seq<int>, k: seq<int>, q: seq<int>)
    requires p <= k
    ensures q == k <==> p <= q && q[|p|..] == k[|p|..]
  {
    assert k == p + k[|p|..];
    if p <= q {
      assert q == p + q[|p|..];
    }
  }

  lemma GetStemFork(pk: Bytes, below: Tree, i: nat, k: Bytes, v: Bytes, q: seq<int>)
    requires AllNibbles(pk) && AllNibbles(k) && i == SharedLen(pk, k) < |pk|
    ensures Get(StemFork(pk, below, i, k, v), q)
         == if q == k[i..] then Some(v) else Get(Stem(pk[i..], below), q)
  {
    var lower := Under(pk[i + 1..], below);
    var one := Fork(NO_KIDS[pk[i] := lower], None);
    GetGraft(one, k[i..], v, q);
    GetHungStem(pk[i..], below, q);
  }

  /** A stem may give its first nibble to a fork. */
  lemma GetHungStem(pk: Bytes, below: Tree, q: seq<int>)
    requires pk != [] && AllNibbles(pk)
    ensures Get(Fork(NO_KIDS[pk[0] := Under(pk[1..], below)], None), q) == Get(Stem(pk, below), q)
  {
    if q != [] && q[0] == pk[0] {
      GetUnder(pk[1..], below, q[1..]);
      SharedTail(pk, q);
    }
  }

  lemma SharedTail(pk: seq<int>, q: seq<int>)
    requires pk != [] && q != [] && pk[0] == q[0]
    ensures pk <= q <==> pk[1..] <= q[1..]
    ensures pk <= q ==> q[1..][|pk| - 1..] == q[|pk|..]
  {
    assert pk == [pk[0]] + pk[1..] && q == [q[0]] + q[1..];
  }

  /** A stem may give a prefix to a stem above it. */
  lemma GetSplitStem(pk: Bytes, i: nat, below: Tree, q: seq<int>)
    requires i <= |pk|
    ensures Get(Under(pk[..i], Stem(pk[i..], below)), q) == Get(Stem(pk, below), q)
  {
    GetUnder(pk[..i], Stem(pk[i..], below), q);
    assert pk == pk[..i] + pk[i..];
    if pk[..i] <= q {
      assert q == pk[..i] + q[i..];
      if pk[i..] <= q[i..] {
        assert q[i..][|pk| - i..] == q[|pk|..];
      }
    }
  }

  /** Above the fork the shared prefix is put back: the other keys of the stem are where they were. */
  lemma GetWrappedStemFork(pk: Bytes, below: Tree, i: nat, k: Bytes, v: Bytes, q: seq<int>)
    requires AllNibbles(pk) && AllNibbles(k) && i == SharedLen(pk, k) < |pk|
    ensures Get(Under(pk[..i], StemFork(pk, below, i, k, v)), q) == if q == k then Some(v) else Get(Stem(pk, below), q)
  {
    var p := pk[..i];
    GetUnder(p, StemFork(pk, below, i, k, v), q);
    GetUnder(p, Stem(pk[i..], below), q);
    GetSplitStem(pk, i, below, q);
    SamePrefix(p, k, q);
    if p <= q {
      GetStemFork(pk, below, i, k, v, q[i..]);
    }
  }

  /** Inserting changes the answer for one key and no other. */
  lemma {:induction false} InsertLaw(t: Tree, k: Bytes, v: Bytes, q: seq<int>)
    requires Canon(t) && AllNibbles(k)
    ensures Get(Insert(Wrapping, t, k, v), q) == if q == k then Some(v) else Get(t, q)
    decreases t
  {
    match t
    case Nil =>
    case Tip(rest, val) =>
      if rest != k {
        GetPrefixedTipFork(rest, val, SharedLen(rest, k), k, v, q);
      }
    case Stem(pk, below) =>
      var i := SharedLen(pk, k);
      if i == |pk| {
        assert pk[..i] == pk;
        SamePrefix(pk, k, q);
        if pk <= q {
          InsertLaw(below, k[i..], v, q[i..]);
        }
      } else {
        GetWrappedStemFork(pk, below, i, k, v, q);
      }
    case Fork(kids, here) =>
      if k != [] && q != [] {
        assert k == [k[0]] + k[1..] && q == [q[0]] + q[1..];
        if q[0] == k[0] {
          InsertLaw(kids[k[0]], k[1..], v, q[1..]);
        }
      }
  }
}
