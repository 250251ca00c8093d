/** A trie is determined by its lookups. */
module Canonicity {
  import opened Base
  import opened Trees

  ghost predicate SameLookups(t: Tree, u: Tree) {
    forall q: seq<int> :: Get(t, q) == Get(u, q)
  }

  lemma GetInStem(pk: Bytes, below: Tree, q: seq<int>)
    ensures Get(Stem(pk, below), pk + q) == Get(below, q)
  {
    assert (pk + q)[|pk|..] == q;
  }

  lemma GetInFork(kids: seq<Tree>, here: Option<Bytes>, i: nat, q: seq<int>)
    requires i < |kids|
    ensures Get(Fork(kids, here), [i] + q) == Get(kids[i], q)
  {
    assert ([i] + q)[1..] == q;
  }

  lemma {:induction false} HasEntry(t: Tree) returns (q: seq<int>)
    requires Canon(t) && !t.Nil?
    ensures Get(t, q).Some?
    decreases t
  {
    match t
    case Tip(rest, _) => q := rest;
    case Stem(pk, below) =>
      q := HasEntry(below);
      GetInStem(pk, below, q);
      q := pk + q;
    case Fork(kids, here) =>
      var i :| 0 <= i < |kids| && !kids[i].Nil?;
      q := HasEntry(kids[i]);
      GetInFork(kids, here, i, q);
      q := [i] + q;
  }

  /** A fork has two keys that part at once. */
  lemma Diverges(t: Tree) returns (a: seq<int>, b: seq<int>)
    requires Canon(t) && t.Fork?
    ensures Get(t, a).Some? && Get(t, b).Some?
    ensures b != [] && (a == [] || a[0] != b[0])
  {
    var kids := t.kids;
    if t.here.Some? && exists i :: 0 <= i < |kids| && !kids[i].Nil? {
      var i :| 0 <= i < |kids| && !kids[i].Nil?;
      var q := HasEntry(kids[i]);
      GetInFork(kids, t.here, i, q);
      a, b := [], [i] + q;
    } else {
      var i, j :| 0 <= i < j < |kids| && !kids[i].Nil? && !kids[j].Nil?;
      var p := HasEntry(kids[i]);
      var q := HasEntry(kids[j]);
      GetInFork(kids, t.here, i, p);
      GetInFork(kids, t.here, j, q);
      a, b := [i] + p, [j] + q;
    }
  }

  function Kind(t: Tree): nat {
    match t case Nil => 0 case Tip(_, _) => 1 case Stem(_, _) => 2 case Fork(_, _) => 3
  }

  /** Trees of different kinds do not have the same lookups. */
  lemma KindsDiffer(t: Tree, u: Tree)
    requires Canon(t) && Canon(u) && Kind(t) < Kind(u)
    ensures !SameLookups(t, u)
  {
    if t.Nil? {
      var q := HasEntry(u);
      assert Get(t, q) != Get(u, q);
    } else {
      var pk, fork := if u.Fork? then [] else u.pk, if u.Fork? then u else u.below;
      var a, b := Diverges(fork);
      if u.Stem? {
        GetInStem(pk, fork, a);
        GetInStem(pk, fork, b);
      }
      assert [] + a == a && [] + b == b;
      assert Get(u, pk + a).Some? && Get(u, pk + b).Some?;
      if t.Tip? {
        assert pk + a != pk + b by {
          assert (pk + a)[|pk|..] == a && (pk + b)[|pk|..] == b;
        }
        assert Get(t, pk + a) != Get(u, pk + a) || Get(t, pk + b) != Get(u, pk + b);
      } else {
        assert Get(t, a) != Get(u, a) || Get(t, b) != Get(u, b);
      }
    }
  }

  /** Two stems with the same lookups have the same partial key. */
  lemma StemsAgree(p: Bytes, t: Tree, r: Bytes, u: Tree)
    requires Canon(Stem(p, t)) && Canon(Stem(r, u)) && |p| <= |r|
    requires SameLookups(Stem(p, t), Stem(r, u))
    ensures p == r
  {
    var a, b := Diverges(t);
    GetInStem(p, t, a);
    GetInStem(p, t, b);
    assert Get(Stem(r, u), p + a).Some? && Get(Stem(r, u), p + b).Some?;
    assert r <= p + a && r <= p + b;
    assert p == r[..|p|];
  }

  /** Canonical trees with the same lookups are the same tree. */
  lemma {:induction false} SameLookupsSameTree(t: Tree, u: Tree)
    requires Canon(t) && Canon(u) && SameLookups(t, u)
    ensures t == u
    decreases t
  {
    if Kind(t) < Kind(u) {
      KindsDiffer(t, u);
    } else if Kind(u) < Kind(t) {
      KindsDiffer(u, t);
    } else {
      match t
      case Nil =>
      case Tip(rest, _) =>
        assert Get(t, rest) == Get(u, rest);
      case Stem(pk, below) =>
        if |pk| <= |u.pk| {
          StemsAgree(pk, below, u.pk, u.below);
        } else {
          StemsAgree(u.pk, u.below, pk, below);
        }
        forall q: seq<int> ensures Get(below, q) == Get(u.below, q) {
          GetInStem(pk, below, q);
          GetInStem(pk, u.below, q);
          assert Get(t, pk + q) == Get(u, pk + q);
        }
        SameLookupsSameTree(below, u.below);
      case Fork(kids, here) =>
        assert Get(t, []) == Get(u, []);
        forall i | 0 <= i < |kids| ensures kids[i] == u.kids[i] {
          forall q: seq<int> ensures Get(kids[i], q) == Get(u.kids[i], q) {
            GetInFork(kids, here, i, q);
            GetInFork(u.kids, u.here, i, q);
            assert Get(t, [i] + q) == Get(u, [i] + q);
          }
          SameLookupsSameTree(kids[i], u.kids[i]);
        }
    }
  }
}
