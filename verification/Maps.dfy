/** When a trie is exactly a plain map from byte keys to values. */
module Maps {
  import opened Base
  import opened Keys
  import opened Nodes
  import opened Trees
  import opened Canonicity
  import opened Runs

  function Lookup(m: Map, key: Key): Option<Bytes> {
    if key in m then Some(m[key]) else None
  }

  /** The nibble string belongs to some byte key. */
  predicate IsKey(q: seq<int>) {
    AllNibbles(q) && |q| % 2 == 0 && |q| < VEC_LIMIT
  }

  function NibbleLookup(m: Map, q: seq<int>): Option<Bytes> {
    if IsKey(q) then Lookup(m, FromNibbles(q)) else None
  }

  /** The trie answers for every nibble string as the map does for the key it belongs to, if any. */
  ghost predicate Denotes(t: Tree, m: Map) {
    forall q: seq<int> :: Get(t, q) == NibbleLookup(m, q)
  }

  lemma KeyIsKey(key: Key)
    ensures IsKey(ToNibbles(key)) && FromNibbles(ToNibbles(key)) == key
  {
    FromToNibbles(key);
  }

  lemma DenotesLookup(t: Tree, m: Map, key: Key)
    requires Denotes(t, m)
    ensures Get(t, ToNibbles(key)) == Lookup(m, key)
  {
    KeyIsKey(key);
  }

  /** An insertion that keeps the prefix is a map update. */
  lemma InsertDenotes(t: Tree, m: Map, key: Key, value: Bytes)
    requires Canon(t) && Denotes(t, m)
    ensures Denotes(Insert(Wrapping, t, ToNibbles(key), value), m[key := value])
  {
    var k := ToNibbles(key);
    KeyIsKey(key);
    forall q: seq<int> ensures Get(Insert(Wrapping, t, k, value), q) == NibbleLookup(m[key := value], q) {
      InsertLaw(t, k, value, q);
      if IsKey(q) {
        ToFromNibbles(q);
      }
    }
  }

  /** Canonical tries that are maps are equal exactly when the maps are. */
  lemma SameMapSameTree(t: Tree, m: Map, u: Tree, n: Map)
    requires Canon(t) && Canon(u) && Denotes(t, m) && Denotes(u, n)
    ensures t == u <==> m == n
  {
    if m == n {
      SameLookupsSameTree(t, u);
    }
    if t == u {
      forall key: Key ensures Lookup(m, key) == Lookup(n, key) {
        DenotesLookup(t, m, key);
        DenotesLookup(u, n, key);
      }
      SameLookupsSameMap(m, n);
    }
  }

  lemma SameLookupsSameMap(m: Map, n: Map)
    requires forall key: Key :: Lookup(m, key) == Lookup(n, key)
    ensures m == n
  {
    forall key: Key | key in m ensures key in n && n[key] == m[key] {
      assert Lookup(m, key) == Lookup(n, key);
    }
    forall key: Key | key in n ensures key in m {
      assert Lookup(m, key) == Lookup(n, key);
    }
  }
}
