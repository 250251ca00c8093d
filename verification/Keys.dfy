/** Keys as nibbles: the functions of src/trie/util.rs. */
module Keys {
  import opened Base

  predicate AllNibbles(q: seq<int>) {
    forall i :: 0 <= i < |q| ==> 0 <= q[i] < 16
  }

  /** The nibbles of a byte key, high half first. */
  function ToNibbles(key: seq<u8>): (q: seq<u8>)
    ensures |q| == 2 * |key| && AllNibbles(q)
  {
    if key == [] then []
    else
      var last := key[|key| - 1];
      ToNibbles(key[..|key| - 1]) + [last / 16, last % 16]
  }

  /** The byte key of some nibbles, two by two from the end. */
  function FromNibbles(q: seq<int>): (key: seq<u8>)
    requires AllNibbles(q)
    ensures 2 * |key| <= |q| <= 2 * |key| + 1
  {
    if |q| < 2 then []
    else
      FromNibbles(q[..|q| - 2]) + [16 * q[|q| - 2] + q[|q| - 1]]
  }

  lemma {:induction false} FromToNibbles(key: seq<u8>)
    ensures FromNibbles(ToNibbles(key)) == key
  {
    if key == [] {
    } else {
      var init, last := key[..|key| - 1], key[|key| - 1];
      FromToNibbles(init);
      JoinByte(last);
      FromTwoMore(ToNibbles(init), last / 16, last % 16, last);
      assert key == init + [last];
    }
  }

  lemma FromTwoMore(q: seq<int>, hi: int, lo: int, b: u8)
    requires AllNibbles(q) && 0 <= hi < 16 && 0 <= lo < 16 && b == 16 * hi + lo
    ensures AllNibbles(q + [hi, lo]) && FromNibbles(q + [hi, lo]) == FromNibbles(q) + [b]
  {
    var q' := q + [hi, lo];
    assert q'[..|q'| - 2] == q;
  }

  lemma JoinByte(b: u8)
    ensures 0 <= b / 16 < 16 && 0 <= b % 16 < 16 && 16 * (b / 16) + b % 16 == b
  {
  }

  lemma SplitByte(hi: int, lo: int)
    requires 0 <= hi < 16 && 0 <= lo < 16
    ensures (16 * hi + lo) / 16 == hi && (16 * hi + lo) % 16 == lo
  {
  }

  lemma {:induction false} ToFromNibbles(q: seq<int>)
    requires AllNibbles(q) && |q| % 2 == 0
    ensures ToNibbles(FromNibbles(q)) == q
  {
    if q == [] {
    } else {
      var init, hi, lo := q[..|q| - 2], q[|q| - 2], q[|q| - 1];
      ToFromNibbles(init);
      var k := FromNibbles(q);
      var last := k[|k| - 1];
      assert k[..|k| - 1] == FromNibbles(init);
      SplitByte(hi, lo);
      assert last / 16 == hi && last % 16 == lo;
      assert q == init + [hi, lo];
    }
  }

  /** Byte i of a key sits in nibbles 2i and 2i+1. */
  lemma {:induction false} NibblesOfByte(key: seq<u8>, i: nat)
    requires i < |key|
    ensures ToNibbles(key)[2 * i] == key[i] / 16 && ToNibbles(key)[2 * i + 1] == key[i] % 16
  {
    if i < |key| - 1 {
      NibblesOfByte(key[..|key| - 1], i);
    }
  }

  /** Different byte keys have different nibbles, and every even nibble string is the image of a byte key. */
  lemma NibblesAreABijection(a: seq<u8>, b: seq<u8>, q: seq<int>)
    ensures ToNibbles(a) == ToNibbles(b) ==> a == b
    ensures AllNibbles(q) && |q| % 2 == 0 <==> exists k: seq<u8> :: ToNibbles(k) == q
  {
    FromToNibbles(a);
    FromToNibbles(b);
    if AllNibbles(q) && |q| % 2 == 0 {
      ToFromNibbles(q);
      assert ToNibbles(FromNibbles(q)) == q;
    }
  }

  /** The push loop over the bytes of a key. */
  method ConvertBytesToNibbles(bytes: Key) returns (nibbles: Bytes)
    ensures nibbles == ToNibbles(bytes)
  {
    nibbles := [];
    for i := 0 to |bytes|
      invariant nibbles == ToNibbles(bytes[..i])
    {
      assert bytes[..i + 1][..i] == bytes[..i];
      nibbles := nibbles + [bytes[i] / 16];
      nibbles := nibbles + [bytes[i] % 16];
    }
    assert bytes[..|bytes|] == bytes;
  }

  /** The number of leading elements two nibble strings have in common. */
  function SharedLen(a: seq<int>, b: seq<int>): (n: nat)
    ensures n <= |a| && n <= |b| && a[..n] == b[..n]
    ensures n < |a| && n < |b| ==> a[n] != b[n]
  {
    if a == [] || b == [] || a[0] != b[0] then 0
    else
      var n := 1 + SharedLen(a[1..], b[1..]);
      assert a[..n] == [a[0]] + a[1..][..n - 1] && b[..n] == [b[0]] + b[1..][..n - 1];
      n
  }

  /** Nothing but the length of the longest common prefix meets the contract of `SharedLen`. */
  lemma SharedLenIsLongest(a: seq<int>, b: seq<int>, n: nat)
    requires n <= |a| && n <= |b|
    ensures n == SharedLen(a, b) <==> a[..n] == b[..n] && (n < |a| && n < |b| ==> a[n] != b[n])
    ensures a[..n] == b[..n] <==> n <= SharedLen(a, b)
  {
    var m := SharedLen(a, b);
    assert forall i :: 0 <= i < m ==> a[i] == a[..m][i] && b[i] == b[..m][i];
    if a[..n] == b[..n] {
      assert forall i :: 0 <= i < n ==> a[i] == a[..n][i] && b[i] == b[..n][i];
    }
  }

  /** The comparison loop with its early return. */
  method ParseNibbleSlicesSharedPortion(n1: Bytes, n2: Bytes) returns (shared: Bytes, r1: Bytes, r2: Bytes)
    ensures n1 == shared + r1 && n2 == shared + r2
    ensures r1 != [] && r2 != [] ==> r1[0] != r2[0]
    ensures |shared| == SharedLen(n1, n2)
  {
    var min := if |n1| <= |n2| then |n1| else |n2|;
    for i := 0 to min
      invariant n1[..i] == n2[..i]
    {
      if n1[i] != n2[i] {
        SharedLenIsLongest(n1, n2, i);
        return n1[..i], n1[i..], n2[i..];
      }
    }
    SharedLenIsLongest(n1, n2, min);
    return n1[..min], n1[min..], n2[min..];
  }
}
