/** Index keys are byte strings compared lexicographically, as `&[u8]` is in Rust.
    `Rank` embeds that order into the reals, so that every order fact about keys
    in the tree modules is linear arithmetic. */
module KeyOrder {

  newtype byte = x: int | 0 <= x < 256

  type Key = seq<byte>

  /** The lexicographic order on byte strings: a proper prefix comes first. */
  predicate Less(a: Key, b: Key) {
    if b == [] then false
    else if a == [] then true
    else if a[0] != b[0] then a[0] < b[0]
    else Less(a[1..], b[1..])
  }

  /** Reads a byte string as a base-257 fraction with digits 1..256. */
  ghost function Rank(k: Key): (r: real)
    ensures 0.0 <= r < 1.0
    ensures r == 0.0 <==> k == []
  {
    if k == [] then 0.0 else (k[0] as int as real + 1.0 + Rank(k[1..])) / 257.0
  }

  lemma {:induction false} LessIsRank(a: Key, b: Key)
    ensures Less(a, b) <==> Rank(a) < Rank(b)
    ensures a == b <==> Rank(a) == Rank(b)
  {
    if a != [] && b != [] {
      LessIsRank(a[1..], b[1..]);
      if a[0] == b[0] {
        assert a == [a[0]] + a[1..] && b == [b[0]] + b[1..];
      } else if a[0] < b[0] {
        assert a[0] as int + 1 <= b[0] as int;
      } else {
        assert b[0] as int + 1 <= a[0] as int;
      }
    }
  }

  /** `a <= b`, the test of the page searches. */
  predicate AtMost(a: Key, b: Key)
    ensures AtMost(a, b) <==> Rank(a) <= Rank(b)
  {
    LessIsRank(b, a);
    !Less(b, a)
  }

  /** `a < b`. */
  predicate Below(a: Key, b: Key)
    ensures Below(a, b) <==> Rank(a) < Rank(b)
  {
    LessIsRank(a, b);
    Less(a, b)
  }
}
