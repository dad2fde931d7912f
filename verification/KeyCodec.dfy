/** SQL values and their order-preserving key encoding (src/types.rs, src/btree.rs). */
module KeyCodec {
  import opened Options
  import opened KeyOrder
  import Division

  newtype i64 = x: int | -0x8000_0000_0000_0000 <= x < 0x8000_0000_0000_0000

  datatype Bound<+T> = Unbounded | Included(k: T) | Excluded(k: T)

  datatype DataType = BooleanType | BigIntType | TextType

  /** Well-formed UTF-8 (RFC 3629, section 4). */
  predicate IsUtf8(s: seq<byte>) {
    if s == [] then true
    else if s[0] < 0x80 then IsUtf8(s[1..])
    else if 0xC2 <= s[0] <= 0xDF then |s| >= 2 && Tail(s[1]) && IsUtf8(s[2..])
    else if 0xE0 <= s[0] <= 0xEF then
      && |s| >= 3 && Tail(s[1]) && Tail(s[2])
      && (s[0] == 0xE0 ==> s[1] >= 0xA0) && (s[0] == 0xED ==> s[1] <= 0x9F)
      && IsUtf8(s[3..])
    else if 0xF0 <= s[0] <= 0xF4 then
      && |s| >= 4 && Tail(s[1]) && Tail(s[2]) && Tail(s[3])
      && (s[0] == 0xF0 ==> s[1] >= 0x90) && (s[0] == 0xF4 ==> s[1] <= 0x8F)
      && IsUtf8(s[4..])
    else false
  }

  predicate Tail(b: byte) { 0x80 <= b <= 0xBF }

  type Utf8 = s: seq<byte> | IsUtf8(s) witness []

  /** A text value is its UTF-8 bytes; Rust compares strings byte by byte. */
  datatype Value = Null | Boolean(b: bool) | BigInt(n: i64) | Text(s: Utf8) {
    function Type(): Option<DataType> {
      match this
      case Null => None
      case Boolean(_) => Some(BooleanType)
      case BigInt(_) => Some(BigIntType)
      case Text(_) => Some(TextType)
    }
  }

  /** The strict order of `compare_values` on two values of one type. */
  predicate ValueLess(a: Value, b: Value) {
    match (a, b)
    case (Boolean(x), Boolean(y)) => !x && y
    case (BigInt(x), BigInt(y)) => x < y
    case (Text(x), Text(y)) => Less(x, y)
    case (Null, Null) => false
    case (Null, _) => true
    case _ => false
  }

  const TOP_BIT := 0x8000_0000_0000_0000

  /** Two's complement with the sign bit flipped. */
  function FlipSign(n: i64): nat {
    var u := if n < 0 then n as int + 2 * TOP_BIT else n as int;
    if u >= TOP_BIT then u - TOP_BIT else u + TOP_BIT
  }

  function UnflipSign(u: nat): i64
    requires u < 2 * TOP_BIT
  {
    var w := if u >= TOP_BIT then u - TOP_BIT else u + TOP_BIT;
    (if w >= TOP_BIT then w - 2 * TOP_BIT else w) as i64
  }

  function Pow256(k: nat): nat {
    if k == 0 then 1 else 256 * Pow256(k - 1)
  }

  /** The low `k` bytes of `u`, most significant first. */
  function ToBigEndian(u: nat, k: nat): (bytes: seq<byte>)
    ensures |bytes| == k
  {
    if k == 0 then [] else ToBigEndian(u / 256, k - 1) + [(u % 256) as byte]
  }

  function FromBigEndian(bytes: seq<byte>): (u: nat)
    ensures u < Pow256(|bytes|)
  {
    if bytes == [] then 0
    else FromBigEndian(bytes[..|bytes|-1]) * 256 + bytes[|bytes|-1] as nat
  }

  function EncodeKey(v: Value): Option<Key> {
    match v
    case Null => None
    case Boolean(b) => Some(if b then [1] else [0])
    case BigInt(n) => Some(ToBigEndian(FlipSign(n), 8))
    case Text(s) => Some(s)
  }

  lemma Pow256Eight()
    ensures Pow256(8) == 2 * TOP_BIT
  {
    assert Pow256(4) == 0x1_0000_0000 by { assert Pow256(2) == 0x1_0000; }
    assert Pow256(6) == 0x1_0000_0000_0000;
  }

  function DecodeKey(t: DataType, bytes: Key): Option<Value> {
    match t
    case BooleanType =>
      if bytes == [0] then Some(Boolean(false)) else if bytes == [1] then Some(Boolean(true)) else None
    case BigIntType =>
      if |bytes| == 8 then
        Pow256Eight();
        Some(BigInt(UnflipSign(FromBigEndian(bytes))))
      else None
    case TextType => if IsUtf8(bytes) then Some(Text(bytes)) else None
  }

  /** The digits of `u / 256` are those of `u`, one place on. */
  lemma {:induction false} DigitsShift(u: nat, i: nat)
    ensures Pow256(i) > 0 && Pow256(i + 1) > 0 && u / 256 / Pow256(i) == u / Pow256(i + 1)
    decreases i
  {
    if i > 0 {
      DigitsShift(u, i - 1);
    }
    Division.DivideTwice(u, 256, Pow256(i));
  }

  /** The digit of weight 256^i. */
  function ByteOf(u: nat, i: nat): (b: nat)
    ensures b < 256
  {
    DigitsShift(u, i);
    u / Pow256(i) % 256
  }

  lemma {:induction false} BigEndianDigits(u: nat, k: nat, i: nat)
    requires i < k
    ensures ToBigEndian(u, k)[i] as int == ByteOf(u, k - 1 - i)
  {
    if i < k - 1 {
      BigEndianDigits(u / 256, k - 1, i);
      DigitsShift(u, k - 2 - i);
    }
  }

  /** The bytes of a key: one for a truth value, the bytes of a text, and for a number its distance from the smallest
      one in eight bytes, the most significant first. */
  lemma KeyBytes(v: Value)
    requires v != Null
    ensures EncodeKey(v).Some?
    ensures var key := EncodeKey(v).value;
      match v
      case Boolean(b) => |key| == 1 && key[0] == if b then 1 else 0
      case BigInt(n) => |key| == 8 && forall i :: 0 <= i < 8 ==> key[i] as int == ByteOf(n as int + TOP_BIT, 7 - i)
      case Text(s) => key == s
  {
    hide ToBigEndian, ByteOf;
    match v
    case BigInt(n) =>
      forall i | 0 <= i < 8 ensures ToBigEndian(FlipSign(n), 8)[i] as int == ByteOf(n as int + TOP_BIT, 7 - i) {
        BigEndianDigits(FlipSign(n), 8, i);
      }
    case _ =>
  }

  lemma {:induction false} ToFromBigEndian(u: nat, k: nat)
    requires u < Pow256(k)
    ensures FromBigEndian(ToBigEndian(u, k)) == u
  {
    if k > 0 {
      ToFromBigEndian(u / 256, k - 1);
      var bytes := ToBigEndian(u, k);
      assert bytes[..k-1] == ToBigEndian(u / 256, k - 1);
    }
  }

  lemma {:induction false} FromToBigEndian(bytes: seq<byte>)
    ensures ToBigEndian(FromBigEndian(bytes), |bytes|) == bytes
  {
    if bytes != [] {
      var init := bytes[..|bytes|-1];
      FromToBigEndian(init);
      assert FromBigEndian(bytes) / 256 == FromBigEndian(init);
      assert bytes == init + [bytes[|bytes|-1]];
    }
  }

  lemma {:induction false} LessSnoc(a: Key, b: Key, x: byte, y: byte)
    requires |a| == |b|
    ensures Less(a + [x], b + [y]) <==> Less(a, b) || (a == b && x < y)
  {
    if a != [] {
      LessSnoc(a[1..], b[1..], x, y);
      assert (a + [x])[1..] == a[1..] + [x] && (b + [y])[1..] == b[1..] + [y];
      assert a == [a[0]] + a[1..] && b == [b[0]] + b[1..];
    }
  }

  lemma {:induction false} BigEndianOrder(u: nat, v: nat, k: nat)
    requires u < Pow256(k) && v < Pow256(k)
    ensures u < v <==> Less(ToBigEndian(u, k), ToBigEndian(v, k))
  {
    if k > 0 {
      BigEndianOrder(u / 256, v / 256, k - 1);
      LessSnoc(ToBigEndian(u / 256, k - 1), ToBigEndian(v / 256, k - 1), (u % 256) as byte, (v % 256) as byte);
      if u / 256 != v / 256 {
        ToFromBigEndian(u / 256, k - 1);
        ToFromBigEndian(v / 256, k - 1);
      }
    }
  }

  /** Decoding inverts encoding, for every value that can be a key. */
  lemma DecodeEncode(v: Value)
    requires v != Null
    ensures EncodeKey(v).Some? && DecodeKey(v.Type().value, EncodeKey(v).value) == Some(v)
  {
    match v
    case BigInt(n) =>
      Pow256Eight();
      ToFromBigEndian(FlipSign(n), 8);
    case _ =>
  }

  /** A byte string that decodes is the encoding of the value it decodes to. */
  lemma EncodeDecode(t: DataType, bytes: Key)
    requires DecodeKey(t, bytes).Some?
    ensures DecodeKey(t, bytes).value.Type() == Some(t)
    ensures EncodeKey(DecodeKey(t, bytes).value) == Some(bytes)
  {
    if t == BigIntType {
      Pow256Eight();
      FromToBigEndian(bytes);
    }
  }

  /** The byte order of encoded keys is the order of the values. */
  lemma EncodeIsOrderEmbedding(v: Value, w: Value)
    requires v != Null && w != Null && v.Type() == w.Type()
    ensures ValueLess(v, w) <==> Less(EncodeKey(v).value, EncodeKey(w).value)
    ensures v == w <==> EncodeKey(v) == EncodeKey(w)
  {
    DecodeEncode(v);
    DecodeEncode(w);
    match (v, w)
    case (BigInt(n), BigInt(k)) =>
      Pow256Eight();
      BigEndianOrder(FlipSign(n), FlipSign(k), 8);
    case _ =>
  }

  /** A key bound as SQL values order it. */
  predicate NotBelow(lower: Bound<Value>, v: Value) {
    match lower
    case Unbounded => true
    case Included(w) => !ValueLess(v, w)
    case Excluded(w) => ValueLess(w, v)
  }

  predicate NotAbove(upper: Bound<Value>, v: Value) {
    match upper
    case Unbounded => true
    case Included(w) => !ValueLess(w, v)
    case Excluded(w) => ValueLess(v, w)
  }
}
