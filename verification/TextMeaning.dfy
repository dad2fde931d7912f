/** Numbers and truth values as text, and the code points of a text, as far as expressions use them (src/eval.rs). */
module TextMeaning {
  import opened Options
  import opened KeyOrder
  import opened KeyCodec
  import opened Expressions
  import opened Evaluator

  // ---- Decimal numbers

  function Pow10(k: nat): (p: nat)
    ensures p > 0
  {
    if k == 0 then 1 else 10 * Pow10(k - 1)
  }

  /** The digit of weight 10^i. */
  function DigitOf(n: nat, i: nat): (d: nat)
    ensures d < 10
  {
    n / Pow10(i) % 10
  }

  /** `s` is `n` in decimal digits, the most significant first; there may be zeros in front. */
  ghost predicate Decimal(s: seq<byte>, n: nat) {
    s != [] && n < Pow10(|s|) && forall i :: 0 <= i < |s| ==> DigitAt(s, n, i)
  }

  ghost predicate DigitAt(s: seq<byte>, n: nat, i: nat)
    requires i < |s|
  {
    s[i] as int == 48 + DigitOf(n, |s| - 1 - i)
  }

  /** A sign for negative numbers only, and no needless zeros. */
  ghost predicate Writes(s: seq<byte>, n: i64) {
    var digits := if n < 0 then (if s == [] then [] else s[1..]) else s;
    && (n < 0 ==> s != [] && s[0] == 45)
    && Decimal(digits, if n < 0 then -(n as int) else n as int)
    && (|digits| > 1 ==> digits[0] != 48)
  }

  /** A number with an optional sign. */
  ghost predicate Reads(s: seq<byte>, n: i64) {
    if s != [] && s[0] == 45 then n <= 0 && Decimal(s[1..], -(n as int))
    else n >= 0 && Decimal(if s != [] && s[0] == 43 then s[1..] else s, n as int)
  }

  lemma DigitsShift(n: nat, i: nat)
    ensures DigitOf(n, i + 1) == DigitOf(n / 10, i)
  {
    Division.DivideTwice(n, 10, Pow10(i));
  }

  lemma DigitKept(s: seq<byte>, d: byte, n: nat, i: nat)
    requires i < |s|
    ensures DigitAt(s + [d], n, i) <==> DigitAt(s, n / 10, i)
  {
    hide DigitOf;
    DigitsShift(n, |s| - 1 - i);
  }

  lemma LastDigit(s: seq<byte>, d: byte, n: nat)
    ensures DigitAt(s + [d], n, |s|) <==> d as int == 48 + n % 10
  {
    assert Pow10(0) == 1;
  }

  lemma DecimalGrows(s: seq<byte>, d: byte, n: nat)
    requires s != []
    ensures Decimal(s + [d], n) <==> Decimal(s, n / 10) && d as int == 48 + n % 10
  {
    hide DigitAt;
    var t := s + [d];
    assert Pow10(|t|) == 10 * Pow10(|s|);
    hide Pow10;
    LastDigit(s, d, n);
    forall i | 0 <= i < |s| ensures DigitAt(t, n, i) <==> DigitAt(s, n / 10, i) {
      DigitKept(s, d, n, i);
    }
  }

  lemma OneDigit(d: byte, n: nat)
    ensures Decimal([d], n) <==> n < 10 && d as int == 48 + n
  {
    assert Pow10(1) == 10 * Pow10(0) == 10;
    LastDigit([], d, n);
    assert [] + [d] == [d];
  }

  lemma {:induction false} DigitsMean(n: nat)
    ensures Decimal(Digits(n), n) && (|Digits(n)| > 1 ==> Digits(n)[0] != 48)
  {
    hide Decimal;
    if n < 10 {
      OneDigit(Digit(n), n);
    } else {
      DigitsMean(n / 10);
      DecimalGrows(Digits(n / 10), Digit(n % 10), n);
      if |Digits(n / 10)| == 1 {
        FirstDigit(n / 10);
      }
    }
  }

  lemma FirstDigit(n: nat)
    requires |Digits(n)| == 1 && n > 0
    ensures Digits(n)[0] != 48
  {
  }

  lemma {:induction false} FromDigitsMeans(s: seq<byte>, n: nat)
    ensures FromDigits(s) == Some(n) <==> Decimal(s, n)
  {
    hide Decimal;
    if s == [] {
      NoDigits(n);
    } else if |s| == 1 {
      OneDigit(s[0], n);
      assert s == [s[0]];
    } else {
      var k := |s| - 1;
      assert s == s[..k] + [s[k]];
      DecimalGrows(s[..k], s[k], n);
      FromDigitsMeans(s[..k], n / 10);
      if FromDigits(s[..k]).Some? {
        FromDigitsMeans(s[..k], FromDigits(s[..k]).value);
      }
    }
  }

  lemma NoDigits(n: nat)
    ensures !Decimal([], n)
  {
  }

  lemma DecimalTextMeans(n: i64)
    ensures Writes(DecimalText(n), n)
  {
    hide Decimal, Digits, IsUtf8;
    var m := if n < 0 then -(n as int) else n as int;
    DigitsMean(m);
    if n < 0 {
      assert ([45] + Digits(m))[1..] == Digits(m);
    }
  }

  lemma ParseMeans(s: seq<byte>, n: i64)
    ensures ParseI64(s) == Some(n) <==> Reads(s, n)
  {
    hide Decimal, FromDigits;
    var digits := if s != [] && (s[0] == 45 || s[0] == 43) then s[1..] else s;
    var m := FromDigits(digits);
    FromDigitsMeans(digits, if n < 0 then -(n as int) else n as int);
    if m.Some? {
      FromDigitsMeans(digits, m.value);
    }
  }

  // ---- Words

  function Ascii(s: string): (bytes: seq<byte>)
    requires forall i :: 0 <= i < |s| ==> s[i] < 128 as char
    ensures |bytes| == |s| && forall i :: 0 <= i < |s| ==> bytes[i] as int == s[i] as int
  {
    seq(|s|, i requires 0 <= i < |s| => s[i] as int as byte)
  }

  /** The word in small or capital letters, or both. */
  predicate AnyCase(s: seq<byte>, word: string) {
    && |s| == |word|
    && forall i :: 0 <= i < |s| ==> s[i] as int == word[i] as int || s[i] as int + 32 == word[i] as int
  }

  lemma BoolTextMeans(b: bool)
    ensures BoolText(b) == Ascii(if b then "true" else "false")
  {
  }

  lemma WordMeans(s: seq<byte>, b: bool)
    ensures LowerBytes(s) == BoolText(b) <==> AnyCase(s, if b then "true" else "false")
  {
    var word := if b then "true" else "false";
    BoolTextMeans(b);
    if |s| == |word| {
      forall i | 0 <= i < |s|
        ensures LowerBytes(s)[i] == BoolText(b)[i] <==>
          s[i] as int == word[i] as int || s[i] as int + 32 == word[i] as int
      {
        SmallLetter(word, b, i);
      }
    }
  }

  lemma SmallLetter(word: string, b: bool, i: nat)
    requires word == (if b then "true" else "false") && i < |word|
    ensures 'a' <= word[i] <= 'z'
  {
  }

  /** Two names that differ in the case of ASCII letters at most. */
  predicate SameName(s: string, t: string) {
    && |s| == |t|
    && forall i :: 0 <= i < |s| ==>
         || s[i] == t[i]
         || ('a' <= s[i] <= 'z' && t[i] as int + 32 == s[i] as int)
         || ('a' <= t[i] <= 'z' && s[i] as int + 32 == t[i] as int)
  }

  lemma CaseDoesNotMatter(s: string, t: string)
    ensures LowerCase(s) == LowerCase(t) <==> SameName(s, t)
    ensures UpperCase(s) == UpperCase(t) <==> SameName(s, t)
  {
    if |s| == |t| {
      assert LowerCase(s) == LowerCase(t) <==> forall i :: 0 <= i < |s| ==> LowerCase(s)[i] == LowerCase(t)[i];
      assert UpperCase(s) == UpperCase(t) <==> forall i :: 0 <= i < |s| ==> UpperCase(s)[i] == UpperCase(t)[i];
      forall i | 0 <= i < |s|
        ensures LowerCase(s)[i] == LowerCase(t)[i] <==> SameLetter(s[i], t[i])
        ensures UpperCase(s)[i] == UpperCase(t)[i] <==> SameLetter(s[i], t[i])
      {
      }
    }
  }

  predicate SameLetter(c: char, d: char) {
    || c == d
    || ('a' <= c <= 'z' && d as int + 32 == c as int)
    || ('a' <= d <= 'z' && c as int + 32 == d as int)
  }

  lemma TypeNamedMeans(name: string)
    ensures SameName(name, "BIGINT") ==> TypeNamed(name) == Some(BigIntType)
    ensures SameName(name, "TEXT") ==> TypeNamed(name) == Some(TextType)
    ensures SameName(name, "BOOLEAN") ==> TypeNamed(name) == Some(BooleanType)
    ensures !SameName(name, "BIGINT") && !SameName(name, "TEXT") && !SameName(name, "BOOLEAN") ==> TypeNamed(name).None?
  {
    hide SameName;
    CaseDoesNotMatter(name, "BIGINT");
    CaseDoesNotMatter(name, "TEXT");
    CaseDoesNotMatter(name, "BOOLEAN");
    assert UpperCase("BIGINT") == "BIGINT" && UpperCase("TEXT") == "TEXT" && UpperCase("BOOLEAN") == "BOOLEAN";
  }

  // ---- Code points (RFC 3629, section 3)

  type Scalar = c: int | 0 <= c < 0x11_0000 && !(0xD800 <= c < 0xE000)

  function Utf8Char(c: Scalar): seq<byte> {
    if c < 0x80 then [c as byte]
    else if c < 0x800 then [(0xC0 + c / 64) as byte, (0x80 + c % 64) as byte]
    else if c < 0x1_0000 then [(0xE0 + c / 4096) as byte, (0x80 + c / 64 % 64) as byte, (0x80 + c % 64) as byte]
    else
      [(0xF0 + c / 0x4_0000) as byte, (0x80 + c / 4096 % 64) as byte, (0x80 + c / 64 % 64) as byte,
       (0x80 + c % 64) as byte]
  }

  function Utf8Of(cs: seq<Scalar>): seq<byte> {
    if cs == [] then [] else Utf8Char(cs[0]) + Utf8Of(cs[1..])
  }

  lemma OneChar(c: Scalar, rest: seq<byte>)
    ensures IsUtf8(Utf8Char(c) + rest) <==> IsUtf8(rest)
  {
    hide IsUtf8;
    var head := Utf8Char(c);
    if c < 0x80 {
      ShortHead(head, rest);
    } else if c < 0x800 {
      ShortHead(head, rest);
    } else {
      LongHead(head, rest);
    }
  }

  lemma ShortHead(head: seq<byte>, rest: seq<byte>)
    requires (|head| == 1 && head[0] < 0x80) || (|head| == 2 && 0xC2 <= head[0] <= 0xDF && Tail(head[1]))
    ensures IsUtf8(head + rest) <==> IsUtf8(rest)
  {
    assert (head + rest)[|head|..] == rest;
  }

  lemma LongHead(head: seq<byte>, rest: seq<byte>)
    requires
      || (&& |head| == 3 && 0xE0 <= head[0] <= 0xEF && Tail(head[1]) && Tail(head[2])
          && (head[0] == 0xE0 ==> head[1] >= 0xA0) && (head[0] == 0xED ==> head[1] <= 0x9F))
      || (&& |head| == 4 && 0xF0 <= head[0] <= 0xF4 && Tail(head[1]) && Tail(head[2]) && Tail(head[3])
          && (head[0] == 0xF0 ==> head[1] >= 0x90) && (head[0] == 0xF4 ==> head[1] <= 0x8F))
    ensures IsUtf8(head + rest) <==> IsUtf8(rest)
  {
    assert (head + rest)[|head|..] == rest;
  }

  lemma {:induction false} CountBoth(a: seq<byte>, b: seq<byte>)
    ensures CodePoints(a + b) == CodePoints(a) + CodePoints(b)
  {
    if a == [] {
      assert a + b == b;
    } else {
      CountBoth(a[1..], b);
      assert (a + b)[1..] == a[1..] + b;
    }
  }

  lemma CountOne(c: Scalar)
    ensures CodePoints(Utf8Char(c)) == 1
  {
    var s := Utf8Char(c);
    CountBoth([s[0]], s[1..]);
    assert s == [s[0]] + s[1..];
    AllTails(s[1..]);
  }

  lemma {:induction false} AllTails(s: seq<byte>)
    requires forall i :: 0 <= i < |s| ==> Tail(s[i])
    ensures CodePoints(s) == 0
  {
    if s != [] {
      AllTails(s[1..]);
    }
  }

  /** Encoded code points are well-formed, and the evaluator counts them. */
  lemma {:induction false} CountsChars(cs: seq<Scalar>)
    ensures IsUtf8(Utf8Of(cs)) && CodePoints(Utf8Of(cs)) == |cs|
  {
    hide Utf8Char;
    if cs != [] {
      CountsChars(cs[1..]);
      OneChar(cs[0], Utf8Of(cs[1..]));
      CountBoth(Utf8Char(cs[0]), Utf8Of(cs[1..]));
      CountOne(cs[0]);
    }
  }

  /** Every well-formed text is made of code points. */
  lemma {:induction false} CharsOf(s: seq<byte>) returns (cs: seq<Scalar>)
    requires IsUtf8(s)
    ensures Utf8Of(cs) == s
  {
    if s == [] {
      cs := [];
    } else {
      var c, n := FirstChar(s);
      OneChar(c, s[n..]);
      assert s == Utf8Char(c) + s[n..];
      var rest := CharsOf(s[n..]);
      cs := [c] + rest;
      assert cs[1..] == rest;
    }
  }

  /** The code point at the start of a text: the payload bits of its bytes, in groups of six. */
  lemma {:induction false} FirstChar(s: seq<byte>) returns (c: Scalar, n: nat)
    requires s != [] && IsUtf8(s)
    ensures 0 < n <= |s| && s[..n] == Utf8Char(c)
  {
    var a := s[0] as int;
    if a < 0x80 {
      c, n := a, 1;
    } else if a <= 0xDF {
      n := 2;
      c := TwoBytes(s[0], s[1]);
    } else if a <= 0xEF {
      n := 3;
      c := ThreeBytes(s[0], s[1], s[2]);
    } else {
      n := 4;
      c := FourBytes(s[0], s[1], s[2], s[3]);
    }
  }

  lemma {:induction false} TwoBytes(a: byte, b: byte) returns (c: Scalar)
    requires 0xC2 <= a <= 0xDF && Tail(b)
    ensures Utf8Char(c) == [a, b]
  {
    c := (a as int - 0xC0) * 64 + (b as int - 0x80);
  }

  lemma Sextets(x: nat, y: nat, z: nat)
    requires y < 64 && z < 64
    ensures var c := x * 4096 + y * 64 + z; c / 4096 == x && c / 64 == x * 64 + y && c / 64 % 64 == y && c % 64 == z
  {
  }

  lemma {:induction false} ThreeBytes(a: byte, b: byte, d: byte) returns (c: Scalar)
    requires 0xE0 <= a <= 0xEF && Tail(b) && Tail(d) && (a == 0xE0 ==> b >= 0xA0) && (a == 0xED ==> b <= 0x9F)
    ensures Utf8Char(c) == [a, b, d]
  {
    var x, y, z: int := a as int - 0xE0, b as int - 0x80, d as int - 0x80;
    Sextets(x, y, z);
    c := x * 4096 + y * 64 + z;
  }

  lemma {:induction false} FourBytes(a: byte, b: byte, d: byte, e: byte) returns (c: Scalar)
    requires 0xF0 <= a <= 0xF4 && Tail(b) && Tail(d) && Tail(e) && (a == 0xF0 ==> b >= 0x90)
    requires (a == 0xF4 ==> b <= 0x8F)
    ensures Utf8Char(c) == [a, b, d, e]
  {
    var w, x, y, z: int := a as int - 0xF0, b as int - 0x80, d as int - 0x80, e as int - 0x80;
    Sextets(w * 64 + x, y, z);
    c := w * 0x4_0000 + x * 4096 + y * 64 + z;
    assert c / 0x4_0000 == w;
  }
}
