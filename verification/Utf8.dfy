/** Three-way comparison and its lexicographic extension to sequences. */
module Orders {
  datatype Ordering = Less | Equal | Greater

  function Flip(o: Ordering): Ordering {
    match o
    case Less => Greater
    case Equal => Equal
    case Greater => Less
  }

  function CompareInt(a: int, b: int): Ordering {
    if a < b then Less else if a == b then Equal else Greater
  }

  /** A three-way comparison that orders a type totally, Equal meaning equal. */
  ghost predicate IsTotalOrder<T(!new)>(f: (T, T) -> Ordering) {
    && (forall x, y :: f(x, y) == Flip(f(y, x)))
    && (forall x, y :: f(x, y) == Equal <==> x == y)
    && (forall x, y, z :: f(x, y) == Less && f(y, z) == Less ==> f(x, z) == Less)
  }

  /** The comparison of two slices or strings in Rust. */
  function Lex<T>(f: (T, T) -> Ordering, a: seq<T>, b: seq<T>): Ordering {
    if a == [] && b == [] then Equal
    else if a == [] then Less
    else if b == [] then Greater
    else if f(a[0], b[0]) == Equal then Lex(f, a[1..], b[1..])
    else f(a[0], b[0])
  }

  lemma {:induction false} LexFlips<T(!new)>(f: (T, T) -> Ordering, a: seq<T>, b: seq<T>)
    requires IsTotalOrder(f)
    ensures Lex(f, a, b) == Flip(Lex(f, b, a))
  {
    if a != [] && b != [] {
      LexFlips(f, a[1..], b[1..]);
      assert f(a[0], b[0]) == Flip(f(b[0], a[0]));
    }
  }

  lemma {:induction false} LexEqual<T(!new)>(f: (T, T) -> Ordering, a: seq<T>, b: seq<T>)
    requires IsTotalOrder(f)
    ensures Lex(f, a, b) == Equal <==> a == b
  {
    if a != [] && b != [] {
      LexEqual(f, a[1..], b[1..]);
      assert a == [a[0]] + a[1..] && b == [b[0]] + b[1..];
      assert f(a[0], b[0]) == Equal <==> a[0] == b[0];
    }
  }

  lemma CompareIntIsTotalOrder()
    ensures IsTotalOrder(CompareInt)
  {
  }

  lemma {:induction false} LexSkipsCommon<T(!new)>(f: (T, T) -> Ordering, p: seq<T>, a: seq<T>, b: seq<T>)
    requires IsTotalOrder(f)
    ensures Lex(f, p + a, p + b) == Lex(f, a, b)
  {
    if p == [] {
      assert p + a == a && p + b == b;
    } else {
      assert (p + a)[0] == p[0] == (p + b)[0] && (p + a)[1..] == p[1..] + a && (p + b)[1..] == p[1..] + b;
      LexSkipsCommon(f, p[1..], a, b);
    }
  }

  /** After a common beginning the first difference decides, or the shorter sequence comes first. */
  lemma FirstDifferenceDecides<T(!new)>(f: (T, T) -> Ordering, p: seq<T>, a: seq<T>, b: seq<T>)
    requires IsTotalOrder(f)
    ensures a != [] && b != [] && f(a[0], b[0]) != Equal ==> Lex(f, p + a, p + b) == f(a[0], b[0])
    ensures a == [] && b != [] ==> Lex(f, p + a, p + b) == Less
  {
    LexSkipsCommon(f, p, a, b);
  }
}

/** UTF-8 as Rust strings store it. */
module Utf8 {
  import opened Orders

  function High(n: nat): nat {
    n / 64
  }

  function Low(n: nat): (b: nat)
    ensures b < 64
  {
    n % 64
  }

  /** Section 3 of RFC 3629: a lead byte and six bits in each byte after it. */
  function EncodeChar(c: char): (bytes: seq<int>)
    ensures |bytes| > 0
  {
    var n := c as int;
    if n < 0x80 then [n]
    else if n < 0x800 then [0xC0 + High(n), 0x80 + Low(n)]
    else if n < 0x10000 then [0xE0 + High(High(n)), 0x80 + Low(High(n)), 0x80 + Low(n)]
    else [0xF0 + High(High(High(n))), 0x80 + Low(High(High(n))), 0x80 + Low(High(n)), 0x80 + Low(n)]
  }

  function Encode(s: string): seq<int> {
    if s == "" then [] else EncodeChar(s[0]) + Encode(s[1..])
  }

  function CompareChar(a: char, b: char): Ordering {
    CompareInt(a as int, b as int)
  }

  lemma CompareCharIsTotalOrder()
    ensures IsTotalOrder(CompareChar)
  {
  }

  /** A common first byte does not decide. */
  lemma LexSkips(b: int, x: seq<int>, y: seq<int>)
    ensures Lex(CompareInt, [b] + x, [b] + y) == Lex(CompareInt, x, y)
  {
  }

  lemma {:induction false} LexSkipsPrefix(p: seq<int>, x: seq<int>, y: seq<int>)
    ensures Lex(CompareInt, p + x, p + y) == Lex(CompareInt, x, y)
  {
    if p == [] {
      assert p + x == x && p + y == y;
    } else {
      assert p + x == [p[0]] + (p[1..] + x) && p + y == [p[0]] + (p[1..] + y);
      LexSkips(p[0], p[1..] + x, p[1..] + y);
      LexSkipsPrefix(p[1..], x, y);
    }
  }

  /** Where two sequences first differ decides, whatever follows. */
  lemma LexDecides(p: seq<int>, b: int, x: seq<int>, c: int, y: seq<int>)
    requires b < c
    ensures Lex(CompareInt, p + [b] + x, p + [c] + y) == Less
  {
    assert p + [b] + x == p + ([b] + x) && p + [c] + y == p + ([c] + y);
    LexSkipsPrefix(p, [b] + x, [c] + y);
  }

  lemma HighFirst(m: nat, n: nat)
    requires m < n
    ensures High(m) < High(n) || (High(m) == High(n) && Low(m) < Low(n))
  {
  }

  lemma LeadByteRanges(n: nat)
    ensures n < 0x800 ==> High(n) < 0x20
    ensures n < 0x10000 ==> High(High(n)) < 0x10
  {
  }

  ghost predicate SmallerAt(x: seq<int>, y: seq<int>, k: nat) {
    k < |x| && k < |y| && x[..k] == y[..k] && x[k] < y[k]
  }

  /** Encodings of different characters differ before either ends, the smaller character first. */
  lemma SmallerCharEncodesSmaller(a: char, b: char) returns (k: nat)
    requires a < b
    ensures SmallerAt(EncodeChar(a), EncodeChar(b), k)
  {
    hide High, Low;
    var m, n := a as int, b as int;
    LeadByteRanges(m);
    LeadByteRanges(n);
    HighFirst(m, n);
    if High(m) < High(n) {
      HighFirst(High(m), High(n));
    }
    if High(High(m)) < High(High(n)) {
      HighFirst(High(High(m)), High(High(n)));
    }
    k := if m < 0x80 || n >= 0x10000 > m || n >= 0x800 > m then 0
         else if n < 0x800 then (if High(m) < High(n) then 0 else 1)
         else if n < 0x10000 then
           (if High(High(m)) < High(High(n)) then 0 else if High(m) < High(n) then 1 else 2)
         else if High(High(High(m))) < High(High(High(n))) then 0
         else if High(High(m)) < High(High(n)) then 1
         else if High(m) < High(n) then 2
         else 3;
  }

  lemma SmallerCharComesFirst(a: char, b: char, x: seq<int>, y: seq<int>)
    requires a < b
    ensures Lex(CompareInt, EncodeChar(a) + x, EncodeChar(b) + y) == Less
  {
    hide EncodeChar, Lex;
    var e, f := EncodeChar(a), EncodeChar(b);
    var k := SmallerCharEncodesSmaller(a, b);
    LexDecides(e[..k], e[k], e[k + 1..] + x, f[k], f[k + 1..] + y);
    assert e + x == e[..k] + [e[k]] + (e[k + 1..] + x);
    assert f + y == f[..k] + [f[k]] + (f[k + 1..] + y);
  }

  lemma CompareIntFlips(x: seq<int>, y: seq<int>)
    ensures Lex(CompareInt, x, y) == Flip(Lex(CompareInt, y, x))
  {
  }

  /** Comparing the bytes of two strings compares their code points. */
  lemma {:induction false} ByteOrderIsCharOrder(a: string, b: string)
    ensures Lex(CompareInt, Encode(a), Encode(b)) == Lex(CompareChar, a, b)
  {
    hide EncodeChar;
    if a != "" && b != "" {
      if a[0] < b[0] {
        SmallerCharComesFirst(a[0], b[0], Encode(a[1..]), Encode(b[1..]));
      } else if b[0] < a[0] {
        SmallerCharComesFirst(b[0], a[0], Encode(b[1..]), Encode(a[1..]));
        CompareIntFlips(Encode(a), Encode(b));
      } else {
        LexSkipsPrefix(EncodeChar(a[0]), Encode(a[1..]), Encode(b[1..]));
        ByteOrderIsCharOrder(a[1..], b[1..]);
      }
    }
  }

  /** The encoding tells any two strings apart. */
  lemma EncodeIsInjective(a: string, b: string)
    ensures Encode(a) == Encode(b) <==> a == b
  {
    ByteOrderIsCharOrder(a, b);
    CompareIntIsTotalOrder();
    CompareCharIsTotalOrder();
    LexEqual(CompareInt, Encode(a), Encode(b));
    LexEqual(CompareChar, a, b);
  }
}

/** Texts seen byte by byte. */
module TextBytes {
  import opened Chars
  import opened Utf8

  /** A text as code that indexes bytes sees it: each byte of its UTF-8 form taken for a character. */
  function Bytewise(s: string): string {
    if s == "" then "" else CharBytes(s[0]) + Bytewise(s[1..])
  }

  function CharBytes(c: char): (r: string)
    ensures c < '\U{80}' ==> r == [c]
    ensures c >= '\U{80}' ==> |r| > 1 && forall d <- r :: d >= '\U{80}'
  {
    var bytes := EncodeChar(c);
    seq(|bytes|, i requires 0 <= i < |bytes| => ByteChar(bytes[i]))
  }

  function ByteChar(b: int): char {
    if 0 <= b < 256 then b as char else '?'
  }

  lemma CharBytesAreEncoded(c: char)
    ensures |CharBytes(c)| == |EncodeChar(c)|
    ensures forall i :: 0 <= i < |CharBytes(c)| ==> CharBytes(c)[i] as int == EncodeChar(c)[i]
  {
  }

  lemma {:induction false} BytewiseIsEncoded(s: string)
    ensures |Bytewise(s)| == |Encode(s)|
    ensures forall i :: 0 <= i < |Bytewise(s)| ==> Bytewise(s)[i] as int == Encode(s)[i]
  {
    hide CharBytes, EncodeChar;
    if s != "" {
      CharBytesAreEncoded(s[0]);
      BytewiseIsEncoded(s[1..]);
    }
  }

  lemma {:induction false} BytewiseAppend(a: string, b: string)
    ensures Bytewise(a + b) == Bytewise(a) + Bytewise(b)
  {
    hide CharBytes;
    if a == "" {
      assert a + b == b;
    } else {
      assert (a + b)[1..] == a[1..] + b;
      BytewiseAppend(a[1..], b);
    }
  }

  lemma {:induction false} BytewiseGrows(s: string)
    ensures |Bytewise(s)| >= |s|
    ensures Bytewise(s) == s <==> IsAscii(s)
    ensures |Bytewise(s)| == |s| ==> IsAscii(s)
  {
    hide CharBytes;
    if s != "" {
      BytewiseGrows(s[1..]);
      assert s[0] in s && forall c <- s :: c == s[0] || c in s[1..];
      assert forall c <- s[1..] :: c in s;
      if s[0] < '\U{80}' {
        assert Bytewise(s)[1..] == Bytewise(s[1..]);
        assert s == [s[0]] + s[1..];
      }
    }
  }

  lemma BytewiseOfAscii(s: string)
    requires IsAscii(s)
    ensures Bytewise(s) == s
  {
    BytewiseGrows(s);
  }

  lemma {:induction false} AsciiBytesAreAsciiText(s: string)
    requires IsAscii(Bytewise(s))
    ensures IsAscii(s)
  {
    hide CharBytes;
    if s != "" {
      var first, rest := CharBytes(s[0]), Bytewise(s[1..]);
      assert Bytewise(s) == first + rest;
      assert first[0] in first + rest && forall c <- rest :: c in first + rest;
      AsciiBytesAreAsciiText(s[1..]);
      assert first[0] in first;
      assert s == [s[0]] + s[1..];
    }
  }
}
