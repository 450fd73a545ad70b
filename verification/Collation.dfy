/** The built-in collations of `crates/sql/src/collation.rs`. */
module Collation {
  import opened Chars
  import opened Decimal
  import opened Orders
  import opened Utf8

  datatype Collation = Binary | NoCase | RTrim | Uint

  /** `usize::MAX` on a 64-bit target. */
  const USIZE_MAX: nat := 0xFFFF_FFFF_FFFF_FFFF

  // ---- Byte-wise collations ------------------------------------------------------------------

  /** `u8::to_ascii_lowercase`. */
  function LowerByte(b: int): int {
    if 65 <= b <= 90 then b + 32 else b
  }

  function LowerBytes(s: seq<int>): seq<int> {
    seq(|s|, i requires 0 <= i < |s| => LowerByte(s[i]))
  }

  /** `trim_end_matches(' ')`. */
  function TrimEndSpaces(s: string): (r: string)
    ensures r <= s && (forall i :: |r| <= i < |s| ==> s[i] == ' ') && (r == "" || r[|r| - 1] != ' ')
  {
    if s != "" && s[|s| - 1] == ' ' then TrimEndSpaces(s[..|s| - 1]) else s
  }

  /** The byte loop of NOCASE. */
  method CompareNoCase(a: seq<int>, b: seq<int>) returns (r: Ordering)
    ensures r == Lex(CompareInt, LowerBytes(a), LowerBytes(b))
  {
    var i := 0;
    while i < |a| && i < |b|
      invariant i <= |a| && i <= |b|
      invariant Lex(CompareInt, LowerBytes(a), LowerBytes(b)) == Lex(CompareInt, LowerBytes(a)[i..], LowerBytes(b)[i..])
    {
      var x, y := LowerByte(a[i]), LowerByte(b[i]);
      var o := CompareInt(x, y);
      if o != Equal {
        return o;
      }
      i := i + 1;
    }
    return if i < |b| then Less else if i < |a| then Greater else Equal;
  }

  // ---- UINT ----------------------------------------------------------------------------------

  /** UINT reads a string as characters and digit runs; a run is its saturated value and its length. */
  datatype Token = Other(c: char) | Run(value: nat, digits: nat)

  function Saturated(n: nat): nat {
    if n < USIZE_MAX then n else USIZE_MAX
  }

  function Tokens(s: string): seq<Token> {
    if s == "" then []
    else if IsDigit(s[0]) then
      var n := DigitPrefix(s);
      [Run(Saturated(Value(s[..n])), n)] + Tokens(s[n..])
    else [Other(s[0])] + Tokens(s[1..])
  }

  /** Runs compare by value, then length; every run sits where the digits sit among characters. */
  function CompareToken(a: Token, b: Token): Ordering {
    match (a, b)
    case (Other(c), Other(d)) => CompareInt(c as int, d as int)
    case (Run(v, m), Run(w, n)) => if v == w then CompareInt(m, n) else CompareInt(v, w)
    case (Other(c), Run(_, _)) => if c <= '9' then Less else Greater
    case (Run(_, _), Other(c)) => if c <= '9' then Greater else Less
  }

  lemma CompareTokenIsTotalOrder()
    ensures IsTotalOrder(CompareToken)
  {
  }

  /** `take_uint`: the longest run of digits at `start`, its length and its value clamped to `usize`. */
  method TakeUint(s: string, start: nat) returns (value: nat, digits: nat)
    requires start <= |s|
    ensures digits == DigitPrefix(s[start..])
    ensures value == Saturated(Value(s[start..][..digits]))
  {
    value, digits := 0, 0;
    while start + digits < |s| && IsDigit(s[start + digits])
      invariant start + digits <= |s| && AllDigits(s[start..][..digits])
      invariant value == Saturated(Value(s[start..][..digits]))
      decreases |s| - digits
    {
      var t := s[start..];
      assert t[..digits + 1][..digits] == t[..digits];
      value := Saturated(Saturated(value * 10) + DigitValue(s[start + digits]));
      digits := digits + 1;
    }
    DigitPrefixAt(s[start..], digits);
  }

  function TokenAt(s: string): Token
    requires s != ""
  {
    if IsDigit(s[0]) then Run(Saturated(Value(s[..DigitPrefix(s)])), DigitPrefix(s)) else Other(s[0])
  }

  /** `compare_uint_text` compares the token sequences. */
  method CompareUintText(a: string, b: string) returns (r: Ordering)
    ensures r == Lex(CompareToken, Tokens(a), Tokens(b))
  {
    hide Tokens, Lex;
    var i, j := 0, 0;
    assert a[0..] == a && b[0..] == b;
    while i < |a| && j < |b|
      invariant 0 <= i <= |a| && 0 <= j <= |b|
      invariant Lex(CompareToken, Tokens(a), Tokens(b)) == Lex(CompareToken, Tokens(a[i..]), Tokens(b[j..]))
    {
      ghost var x, y := a[i..], b[j..];
      var m, n, o;
      if IsDigit(a[i]) && IsDigit(b[j]) {
        var v, w;
        v, m := TakeUint(a, i);
        w, n := TakeUint(b, j);
        o := if v == w then CompareInt(m, n) else CompareInt(v, w);
      } else {
        m, n := 1, 1;
        o := CompareInt(a[i] as int, b[j] as int);
      }
      StepOver(x, y, m, n);
      if o != Equal {
        return o;
      }
      assert x[m..] == a[i + m..] && y[n..] == b[j + n..];
      i, j := i + m, j + n;
    }
    AtTheEnd(a[i..], b[j..]);
    return if j < |b| then Less else if i < |a| then Greater else Equal;
  }

  /** One turn of the loop: two runs are taken whole, otherwise one character each. */
  lemma StepOver(x: string, y: string, m: nat, n: nat)
    requires x != "" && y != ""
    requires m == if IsDigit(x[0]) && IsDigit(y[0]) then DigitPrefix(x) else 1
    requires n == if IsDigit(x[0]) && IsDigit(y[0]) then DigitPrefix(y) else 1
    ensures 0 < m <= |x| && 0 < n <= |y|
    ensures var o := CompareToken(TokenAt(x), TokenAt(y));
            Lex(CompareToken, Tokens(x), Tokens(y)) ==
            if o == Equal then Lex(CompareToken, Tokens(x[m..]), Tokens(y[n..])) else o
  {
  }

  lemma AtTheEnd(x: string, y: string)
    requires x == "" || y == ""
    ensures Lex(CompareToken, Tokens(x), Tokens(y)) == if y != "" then Less else if x != "" then Greater else Equal
  {
  }

  // ---- Every collation is a total preorder ---------------------------------------------------

  /** `compare_text`. */
  function CompareText(c: Collation, a: string, b: string): Ordering {
    match c
    case Binary => Lex(CompareInt, Encode(a), Encode(b))
    case NoCase => Lex(CompareInt, LowerBytes(Encode(a)), LowerBytes(Encode(b)))
    case RTrim => Lex(CompareInt, Encode(TrimEndSpaces(a)), Encode(TrimEndSpaces(b)))
    case Uint => Lex(CompareToken, Tokens(a), Tokens(b))
  }

  /** What the three byte-wise collations make of a text before comparing it. */
  function Folded(c: Collation, s: string): string
    requires !c.Uint?
  {
    match c
    case Binary => s
    case NoCase => AsciiLower(s)
    case RTrim => TrimEndSpaces(s)
  }

  lemma LowerBytesAppend(x: seq<int>, y: seq<int>)
    ensures LowerBytes(x + y) == LowerBytes(x) + LowerBytes(y)
  {
  }

  lemma LowerEncodeChar(c: char)
    ensures LowerBytes(EncodeChar(c)) == EncodeChar(ToAsciiLower(c))
  {
  }

  lemma {:induction false} LowerEncode(s: string)
    ensures LowerBytes(Encode(s)) == Encode(AsciiLower(s))
  {
    hide EncodeChar, LowerBytes, ToAsciiLower;
    if s == "" {
      assert LowerBytes([]) == [] by { LowerBytesEmpty(); }
    } else {
      LowerEncodeChar(s[0]);
      LowerEncode(s[1..]);
      LowerBytesAppend(EncodeChar(s[0]), Encode(s[1..]));
      assert AsciiLower(s)[1..] == AsciiLower(s[1..]);
    }
  }

  lemma LowerBytesEmpty()
    ensures LowerBytes([]) == []
  {
  }

  /** Byte loops order the folded texts by code point, although they never decode a character. */
  lemma ByteCollationsOrderFoldedText(c: Collation, a: string, b: string)
    requires !c.Uint?
    ensures CompareText(c, a, b) == Lex(CompareChar, Folded(c, a), Folded(c, b))
  {
    LowerEncode(a);
    LowerEncode(b);
    ByteOrderIsCharOrder(Folded(c, a), Folded(c, b));
  }

  /** The first character in which the folded texts differ decides by code point, or the shorter text comes first. */
  lemma FoldedTextDecides(c: Collation, a: string, b: string, p: string, x: string, y: string)
    requires !c.Uint? && Folded(c, a) == p + x && Folded(c, b) == p + y
    ensures x != "" && y != "" && x[0] < y[0] ==> CompareText(c, a, b) == Less && CompareText(c, b, a) == Greater
    ensures x == "" && y != "" ==> CompareText(c, a, b) == Less && CompareText(c, b, a) == Greater
  {
    hide CompareText, Folded, Lex;
    CompareCharIsTotalOrder();
    ByteCollationsOrderFoldedText(c, a, b);
    FirstDifferenceDecides(CompareChar, p, x, y);
    CompareIsAntisymmetric(c, a, b);
    CompareIsAntisymmetric(c, b, a);
  }

  ghost predicate SameClass(c: Collation, a: string, b: string) {
    if c.Uint? then Tokens(a) == Tokens(b) else Folded(c, a) == Folded(c, b)
  }

  lemma CompareIsAntisymmetric(c: Collation, a: string, b: string)
    ensures CompareText(c, a, b) == Flip(CompareText(c, b, a))
    ensures CompareText(c, a, b) == Equal <==> SameClass(c, a, b)
  {
    hide Lex, Tokens, Folded;
    if c.Uint? {
      CompareTokenIsTotalOrder();
      LexFlips(CompareToken, Tokens(a), Tokens(b));
      LexEqual(CompareToken, Tokens(a), Tokens(b));
    } else {
      CompareCharIsTotalOrder();
      ByteCollationsOrderFoldedText(c, a, b);
      ByteCollationsOrderFoldedText(c, b, a);
      LexFlips(CompareChar, Folded(c, a), Folded(c, b));
      LexEqual(CompareChar, Folded(c, a), Folded(c, b));
    }
  }

  lemma LexAtMostTransitive<T(!new)>(f: (T, T) -> Ordering, a: seq<T>, b: seq<T>, c: seq<T>)
    requires IsTotalOrder(f) && Lex(f, a, b) != Greater && Lex(f, b, c) != Greater
    ensures Lex(f, a, c) != Greater
    ensures Lex(f, a, c) == Equal ==> a == b == c
  {
  }

  lemma CompareIsTransitive(c: Collation, x: string, y: string, z: string)
    requires CompareText(c, x, y) != Greater && CompareText(c, y, z) != Greater
    ensures CompareText(c, x, z) != Greater
    ensures CompareText(c, x, z) == Equal ==> SameClass(c, x, y) && SameClass(c, y, z)
  {
    hide Lex, Tokens, Folded;
    if c.Uint? {
      CompareTokenIsTotalOrder();
      LexAtMostTransitive(CompareToken, Tokens(x), Tokens(y), Tokens(z));
    } else {
      CompareCharIsTotalOrder();
      ByteCollationsOrderFoldedText(c, x, y);
      ByteCollationsOrderFoldedText(c, y, z);
      ByteCollationsOrderFoldedText(c, x, z);
      LexAtMostTransitive(CompareChar, Folded(c, x), Folded(c, y), Folded(c, z));
    }
  }

  // ---- UINT orders numbers by value ----------------------------------------------------------

  /** No digit run of the text begins in `p` and goes on after it. */
  predicate CutsNoRun(p: string, rest: string) {
    p == "" || rest == "" || !IsDigit(p[|p| - 1]) || !IsDigit(rest[0])
  }

  lemma {:induction false} TokensAppend(p: string, rest: string)
    requires CutsNoRun(p, rest)
    ensures Tokens(p + rest) == Tokens(p) + Tokens(rest)
    decreases |p|
  {
    hide DigitPrefix, Value, Tokens, CutsNoRun;
    if p == "" {
      assert p + rest == rest && Tokens("") == [] by { FirstTokenKind(""); }
    } else {
      var head, more := FirstToken(p);
      assert p + rest == head + (more + rest);
      CutLater(head, more, rest);
      TokensAppend(more, rest);
      assert Tokens(p) == [Tokens(p)[0]] + Tokens(more);
      if Tokens(p)[0].Run? {
        NoDigitNext(head, more, rest);
        TokensOfRun(head, more + rest);
      } else {
        TokensOfChar(head[0], more + rest);
      }
    }
  }

  lemma CutLater(head: string, more: string, rest: string)
    requires CutsNoRun(head + more, rest)
    ensures CutsNoRun(more, rest)
  {
    assert more != "" ==> (head + more)[|head + more| - 1] == more[|more| - 1];
  }

  lemma NoDigitNext(head: string, more: string, rest: string)
    requires head != "" && AllDigits(head) && (more != "" ==> !IsDigit(more[0])) && CutsNoRun(head + more, rest)
    ensures more + rest != "" ==> !IsDigit((more + rest)[0])
  {
    if more == "" {
      assert head + more == head && more + rest == rest && head[|head| - 1] in head;
    }
  }

  lemma UintSkipsCommon(p: string, a: string, b: string)
    requires CutsNoRun(p, a) && CutsNoRun(p, b)
    ensures CompareText(Uint, p + a, p + b) == CompareText(Uint, a, b)
  {
    hide Tokens, Lex;
    TokensAppend(p, a);
    TokensAppend(p, b);
    CompareTokenIsTotalOrder();
    LexSkipsCommon(CompareToken, Tokens(p), Tokens(a), Tokens(b));
  }

  /** The smaller of two digit runs: by number below `usize::MAX`, then by length. */
  predicate IsSmallerRun(d: string, e: string)
    requires AllDigits(d) && AllDigits(e)
  {
    || (Value(d) < Value(e) && Value(d) < USIZE_MAX)
    || ((Value(d) == Value(e) || (Value(d) >= USIZE_MAX && Value(e) >= USIZE_MAX)) && |d| < |e|)
  }

  lemma RunsDecide(d: string, x: string, e: string, y: string)
    requires d != "" && AllDigits(d) && CutsNoRun(d, x) && e != "" && AllDigits(e) && CutsNoRun(e, y)
    requires IsSmallerRun(d, e)
    ensures CompareText(Uint, d + x, e + y) == Less && CompareText(Uint, e + y, d + x) == Greater
  {
    hide Tokens, Value, Lex;
    assert d[|d| - 1] in d && e[|e| - 1] in e;
    TokensOfRun(d, x);
    TokensOfRun(e, y);
    HeadsDecide(Run(Saturated(Value(d)), |d|), Tokens(x), Run(Saturated(Value(e)), |e|), Tokens(y));
  }

  lemma HeadsDecide(a: Token, x: seq<Token>, b: Token, y: seq<Token>)
    requires CompareToken(a, b) == Less
    ensures Lex(CompareToken, [a] + x, [b] + y) == Less && Lex(CompareToken, [b] + y, [a] + x) == Greater
  {
    CompareTokenIsTotalOrder();
  }

  /**
   Where two texts differ in a whole digit run the smaller number comes first; between equal numbers,
   and between numbers at or above `usize::MAX`, the shorter run does.
   */
  lemma UintOrdersNumbers(p: string, d: string, x: string, e: string, y: string)
    requires d != "" && AllDigits(d) && CutsNoRun(d, x) && e != "" && AllDigits(e) && CutsNoRun(e, y)
    requires (p != "" ==> !IsDigit(p[|p| - 1])) && IsSmallerRun(d, e)
    ensures CompareText(Uint, p + d + x, p + e + y) == Less && CompareText(Uint, p + e + y, p + d + x) == Greater
  {
    hide CompareText, IsSmallerRun;
    assert p + d + x == p + (d + x) && p + e + y == p + (e + y);
    UintSkipsCommon(p, d + x, e + y);
    UintSkipsCommon(p, e + y, d + x);
    RunsDecide(d, x, e, y);
  }

  /** Where two texts differ in characters that are not both digits, code points decide. */
  lemma UintOrdersCharacters(p: string, x: string, y: string)
    requires p != "" ==> !IsDigit(p[|p| - 1])
    requires x != "" && y != "" && x[0] < y[0] && !(IsDigit(x[0]) && IsDigit(y[0]))
    ensures CompareText(Uint, p + x, p + y) == Less && CompareText(Uint, p + y, p + x) == Greater
  {
    hide Lex;
    UintSkipsCommon(p, x, y);
    UintSkipsCommon(p, y, x);
    StepOver(x, y, 1, 1);
    StepOver(y, x, 1, 1);
  }

  /** A text that goes on after another comes later. */
  lemma UintOrdersPrefixes(p: string, y: string)
    requires y != "" && CutsNoRun(p, y)
    ensures CompareText(Uint, p, p + y) == Less && CompareText(Uint, p + y, p) == Greater
  {
    hide Lex, Tokens;
    assert p + "" == p;
    UintSkipsCommon(p, "", y);
    UintSkipsCommon(p, y, "");
    AtTheEnd("", y);
    AtTheEnd(y, "");
  }

  // ---- When UINT tells strings apart ---------------------------------------------------------

  predicate IsSaturated(t: Token) {
    t.Run? && t.value >= USIZE_MAX
  }

  lemma TokensOfRun(d: string, rest: string)
    requires d != "" && AllDigits(d) && (rest != "" ==> !IsDigit(rest[0]))
    ensures Tokens(d + rest) == [Run(Saturated(Value(d)), |d|)] + Tokens(rest)
  {
    assert (d + rest)[..|d|] == d && (d + rest)[|d|..] == rest;
    DigitPrefixAt(d + rest, |d|);
  }

  lemma TokensOfChar(c: char, rest: string)
    requires !IsDigit(c)
    ensures Tokens([c] + rest) == [Other(c)] + Tokens(rest)
  {
  }

  /** The first token together with the text it stands for. */
  lemma FirstToken(s: string) returns (head: string, rest: string)
    requires s != ""
    ensures head != "" && s == head + rest && Tokens(s) != [] && Tokens(s)[1..] == Tokens(rest)
    ensures Tokens(s)[0].Other? ==> !IsDigit(head[0]) && head == [Tokens(s)[0].c]
    ensures Tokens(s)[0].Run? ==> AllDigits(head) && Tokens(s)[0] == Run(Saturated(Value(head)), |head|)
    ensures Tokens(s)[0].Run? && rest != "" ==> !IsDigit(rest[0])
  {
    var n := if IsDigit(s[0]) then DigitPrefix(s) else 1;
    head, rest := s[..n], s[n..];
    if IsDigit(s[0]) {
      assert n > 0;
    }
  }

  lemma {:induction false} UnsaturatedTokensDetermine(a: string, b: string)
    requires Tokens(a) == Tokens(b) && (forall t <- Tokens(a) :: !IsSaturated(t))
    ensures a == b
    decreases |a|
  {
    hide Value, DigitPrefix, Fixed;
    if a != "" && b != "" {
      var h, x := FirstToken(a);
      var k, y := FirstToken(b);
      assert forall t <- Tokens(x) :: t in Tokens(a);
      UnsaturatedTokensDetermine(x, y);
      assert !IsSaturated(Tokens(a)[0]);
      if Tokens(a)[0].Run? {
        FixedOfValue(h);
        FixedOfValue(k);
      }
    }
  }

  lemma SaturatedRunsAreLong(n: nat)
    requires Pow10(n) > USIZE_MAX
    ensures n >= 20 && USIZE_MAX + 1 < Pow10(n)
  {
    assert Pow10(10) == 10_000_000_000;
    assert Pow10(15) == 1_000_000_000_000_000;
    assert Pow10(20) == 100_000_000_000_000_000_000;
    if n < 20 {
      Pow10Monotone(n, 19);
    } else {
      Pow10Monotone(20, n);
    }
  }

  /** Another run of the same length that UINT cannot tell from a saturated one. */
  lemma OtherSaturatedRun(d: string) returns (e: string)
    requires AllDigits(d) && Value(d) >= USIZE_MAX
    ensures e != d && |e| == |d| && AllDigits(e) && Value(e) >= USIZE_MAX
  {
    hide Value, Fixed, Pow10;
    FixedOfValue(d);
    SaturatedRunsAreLong(|d|);
    var v := if Value(d) == USIZE_MAX then USIZE_MAX + 1 else USIZE_MAX;
    e := Fixed(v, |d|);
    ValueOfFixed(v, |d|);
  }

  /** A string with a saturated run has a twin. */
  lemma {:induction false} TwinOf(a: string) returns (b: string)
    requires exists t <- Tokens(a) :: IsSaturated(t)
    ensures b != a && Tokens(b) == Tokens(a)
    decreases |a|
  {
    hide Value, DigitPrefix, Fixed, Pow10;
    var head, rest := FirstToken(a);
    var first := Tokens(a)[0];
    if IsSaturated(first) {
      var other := OtherSaturatedRun(head);
      b := other + rest;
      TokensOfRun(other, rest);
      assert b[..|head|] == other;
    } else {
      assert Tokens(a) == [first] + Tokens(rest);
      var twin := TwinOf(rest);
      b := head + twin;
      assert b[|head|..] == twin;
      if first.Run? {
        SameFirstKind(rest, twin);
        TokensOfRun(head, twin);
      } else {
        TokensOfChar(head[0], twin);
      }
    }
  }

  lemma SameFirstKind(x: string, y: string)
    requires Tokens(x) == Tokens(y) && (x != "" ==> !IsDigit(x[0]))
    ensures y != "" ==> !IsDigit(y[0])
  {
    hide Tokens;
    FirstTokenKind(x);
    FirstTokenKind(y);
  }

  lemma FirstTokenKind(s: string)
    ensures s == "" <==> Tokens(s) == []
    ensures s != "" ==> (IsDigit(s[0]) <==> Tokens(s)[0].Run?)
  {
  }

  /** UINT equality identifies a string exactly when none of its digit runs reaches `usize::MAX`. */
  lemma UintIdentifiesExactly(a: string)
    ensures (forall b :: CompareText(Uint, a, b) == Equal ==> b == a) <==> (forall t <- Tokens(a) :: !IsSaturated(t))
  {
    hide Tokens, Lex;
    if forall t <- Tokens(a) :: !IsSaturated(t) {
      forall b | CompareText(Uint, a, b) == Equal
        ensures b == a
      {
        CompareIsAntisymmetric(Uint, a, b);
        UnsaturatedTokensDetermine(a, b);
      }
    } else {
      var b := TwinOf(a);
      CompareIsAntisymmetric(Uint, a, b);
    }
  }
}
