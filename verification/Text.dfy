/** Machine integers. */
module Machine {
  const I64_MIN: int := -0x8000_0000_0000_0000
  const I64_MAX: int := 0x7FFF_FFFF_FFFF_FFFF

  predicate FitsI64(n: int) {
    I64_MIN <= n <= I64_MAX
  }

  /** Rust's `/`: truncating toward zero. */
  function TruncDiv(a: int, b: int): int
    requires b != 0
  {
    if b > 0 then (if a >= 0 then a / b else -((-a) / b))
    else if a >= 0 then -(a / -b)
    else (-a) / -b
  }
}

/** Character classes. */
module Chars {
  predicate IsDigit(c: char) {
    '0' <= c <= '9'
  }

  predicate IsAlpha(c: char) {
    'a' <= c <= 'z' || 'A' <= c <= 'Z'
  }

  predicate IsWordChar(c: char) {
    IsAlpha(c) || IsDigit(c) || c == '_'
  }

  /** Rust's `u8::is_ascii_whitespace`. */
  predicate IsAsciiSpace(c: char) {
    c in {' ', '\t', '\n', '\U{0C}', '\r'}
  }

  /** Rust's `char::is_whitespace`: the Unicode property White_Space. */
  predicate IsWhitespace(c: char) {
    '\t' <= c <= '\r' || c in {' ', '\U{85}', '\U{A0}', '\U{1680}'} || '\U{2000}' <= c <= '\U{200A}'
    || c in {'\U{2028}', '\U{2029}', '\U{202F}', '\U{205F}', '\U{3000}'}
  }

  predicate IsAscii(s: string) {
    forall c <- s :: c < '\U{80}'
  }

  function ToAsciiLower(c: char): char {
    if 'A' <= c <= 'Z' then (c as int + 32) as char else c
  }

  function AsciiLower(s: string): string {
    seq(|s|, i requires 0 <= i < |s| => ToAsciiLower(s[i]))
  }

  function TrimStart(s: string): string {
    if s != "" && IsWhitespace(s[0]) then TrimStart(s[1..]) else s
  }

  function TrimEnd(s: string): string {
    if s != "" && IsWhitespace(s[|s| - 1]) then TrimEnd(s[..|s| - 1]) else s
  }

  /** Rust's `str::trim`. */
  function Trim(s: string): string {
    TrimEnd(TrimStart(s))
  }

  lemma TrimIsIdentity(s: string)
    requires s != "" ==> !IsWhitespace(s[0]) && !IsWhitespace(s[|s| - 1])
    ensures Trim(s) == s
  {
  }

  /** Rust's `str::contains`. */
  predicate Contains(text: string, part: string) {
    part <= text || (text != "" && Contains(text[1..], part))
  }

  predicate IsBlank(s: string) {
    forall c <- s :: IsWhitespace(c)
  }

  datatype Option<+T> = None | Some(value: T)
}

/** Decimal notation. */
module Decimal {
  import opened Chars

  predicate AllDigits(s: string) {
    forall c <- s :: IsDigit(c)
  }

  /** How many digits a text begins with. */
  function DigitPrefix(s: string): (n: nat)
    ensures n <= |s| && AllDigits(s[..n]) && (n < |s| ==> !IsDigit(s[n]))
  {
    if s == "" || !IsDigit(s[0]) then 0
    else
      assert s[..1 + DigitPrefix(s[1..])] == [s[0]] + s[1..][..DigitPrefix(s[1..])];
      1 + DigitPrefix(s[1..])
  }

  lemma DigitPrefixAt(s: string, n: nat)
    requires n <= |s| && AllDigits(s[..n]) && (n < |s| ==> !IsDigit(s[n]))
    ensures DigitPrefix(s) == n
  {
  }

  function DigitChar(n: int): (c: char)
    requires 0 <= n <= 9
    ensures IsDigit(c) && DigitValue(c) == n
  {
    (n + 48) as char
  }

  function DigitValue(c: char): (n: nat)
    requires IsDigit(c)
    ensures n <= 9
  {
    c as int - 48
  }

  function Pow10(k: nat): (p: nat)
    ensures p >= 1
  {
    if k == 0 then 1 else 10 * Pow10(k - 1)
  }

  /** The number a digit string denotes. */
  function Value(s: string): nat
    requires AllDigits(s)
  {
    if s == "" then 0 else 10 * Value(s[..|s| - 1]) + DigitValue(s[|s| - 1])
  }

  /** The last `width` decimal digits of `n`, leading zeros included. */
  function Fixed(n: nat, width: nat): (s: string)
    ensures |s| == width && AllDigits(s)
  {
    if width == 0 then "" else Fixed(n / 10, width - 1) + [DigitChar(n % 10)]
  }

  /** The shortest decimal text, as `to_string` prints it. */
  function Shortest(n: nat): (s: string)
    ensures s != "" && AllDigits(s)
  {
    if n < 10 then [DigitChar(n)] else Shortest(n / 10) + [DigitChar(n % 10)]
  }

  function Zeros(k: nat): (s: string)
    ensures |s| == k && AllDigits(s)
  {
    seq(k, i => '0')
  }

  /** `format!("{:0width$}", n)`. */
  function Padded(n: nat, width: nat): (s: string)
    ensures AllDigits(s)
  {
    var t := Shortest(n);
    if |t| < width then Zeros(width - |t|) + t else t
  }

  /** A signed integer, as `i64::to_string` prints it. */
  function Signed(n: int): string {
    if n < 0 then "-" + Shortest(-n) else Shortest(n)
  }

  lemma {:induction false} ValueOfFixed(n: nat, width: nat)
    requires n < Pow10(width)
    ensures Value(Fixed(n, width)) == n
  {
    if width > 0 {
      ValueOfFixed(n / 10, width - 1);
    }
  }

  lemma {:induction false} FixedOfValue(s: string)
    requires AllDigits(s)
    ensures Fixed(Value(s), |s|) == s
    ensures Value(s) < Pow10(|s|)
  {
    if s != "" {
      FixedOfValue(s[..|s| - 1]);
    }
  }

  lemma {:induction false} ValueOfShortest(n: nat)
    ensures Value(Shortest(n)) == n
  {
    if n >= 10 {
      ValueOfShortest(n / 10);
    }
  }

  /** Zero padding prints exactly the `width` digits of a number that fits them. */
  lemma PaddedIsFixed(n: nat, width: nat)
    requires n < Pow10(width) && width > 0
    ensures Padded(n, width) == Fixed(n, width)
  {
  }

  /** A wider number is not cut. */
  lemma PaddedOfWide(n: nat, width: nat)
    requires n >= Pow10(width)
    ensures |Padded(n, width)| > width
  {
    ValueOfShortest(n);
    FixedOfValue(Shortest(n));
    if |Shortest(n)| <= width {
      Pow10Monotone(|Shortest(n)|, width);
    }
  }

  lemma {:induction false} Pow10Monotone(a: nat, b: nat)
    requires a <= b
    ensures Pow10(a) <= Pow10(b)
  {
    if a < b {
      Pow10Monotone(a, b - 1);
    }
  }
}

/** Quoted text in which the quote itself is written twice. */
module Quoting {
  import opened Chars

  /** `text.replace` of the quote by two. */
  function Doubled(text: string, quote: char): string {
    if text == "" then "" else (if text[0] == quote then [quote, quote] else [text[0]]) + Doubled(text[1..], quote)
  }

  /** What follows an opening quote: the text up to the closing quote, and what is left. */
  function ReadQuoted(s: string, quote: char): (r: Option<(string, string)>)
    ensures r.Some? ==> |r.value.1| < |s|
  {
    if s == "" then None
    else if s[0] != quote then
      match ReadQuoted(s[1..], quote)
      case None => None
      case Some((text, rest)) => Some(([s[0]] + text, rest))
    else if |s| > 1 && s[1] == quote then
      match ReadQuoted(s[2..], quote)
      case None => None
      case Some((text, rest)) => Some(([quote] + text, rest))
    else Some(("", s[1..]))
  }

  lemma {:induction false} QuotedReads(text: string, quote: char, rest: string)
    requires rest == "" || rest[0] != quote
    ensures ReadQuoted(Doubled(text, quote) + [quote] + rest, quote) == Some((text, rest))
  {
    var s := Doubled(text, quote) + [quote] + rest;
    if text == "" {
      assert s == [quote] + rest;
      assert s[1..] == rest;
    } else {
      QuotedReads(text[1..], quote, rest);
      if text[0] == quote {
        assert s[2..] == Doubled(text[1..], quote) + [quote] + rest;
      } else {
        assert s[0] == text[0] && s[1..] == Doubled(text[1..], quote) + [quote] + rest;
      }
      assert text == [text[0]] + text[1..];
    }
  }
}

/** Texts put together around a separator, and taken apart again. */
module Joining {
  function Join(texts: seq<string>, separator: string): string {
    if texts == [] then "" else if |texts| == 1 then texts[0] else texts[0] + separator + Join(texts[1..], separator)
  }

  lemma {:induction false} JoinAppend(texts: seq<string>, last: string, separator: string)
    ensures Join(texts + [last], separator) ==
            Join(texts, separator) + (if texts == [] then "" else separator) + last
  {
    if texts == [] {
      assert texts + [last] == [last];
    } else {
      assert (texts + [last])[1..] == texts[1..] + [last];
      JoinAppend(texts[1..], last, separator);
    }
  }

  /** The parts of a text between the occurrences of a character. */
  function Split(s: string, c: char): (parts: seq<string>)
    ensures parts != []
  {
    if s == "" then [""]
    else
      var parts := Split(s[1..], c);
      if s[0] == c then [""] + parts else [[s[0]] + parts[0]] + parts[1..]
  }

  lemma {:induction false} SplitFirst(text: string, c: char, rest: string)
    requires c !in text
    ensures Split(text, c) == [text]
    ensures Split(text + [c] + rest, c) == [text] + Split(rest, c)
  {
    if text == "" {
      assert text + [c] + rest == [c] + rest && ([c] + rest)[1..] == rest;
    } else {
      assert text == [text[0]] + text[1..] && text[0] in text && forall d <- text[1..] :: d in text;
      assert (text + [c] + rest)[1..] == text[1..] + [c] + rest;
      SplitFirst(text[1..], c, rest);
    }
  }

  /** Joined around a character that none of them has, texts come apart again. */
  lemma {:induction false} JoinSplits(texts: seq<string>, c: char)
    requires texts != [] && forall t <- texts :: c !in t
    ensures Split(Join(texts, [c]), c) == texts
    decreases |texts|
  {
    assert texts[0] in texts && forall t <- texts[1..] :: t in texts;
    if |texts| == 1 {
      SplitFirst(texts[0], c, "");
    } else {
      JoinSplits(texts[1..], c);
      SplitFirst(texts[0], c, Join(texts[1..], [c]));
      assert texts == [texts[0]] + texts[1..];
    }
  }
}
