/** Expressions of the structured query builder and of the lite shell, with the tokens between them. */
module SqlSyntax {
  import opened Chars

  datatype BinOp = Add | Sub | Mul | Div | Mod | Concat

  /** `ExprSpec`, without the forms the lite shell does not read. */
  datatype Spec =
    | NullSpec
    | IntegerSpec(n: int)
    | TextSpec(text: string)
    | Nested(inner: Spec)
    | Negate(inner: Spec)
    | Positive(inner: Spec)
    | Binary(left: Spec, op: BinOp, right: Spec)
    | Function(name: string, args: seq<Spec>)

  /** A real keeps its literal: its value is not part of the model. */
  datatype Value = Null | Int(n: int) | Real(literal: string) | Text(text: string)

  datatype Expr = Lit(value: Value) | Neg(inner: Expr) | Bin(op: BinOp, left: Expr, right: Expr) | Call(name: string, args: seq<Expr>)

  datatype Token =
    | IntToken(n: int)
    | RealToken(literal: string)
    | Str(text: string)
    | Ident(name: string)
    | Plus
    | Minus
    | Star
    | Slash
    | Percent
    | Bars
    | LParen
    | RParen
    | Comma
    | NullWord

  predicate IsWordStart(c: char) {
    IsAlpha(c) || c == '_'
  }
}

/** `render_expr` of `crates/redlinedb/src/machine.rs`. */
module Printer {
  import opened Chars
  import opened Quoting
  import opened Decimal
  import opened SqlSyntax

  /** `render_ident`. */
  function PrintIdent(name: string): string {
    if name != "" && forall c <- name :: IsWordChar(c) then name else "\"" + Doubled(name, '"') + "\""
  }

  /** `render_string_literal`. */
  function PrintText(text: string): string {
    "'" + Doubled(text, '\'') + "'"
  }

  function OpText(op: BinOp): string {
    match op
    case Add => "+"
    case Sub => "-"
    case Mul => "*"
    case Div => "/"
    case Mod => "%"
    case Concat => "||"
  }

  function Print(e: Spec): string {
    match e
    case NullSpec => "NULL"
    case IntegerSpec(n) => Signed(n)
    case TextSpec(text) => PrintText(text)
    case Nested(inner) => "(" + Print(inner) + ")"
    case Negate(inner) => "-(" + Print(inner) + ")"
    case Positive(inner) => "+(" + Print(inner) + ")"
    case Binary(left, op, right) => "(" + Print(left) + " " + OpText(op) + " " + Print(right) + ")"
    case Function(name, args) => PrintIdent(name) + "(" + PrintArgs(args) + ")"
  }

  function PrintArgs(args: seq<Spec>): string {
    if args == [] then ""
    else if |args| == 1 then Print(args[0])
    else Print(args[0]) + ", " + PrintArgs(args[1..])
  }

  lemma {:induction false} PrintArgsAppend(args: seq<Spec>, last: Spec)
    ensures PrintArgs(args + [last]) == PrintArgs(args) + (if args == [] then "" else ", ") + Print(last)
  {
    hide Print;
    if args != [] {
      assert (args + [last])[1..] == args[1..] + [last];
      PrintArgsAppend(args[1..], last);
    }
  }

  /** `render_expr`, with its loop over the arguments of a call. */
  method Render(e: Spec) returns (text: string)
    ensures text == Print(e)
    decreases e
  {
    match e {
      case Nested(inner) =>
        var t := Render(inner);
        return "(" + t + ")";
      case Negate(inner) =>
        var t := Render(inner);
        return "-(" + t + ")";
      case Positive(inner) =>
        var t := Render(inner);
        return "+(" + t + ")";
      case Binary(left, op, right) =>
        var l := Render(left);
        var r := Render(right);
        return "(" + l + " " + OpText(op) + " " + r + ")";
      case Function(name, args) =>
        var list := RenderArgs(args);
        return PrintIdent(name) + "(" + list + ")";
      case _ => return Print(e);
    }
  }

  method RenderArgs(args: seq<Spec>) returns (text: string)
    ensures text == PrintArgs(args)
    decreases args
  {
    text := "";
    for i := 0 to |args|
      invariant text == PrintArgs(args[..i])
    {
      if i > 0 {
        text := text + ", ";
      }
      var arg := Render(args[i]);
      text := text + arg;
      PrintArgsAppend(args[..i], args[i]);
      assert args[..i + 1] == args[..i] + [args[i]];
    }
    assert args[..|args|] == args;
  }
}

/** `tokenize` of `crates/redlinedb-lite/src/shellzero.rs`, on bytes read as characters below 256. */
module Lexer {
  import opened Machine
  import opened Chars
  import opened Quoting
  import opened Decimal
  import opened SqlSyntax

  function Prepend(ts: seq<Token>, r: Option<seq<Token>>): Option<seq<Token>> {
    if r.Some? then Some(ts + r.value) else None
  }

  function Punctuation(c: char): Option<Token> {
    match c
    case '+' => Some(Plus)
    case '-' => Some(Minus)
    case '*' => Some(Star)
    case '/' => Some(Slash)
    case '%' => Some(Percent)
    case '(' => Some(LParen)
    case ')' => Some(RParen)
    case ',' => Some(Comma)
    case _ => None
  }

  /** The length of a number: digits and, unless one was seen, one dot. */
  function NumberLength(s: string, sawDot: bool): (n: nat)
    ensures n <= |s|
    ensures s != "" && (IsDigit(s[0]) || (s[0] == '.' && !sawDot)) ==> n > 0
  {
    if s == "" then 0
    else if IsDigit(s[0]) then 1 + NumberLength(s[1..], sawDot)
    else if s[0] == '.' && !sawDot then 1 + NumberLength(s[1..], true)
    else 0
  }

  function WordLength(s: string): (n: nat)
    ensures n <= |s|
    ensures s != "" && IsWordChar(s[0]) ==> n > 0
  {
    if s == "" || !IsWordChar(s[0]) then 0 else 1 + WordLength(s[1..])
  }

  /** A literal with a dot is real; one without must fit `i64`. */
  function NumberToken(literal: string): Option<Token> {
    if !exists c <- literal :: IsDigit(c) then None
    else if '.' in literal then Some(RealToken(literal))
    else if AllDigits(literal) && Decimal.Value(literal) <= I64_MAX then Some(IntToken(Decimal.Value(literal)))
    else None
  }

  function WordToken(word: string): Token {
    if AsciiLower(word) == "null" then NullWord else Ident(word)
  }

  function Lex(s: string): Option<seq<Token>>
    decreases |s|
  {
    if s == "" then Some([])
    else if IsAsciiSpace(s[0]) then Lex(s[1..])
    else if Punctuation(s[0]).Some? then Prepend([Punctuation(s[0]).value], Lex(s[1..]))
    else if s[0] == '|' then
      if |s| > 1 && s[1] == '|' then Prepend([Bars], Lex(s[2..])) else None
    else if s[0] == '\'' then
      match ReadQuoted(s[1..], '\'')
      case None => None
      case Some((text, rest)) => Prepend([Str(text)], Lex(rest))
    else if IsDigit(s[0]) || s[0] == '.' then
      var n := NumberLength(s, false);
      var t := NumberToken(s[..n]);
      if t.Some? then Prepend([t.value], Lex(s[n..])) else None
    else if IsWordStart(s[0]) then
      var n := WordLength(s);
      Prepend([WordToken(s[..n])], Lex(s[n..]))
    else None
  }

  // ---- The loops -----------------------------------------------------------------------------

  function WithPrefix(text: string, r: Option<(string, string)>): Option<(string, string)> {
    if r.Some? then Some((text + r.value.0, r.value.1)) else None
  }

  lemma WithPrefixTwice(a: string, b: string, r: Option<(string, string)>)
    ensures WithPrefix(a, WithPrefix(b, r)) == WithPrefix(a + b, r)
    ensures WithPrefix("", r) == r
  {
    if r.Some? {
      assert a + (b + r.value.0) == (a + b) + r.value.0;
      assert "" + r.value.0 == r.value.0;
    }
  }

  lemma ReadStringStep(s: string)
    requires s != ""
    ensures s[0] != '\'' ==> ReadQuoted(s, '\'') == WithPrefix([s[0]], ReadQuoted(s[1..], '\''))
    ensures s[0] == '\'' && |s| > 1 && s[1] == '\'' ==> ReadQuoted(s, '\'') == WithPrefix(['\''], ReadQuoted(s[2..], '\''))
    ensures s[0] == '\'' && !(|s| > 1 && s[1] == '\'') ==> ReadQuoted(s, '\'') == Some(("", s[1..]))
  {
  }

  /** The quoted-text loop, from just after the opening quote. */
  method ScanString(input: string, start: nat) returns (found: bool, text: string, next: nat)
    requires start <= |input|
    ensures next <= |input|
    ensures ReadQuoted(input[start..], '\'') == if found then Some((text, input[next..])) else None
  {
    hide ReadQuoted;
    text := "";
    var i := start;
    WithPrefixTwice("", "", ReadQuoted(input[start..], '\''));
    while i < |input|
      invariant start <= i <= |input|
      invariant ReadQuoted(input[start..], '\'') == WithPrefix(text, ReadQuoted(input[i..], '\''))
    {
      ghost var s := input[i..];
      ReadStringStep(s);
      if input[i] == '\'' {
        if i + 1 < |input| && input[i + 1] == '\'' {
          assert s[2..] == input[i + 2..];
          WithPrefixTwice(text, ['\''], ReadQuoted(input[i + 2..], '\''));
          text := text + ['\''];
          i := i + 2;
        } else {
          assert s[1..] == input[i + 1..];
          assert text + "" == text;
          return true, text, i + 1;
        }
      } else {
        assert s[1..] == input[i + 1..];
        WithPrefixTwice(text, [input[i]], ReadQuoted(input[i + 1..], '\''));
        text := text + [input[i]];
        i := i + 1;
      }
    }
    NothingToRead();
    assert input[i..] == "";
    return false, text, i;
  }

  lemma NothingToRead()
    ensures ReadQuoted("", '\'') == None
  {
  }

  /** The number loop. */
  method ScanNumber(input: string, start: nat) returns (next: nat, sawDot: bool, sawDigit: bool)
    requires start < |input| && (IsDigit(input[start]) || input[start] == '.')
    ensures start < next <= |input| && next == start + NumberLength(input[start..], false)
    ensures sawDot == ('.' in input[start..next]) && sawDigit == exists c <- input[start..next] :: IsDigit(c)
    ensures forall c <- input[start..next] :: IsDigit(c) || c == '.'
  {
    sawDot, sawDigit := input[start] == '.', IsDigit(input[start]);
    next := start + 1;
    assert input[start..][1..] == input[next..];
    while next < |input|
      invariant start < next <= |input|
      invariant NumberLength(input[start..], false) == next - start + NumberLength(input[next..], sawDot)
      invariant sawDot == ('.' in input[start..next]) && sawDigit == exists c <- input[start..next] :: IsDigit(c)
      invariant forall c <- input[start..next] :: IsDigit(c) || c == '.'
    {
      var d := input[next];
      assert input[next..][1..] == input[next + 1..];
      assert input[start..next + 1] == input[start..next] + [d];
      if IsDigit(d) {
        sawDigit := true;
      } else if d == '.' && !sawDot {
        sawDot := true;
      } else {
        break;
      }
      next := next + 1;
    }
  }

  method ScanWord(input: string, start: nat) returns (next: nat)
    requires start <= |input|
    ensures start <= next <= |input| && next == start + WordLength(input[start..])
  {
    next := start;
    while next < |input| && IsWordChar(input[next])
      invariant start <= next <= |input|
      invariant WordLength(input[start..]) == next - start + WordLength(input[next..])
    {
      assert input[next..][1..] == input[next + 1..];
      next := next + 1;
    }
  }

  lemma PrependTwice(a: seq<Token>, b: seq<Token>, r: Option<seq<Token>>)
    ensures Prepend(a, Prepend(b, r)) == Prepend(a + b, r) && Prepend([], r) == r
  {
    if r.Some? {
      assert a + (b + r.value) == (a + b) + r.value;
      assert [] + r.value == r.value;
    }
  }

  /** One token, or None for a blank, and where the next begins. */
  lemma OneStep(s: string, t: Option<Token>, n: nat)
    requires 0 < n <= |s|
    requires t.None? ==> n == 1 && IsAsciiSpace(s[0])
    requires t.Some? ==> Lex(s) == Prepend([t.value], Lex(s[n..]))
    ensures forall before: seq<Token> :: Prepend(before, Lex(s)) ==
              Prepend(before + (if t.Some? then [t.value] else []), Lex(s[n..]))
  {
    forall before: seq<Token>
      ensures Prepend(before, Lex(s)) == Prepend(before + (if t.Some? then [t.value] else []), Lex(s[n..]))
    {
      if t.Some? {
        PrependTwice(before, [t.value], Lex(s[n..]));
      } else {
        assert before + [] == before;
      }
    }
  }

  /** The main loop. */
  method Tokenize(input: string) returns (r: Option<seq<Token>>)
    ensures r == Lex(input)
  {
    hide Lex, Punctuation, NumberToken, WordToken, IsAsciiSpace;
    var tokens: seq<Token> := [];
    var i := 0;
    assert input[0..] == input;
    PrependTwice([], [], Lex(input));
    while i < |input|
      invariant 0 <= i <= |input|
      invariant Lex(input) == Prepend(tokens, Lex(input[i..]))
    {
      var token, next := ScanToken(input, i);
      if token.None? {
        return None;
      }
      assert input[i..][next - i..] == input[next..];
      OneStep(input[i..], token.value, next - i);
      tokens := tokens + if token.value.Some? then [token.value.value] else [];
      i := next;
    }
    EndOfInput();
    assert input[i..] == "" && tokens + [] == tokens;
    return Some(tokens);
  }

  lemma EndOfInput()
    ensures Lex("") == Some([])
  {
  }

  lemma LexPunctuation(s: string)
    requires s != "" && !IsAsciiSpace(s[0]) && Punctuation(s[0]).Some?
    ensures Lex(s) == Prepend([Punctuation(s[0]).value], Lex(s[1..]))
  {
  }

  lemma LexBars(s: string)
    requires s != "" && s[0] == '|'
    ensures Lex(s) == if |s| > 1 && s[1] == '|' then Prepend([Bars], Lex(s[2..])) else None
  {
    hide NumberToken, WordToken, NumberLength, WordLength, ReadQuoted;
  }

  lemma LexString(s: string)
    requires s != "" && s[0] == '\''
    ensures var r := ReadQuoted(s[1..], '\'');
            Lex(s) == if r.None? then None else Prepend([Str(r.value.0)], Lex(r.value.1))
  {
    hide NumberToken, WordToken, NumberLength, WordLength, ReadQuoted;
  }

  lemma LexNumber(s: string)
    requires s != "" && (IsDigit(s[0]) || s[0] == '.')
    ensures var n := NumberLength(s, false);
            var t := NumberToken(s[..n]);
            n > 0 && Lex(s) == if t.Some? then Prepend([t.value], Lex(s[n..])) else None
  {
    hide NumberToken, WordToken, NumberLength, WordLength, ReadQuoted;
  }

  lemma LexWord(s: string)
    requires s != "" && IsWordStart(s[0])
    ensures var n := WordLength(s); n > 0 && Lex(s) == Prepend([WordToken(s[..n])], Lex(s[n..]))
  {
    hide NumberToken, WordToken, NumberLength, WordLength, ReadQuoted;
  }

  lemma LexOther(s: string)
    requires s != "" && !IsAsciiSpace(s[0]) && Punctuation(s[0]).None? && !IsWordStart(s[0])
    requires s[0] !in {'|', '\'', '.'} && !IsDigit(s[0])
    ensures Lex(s) == None
  {
  }

  /** The body of the loop: None when the text cannot be read, Some(None) for a blank. */
  method ScanToken(input: string, i: nat) returns (token: Option<Option<Token>>, next: nat)
    requires i < |input|
    ensures token.None? ==> Lex(input[i..]) == None
    ensures token.Some? ==> i < next <= |input|
    ensures token == Some(None) ==> next == i + 1 && IsAsciiSpace(input[i])
    ensures token.Some? && token.value.Some? ==>
              Lex(input[i..]) == Prepend([token.value.value], Lex(input[i..][next - i..]))
  {
    hide Lex, ReadQuoted, NumberLength, NumberToken, WordLength, WordToken, IsAsciiSpace, Punctuation, Prepend;
    var c := input[i];
    ghost var s := input[i..];
    next := i + 1;
    if IsAsciiSpace(c) {
      return Some(None), next;
    }
    var p := Punctuation(c);
    if p.Some? {
      LexPunctuation(s);
      return Some(p), next;
    }
    if c == '|' {
      LexBars(s);
      if i + 1 < |input| && input[i + 1] == '|' {
        return Some(Some(Bars)), i + 2;
      }
      return None, next;
    }
    if c == '\'' {
      LexString(s);
      token, next := ScanQuoted(input, i);
      return;
    }
    if IsDigit(c) || c == '.' {
      LexNumber(s);
      token, next := ScanLiteral(input, i);
      return;
    }
    if IsWordStart(c) {
      next := ScanWord(input, i);
      LexWord(s);
      assert s[..next - i] == input[i..next];
      return Some(Some(WordToken(input[i..next]))), next;
    }
    LexOther(s);
    return None, next;
  }

  method ScanQuoted(input: string, i: nat) returns (token: Option<Option<Token>>, next: nat)
    requires i < |input|
    ensures token.None? <==> ReadQuoted(input[i..][1..], '\'') == None
    ensures token.Some? ==> i < next <= |input|
    ensures token.Some? ==>
              ReadQuoted(input[i..][1..], '\'').Some? &&
              var r := ReadQuoted(input[i..][1..], '\'').value;
              token.value == Some(Str(r.0)) && input[i..][next - i..] == r.1
  {
    hide ReadQuoted;
    var found, text;
    found, text, next := ScanString(input, i + 1);
    assert input[i..][1..] == input[i + 1..];
    assert found ==> |input[next..]| < |input[i + 1..]|;
    assert found ==> input[i..][next - i..] == input[next..];
    return if found then Some(Some(Str(text))) else None, next;
  }

  method ScanLiteral(input: string, i: nat) returns (token: Option<Option<Token>>, next: nat)
    requires i < |input| && (IsDigit(input[i]) || input[i] == '.')
    ensures i < next <= |input| && next == i + NumberLength(input[i..], false)
    ensures var t := NumberToken(input[i..][..next - i]); token == if t.Some? then Some(t) else None
  {
    hide NumberLength, Decimal.Value;
    var sawDot, sawDigit;
    next, sawDot, sawDigit := ScanNumber(input, i);
    var slice := input[i..next];
    assert input[i..][..next - i] == slice;
    if !sawDigit {
      return None, next;
    }
    if sawDot {
      return Some(Some(RealToken(slice))), next;
    }
    return if Decimal.Value(slice) <= I64_MAX then Some(Some(IntToken(Decimal.Value(slice)))) else None, next;
  }
}
