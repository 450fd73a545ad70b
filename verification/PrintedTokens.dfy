/** The tokens of printed expressions. */
module PrintedTokens {
  import opened Machine
  import opened Chars
  import opened Quoting
  import opened Decimal
  import opened SqlSyntax
  import opened Printer
  import opened Lexer

  /** Token lists one after the other; None when either part cannot be read. */
  function Then(a: Option<seq<Token>>, b: Option<seq<Token>>): Option<seq<Token>> {
    if a.Some? && b.Some? then Some(a.value + b.value) else None
  }

  function OpToken(op: BinOp): Token {
    match op
    case Add => Plus
    case Sub => Minus
    case Mul => Star
    case Div => Slash
    case Mod => Percent
    case Concat => Bars
  }

  /** The magnitude must fit: the sign is read as an operator. */
  function NumberTokens(n: int): Option<seq<Token>> {
    if n > I64_MAX || -n > I64_MAX then None
    else if n < 0 then Some([Minus, IntToken(-n)])
    else Some([IntToken(n)])
  }

  function InParens(ts: Option<seq<Token>>): Option<seq<Token>> {
    Then(Some([LParen]), Then(ts, Some([RParen])))
  }

  function TokensOf(e: Spec): Option<seq<Token>> {
    match e
    case NullSpec => Some([NullWord])
    case IntegerSpec(n) => NumberTokens(n)
    case TextSpec(text) => Some([Str(text)])
    case Nested(inner) => InParens(TokensOf(inner))
    case Negate(inner) => Then(Some([Minus]), InParens(TokensOf(inner)))
    case Positive(inner) => Then(Some([Plus]), InParens(TokensOf(inner)))
    case Binary(left, op, right) =>
      InParens(Then(TokensOf(left), Then(Some([OpToken(op)]), TokensOf(right))))
    case Function(name, args) => Then(TokensOfName(name), InParens(TokensOfArgs(args)))
  }

  /** A quoted name cannot be read; one that begins with digits falls into a number and a word. */
  function TokensOfName(name: string): Option<seq<Token>> {
    if name == "" || exists c <- name :: !IsWordChar(c) then None
    else if !IsDigit(name[0]) then Some([WordToken(name)])
    else
      var n := NumberLength(name, false);
      var t := NumberToken(name[..n]);
      Then(if t.Some? then Some([t.value]) else None, Some(if n < |name| then [WordToken(name[n..])] else []))
  }

  function TokensOfArgs(args: seq<Spec>): Option<seq<Token>> {
    if args == [] then Some([])
    else if |args| == 1 then TokensOf(args[0])
    else Then(TokensOf(args[0]), Then(Some([Comma]), TokensOfArgs(args[1..])))
  }

  /** Function names the lexer reads as one identifier; the others are printed quoted or fall apart. */
  predicate IsIdentifier(name: string) {
    name != "" && IsWordStart(name[0]) && (forall c <- name :: IsWordChar(c)) && AsciiLower(name) != "null"
  }

  predicate Named(e: Spec) {
    match e
    case NullSpec => true
    case IntegerSpec(_) => true
    case TextSpec(_) => true
    case Nested(inner) => Named(inner)
    case Negate(inner) => Named(inner)
    case Positive(inner) => Named(inner)
    case Binary(left, _, right) => Named(left) && Named(right)
    case Function(name, args) => IsIdentifier(name) && forall i :: 0 <= i < |args| ==> Named(args[i])
  }

  // ---- Putting texts side by side ------------------------------------------------------------

  /** Read before `rest`, the text gives these tokens. */
  ghost predicate Lexes(text: string, ts: Option<seq<Token>>, rest: string) {
    Lex(text + rest) == Then(ts, Lex(rest))
  }

  lemma ThenIsAssociative(a: Option<seq<Token>>, b: Option<seq<Token>>, c: Option<seq<Token>>)
    ensures Then(a, Then(b, c)) == Then(Then(a, b), c)
  {
    if a.Some? && b.Some? && c.Some? {
      assert a.value + (b.value + c.value) == (a.value + b.value) + c.value;
    }
  }

  lemma LexesBoth(a: string, x: Option<seq<Token>>, b: string, y: Option<seq<Token>>, rest: string)
    requires Lexes(a, x, b + rest) && Lexes(b, y, rest)
    ensures Lexes(a + b, Then(x, y), rest)
  {
    hide Lex;
    assert (a + b) + rest == a + (b + rest);
    ThenIsAssociative(x, y, Lex(rest));
  }

  /** What may follow a printed expression. */
  predicate Ends(rest: string) {
    rest == "" || rest[0] in {' ', ')', ','}
  }

  lemma SpaceLexes(rest: string)
    ensures Lexes(" ", Some([]), rest)
  {
    assert (" " + rest)[1..] == rest;
    assert Lex(rest).Some? ==> [] + Lex(rest).value == Lex(rest).value;
  }

  lemma PunctuationLexes(c: char, rest: string)
    requires c in {'+', '-', '*', '/', '%', '(', ')', ','}
    ensures Lexes([c], Some([Punctuation(c).value]), rest)
  {
  }

  lemma OpLexes(op: BinOp, rest: string)
    ensures Lexes(OpText(op), Some([OpToken(op)]), rest)
  {
  }

  lemma TextLexes(text: string, rest: string)
    requires Ends(rest)
    ensures Lexes(PrintText(text), Some([Str(text)]), rest)
  {
    hide ReadQuoted, Lex;
    var s := PrintText(text) + rest;
    assert s[1..] == Doubled(text, '\'') + "'" + rest;
    QuotedReads(text, '\'', rest);
    LexString(s);
  }

  lemma {:induction false} NumberEnds(digits: string, rest: string)
    requires AllDigits(digits) && (rest == "" || !(IsDigit(rest[0]) || rest[0] == '.'))
    ensures NumberLength(digits + rest, false) == |digits|
  {
    if digits == "" {
      assert digits + rest == rest;
    } else {
      assert (digits + rest)[1..] == digits[1..] + rest;
      NumberEnds(digits[1..], rest);
    }
  }

  lemma DigitsLex(n: nat, rest: string)
    requires Ends(rest)
    ensures Lexes(Shortest(n), if n <= I64_MAX then Some([IntToken(n)]) else None, rest)
  {
    hide Lex, NumberLength, Shortest, Decimal.Value;
    var d := Shortest(n);
    var s := d + rest;
    assert d[0] in d && s[0] == d[0];
    NumberEnds(d, rest);
    ValueOfShortest(n);
    LexNumber(s);
    assert s[..|d|] == d && s[|d|..] == rest;
  }

  lemma IntegerLexes(n: int, rest: string)
    requires Ends(rest)
    ensures Lexes(Signed(n), NumberTokens(n), rest)
  {
    hide Lex, Shortest;
    if n < 0 {
      PunctuationLexes('-', Shortest(-n) + rest);
      DigitsLex(-n, rest);
      LexesBoth("-", Some([Minus]), Shortest(-n), if -n <= I64_MAX then Some([IntToken(-n)]) else None, rest);
      assert [Minus] + [IntToken(-n)] == [Minus, IntToken(-n)];
    } else {
      DigitsLex(n, rest);
    }
  }

  lemma {:induction false} WordEnds(word: string, rest: string)
    requires (forall i :: 0 <= i < |word| ==> IsWordChar(word[i])) && (rest == "" || !IsWordChar(rest[0]))
    ensures WordLength(word + rest) == |word|
  {
    if word == "" {
      assert word + rest == rest;
    } else {
      assert (word + rest)[1..] == word[1..] + rest;
      WordEnds(word[1..], rest);
    }
  }

  lemma WordLexes(word: string, rest: string)
    requires word != "" && IsWordStart(word[0]) && (forall c <- word :: IsWordChar(c))
    requires rest == "" || !IsWordChar(rest[0])
    ensures Lexes(word, Some([WordToken(word)]), rest)
  {
    hide Lex, WordLength, WordToken;
    var s := word + rest;
    WordEnds(word, rest);
    LexWord(s);
    assert s[..|word|] == word && s[|word|..] == rest;
  }

  lemma NullLexes(rest: string)
    requires Ends(rest)
    ensures Lexes("NULL", Some([NullWord]), rest)
  {
    hide Lex;
    WordLexes("NULL", rest);
    assert AsciiLower("NULL") == "null";
  }

  /** A number that runs into a word ends before it. */
  lemma {:induction false} NumberBeforeWord(name: string, rest: string)
    requires (forall i :: 0 <= i < |name| ==> IsWordChar(name[i])) && rest != "" && rest[0] == '('
    ensures var n := NumberLength(name, false);
            && NumberLength(name + rest, false) == n && AllDigits(name[..n])
            && (n < |name| ==> IsWordStart(name[n]))
  {
    if name == "" {
      assert name + rest == rest;
    } else if IsDigit(name[0]) {
      assert (name + rest)[1..] == name[1..] + rest;
      NumberBeforeWord(name[1..], rest);
      var n := NumberLength(name, false);
      assert name[..n] == [name[0]] + name[1..][..n - 1];
    }
  }

  lemma NameLexes(name: string, rest: string)
    requires rest != "" && rest[0] == '('
    ensures Lexes(PrintIdent(name), TokensOfName(name), rest)
  {
    hide Lex, Lexes, NumberLength, NumberToken, WordToken, WordLength, Doubled;
    if name == "" || exists c <- name :: !IsWordChar(c) {
      QuotedNameFails(name, rest);
    } else if !IsDigit(name[0]) {
      assert name[0] in name;
      WordLexes(name, rest);
    } else {
      NumberedNameLexes(name, rest);
    }
  }

  lemma QuotedNameFails(name: string, rest: string)
    requires name == "" || exists c <- name :: !IsWordChar(c)
    ensures Lexes(PrintIdent(name), None, rest)
  {
    hide Lex;
    var s := PrintIdent(name) + rest;
    assert s[0] == '"';
    LexOther(s);
  }

  lemma NumberedNameLexes(name: string, rest: string)
    requires name != "" && IsDigit(name[0]) && (forall c <- name :: IsWordChar(c)) && rest != "" && rest[0] == '('
    ensures Lexes(name, TokensOfName(name), rest)
  {
    hide Lex, NumberLength, NumberToken, WordToken, WordLength;
    var n := NumberLength(name, false);
    var d, w := name[..n], name[n..];
    var s := name + rest;
    NumberBeforeWord(name, rest);
    LexNumber(s);
    assert s[..n] == d && s[n..] == w + rest;
    if w != "" {
      assert forall c <- w :: c in name;
      WordLexes(w, rest);
    } else {
      assert w + rest == rest;
      ThenOfNothing(Lex(rest));
    }
    var t := NumberToken(d);
    ThenIsAssociative(if t.Some? then Some([t.value]) else None, Some(if n < |name| then [WordToken(w)] else []), Lex(rest));
  }

  // ---- Printed expressions -------------------------------------------------------------------

  lemma ParensLex(text: string, ts: Option<seq<Token>>, rest: string)
    requires Lexes(text, ts, ")" + rest)
    ensures Lexes("(" + text + ")", InParens(ts), rest)
  {
    hide Lex, Lexes, Then;
    PunctuationLexes(')', rest);
    LexesBoth(text, ts, ")", Some([RParen]), rest);
    PunctuationLexes('(', text + ")" + rest);
    LexesBoth("(", Some([LParen]), text + ")", Then(ts, Some([RParen])), rest);
    assert "(" + (text + ")") == "(" + text + ")";
  }

  lemma SignedParensLex(sign: char, text: string, ts: Option<seq<Token>>, rest: string)
    requires sign in {'+', '-'} && Lexes(text, ts, ")" + rest)
    ensures Lexes([sign] + "(" + text + ")", Then(Some([Punctuation(sign).value]), InParens(ts)), rest)
  {
    hide Lex, Lexes, Then, InParens;
    var t := "(" + text + ")";
    ParensLex(text, ts, rest);
    PunctuationLexes(sign, t + rest);
    LexesBoth([sign], Some([Punctuation(sign).value]), t, InParens(ts), rest);
    assert [sign] + t == [sign] + "(" + text + ")";
  }

  lemma InfixLexes(l: string, x: Option<seq<Token>>, op: BinOp, r: string, y: Option<seq<Token>>, rest: string)
    requires Lexes(l, x, " " + OpText(op) + " " + r + rest) && Lexes(r, y, rest)
    ensures Lexes(l + " " + OpText(op) + " " + r, Then(x, Then(Some([OpToken(op)]), y)), rest)
  {
    hide Lex, Lexes, Then;
    var o := OpText(op);
    SpaceLexes(r + rest);
    LexesBoth(" ", Some([]), r, y, rest);
    OpLexes(op, " " + r + rest);
    LexesBoth(o, Some([OpToken(op)]), " " + r, Then(Some([]), y), rest);
    SpaceLexes(o + (" " + r) + rest);
    LexesBoth(" ", Some([]), o + (" " + r), Then(Some([OpToken(op)]), Then(Some([]), y)), rest);
    var tail := " " + (o + (" " + r));
    assert tail + rest == " " + o + " " + r + rest;
    LexesBoth(l, x, tail, Then(Some([]), Then(Some([OpToken(op)]), Then(Some([]), y))), rest);
    assert l + tail == l + " " + o + " " + r;
    ThenOfNothing(y);
    ThenOfNothing(Then(Some([OpToken(op)]), y));
  }

  lemma ThenOfNothing(y: Option<seq<Token>>)
    ensures Then(Some([]), y) == y
  {
    assert y.Some? ==> [] + y.value == y.value;
  }

  lemma ListLexes(first: string, x: Option<seq<Token>>, more: string, y: Option<seq<Token>>, rest: string)
    requires Lexes(first, x, ", " + more + rest) && Lexes(more, y, rest)
    ensures Lexes(first + ", " + more, Then(x, Then(Some([Comma]), y)), rest)
  {
    hide Lex, Lexes, Then;
    SpaceLexes(more + rest);
    LexesBoth(" ", Some([]), more, y, rest);
    PunctuationLexes(',', " " + more + rest);
    LexesBoth(",", Some([Comma]), " " + more, Then(Some([]), y), rest);
    var tail := "," + (" " + more);
    assert tail + rest == ", " + more + rest;
    LexesBoth(first, x, tail, Then(Some([Comma]), Then(Some([]), y)), rest);
    assert first + tail == first + ", " + more;
    ThenOfNothing(y);
  }

  lemma SignLexes(e: Spec, rest: string)
    requires (e.Nested? || e.Negate? || e.Positive?) && Lexes(Print(e.inner), TokensOf(e.inner), ")" + rest)
    ensures Lexes(Print(e), TokensOf(e), rest)
  {
    hide Lex, Lexes, Then, InParens;
    if e.Nested? {
      ParensLex(Print(e.inner), TokensOf(e.inner), rest);
    } else {
      var sign := if e.Negate? then '-' else '+';
      SignedParensLex(sign, Print(e.inner), TokensOf(e.inner), rest);
      assert Print(e) == [sign] + "(" + Print(e.inner) + ")";
    }
  }

  lemma BinaryLexes(left: Spec, op: BinOp, right: Spec, rest: string)
    requires Lexes(Print(left), TokensOf(left), " " + OpText(op) + " " + Print(right) + (")" + rest))
    requires Lexes(Print(right), TokensOf(right), ")" + rest)
    ensures Lexes(Print(Binary(left, op, right)), TokensOf(Binary(left, op, right)), rest)
  {
    hide Lex, Lexes, Then, InParens;
    var l, x, r, y := Print(left), TokensOf(left), Print(right), TokensOf(right);
    InfixLexes(l, x, op, r, y, ")" + rest);
    ParensLex(l + " " + OpText(op) + " " + r, Then(x, Then(Some([OpToken(op)]), y)), rest);
    assert Print(Binary(left, op, right)) == "(" + (l + " " + OpText(op) + " " + r) + ")";
  }

  lemma FunctionLexes(name: string, args: seq<Spec>, rest: string)
    requires Lexes(PrintArgs(args), TokensOfArgs(args), ")" + rest)
    ensures Lexes(Print(Function(name, args)), TokensOf(Function(name, args)), rest)
  {
    hide Lex, Lexes, Then, InParens, PrintIdent, TokensOfName;
    var t := "(" + PrintArgs(args) + ")";
    ParensLex(PrintArgs(args), TokensOfArgs(args), rest);
    NameLexes(name, t + rest);
    LexesBoth(PrintIdent(name), TokensOfName(name), t, InParens(TokensOfArgs(args)), rest);
    assert Print(Function(name, args)) == PrintIdent(name) + t;
  }

  lemma LeafLexes(e: Spec, rest: string)
    requires (e.NullSpec? || e.IntegerSpec? || e.TextSpec?) && Ends(rest)
    ensures Lexes(Print(e), TokensOf(e), rest)
  {
    hide Lex, Lexes, NumberTokens;
    match e {
      case NullSpec => NullLexes(rest);
      case IntegerSpec(n) => IntegerLexes(n, rest);
      case TextSpec(text) => TextLexes(text, rest);
    }
  }

  /** A printed expression lexes to its tokens, or not at all if a number or a name cannot be read. */
  lemma {:induction false} PrintedLexes(e: Spec, rest: string)
    requires Ends(rest)
    ensures Lexes(Print(e), TokensOf(e), rest)
    decreases e
  {
    hide Lexes, Print, TokensOf;
    match e {
      case Nested(inner) =>
        PrintedLexes(inner, ")" + rest);
        SignLexes(e, rest);
      case Negate(inner) =>
        PrintedLexes(inner, ")" + rest);
        SignLexes(e, rest);
      case Positive(inner) =>
        PrintedLexes(inner, ")" + rest);
        SignLexes(e, rest);
      case Binary(left, op, right) =>
        PrintedLexes(left, " " + OpText(op) + " " + Print(right) + (")" + rest));
        PrintedLexes(right, ")" + rest);
        BinaryLexes(left, op, right, rest);
      case Function(name, args) =>
        PrintedArgsLex(args, ")" + rest);
        FunctionLexes(name, args, rest);
      case _ => LeafLexes(e, rest);
    }
  }

  lemma {:induction false} PrintedArgsLex(args: seq<Spec>, rest: string)
    requires Ends(rest)
    ensures Lexes(PrintArgs(args), TokensOfArgs(args), rest)
    decreases args
  {
    hide Lex, Then;
    if args == [] {
      assert PrintArgs(args) + rest == rest;
      ThenOfNothing(Lex(rest));
    } else if |args| == 1 {
      PrintedLexes(args[0], rest);
    } else {
      PrintedLexes(args[0], ", " + PrintArgs(args[1..]) + rest);
      PrintedArgsLex(args[1..], rest);
      ListLexes(Print(args[0]), TokensOf(args[0]), PrintArgs(args[1..]), TokensOfArgs(args[1..]), rest);
    }
  }
}
