/** Expressions written with no more parentheses than precedence and left association need. */
module SqlPrecedence {
  import opened Machine
  import opened Chars
  import opened Quoting
  import opened Decimal
  import opened SqlSyntax
  import opened Printer
  import opened Lexer
  import opened SqlParser
  import opened PrintedTokens
  import opened SqlRoundTrip

  /** How loosely an operator holds its operands. */
  function Looseness(op: BinOp): nat {
    match op
    case Mul => 1
    case Div => 1
    case Mod => 1
    case Add => 2
    case Sub => 2
    case Concat => 3
  }

  function Leaf(value: Value): Token {
    match value
    case Null => NullWord
    case Int(n) => IntToken(n)
    case Real(literal) => RealToken(literal)
    case Text(text) => Str(text)
  }

  /**
   The tokens of a tree where operators up to the looseness `room` may stand bare. The left operand
   may hold operators as loose as the one between, the right operand only tighter ones.
   */
  function Sparse(e: Expr, room: nat): seq<Token> {
    match e
    case Lit(value) => [Leaf(value)]
    case Neg(inner) => [Minus] + Sparse(inner, 0)
    case Bin(op, left, right) =>
      var bare := Sparse(left, Looseness(op)) + ([OpToken(op)] + Sparse(right, Looseness(op) - 1));
      if Looseness(op) <= room then bare else [LParen] + (bare + [RParen])
    case Call(name, args) => [Ident(name), LParen] + (SparseArgs(args) + [RParen])
  }

  function SparseArgs(args: seq<Expr>): seq<Token> {
    if args == [] then []
    else if |args| == 1 then Sparse(args[0], 3)
    else Sparse(args[0], 3) + ([Comma] + SparseArgs(args[1..]))
  }

  // ---- Sparse tokens parse -------------------------------------------------------------------

  lemma LoosenessIsLevel(op: BinOp)
    ensures Looseness(op) == OpLevel(op) + 1 <= 3
  {
  }

  /** No operator tighter than the level comes next. */
  ghost predicate NoTighter(ts: seq<Token>, level: nat) {
    forall k: nat :: k < level ==> OpAt(ts, k) == None
  }

  predicate StandsBare(e: Expr, level: nat) {
    e.Bin? && Looseness(e.op) <= level + 1
  }

  lemma OperatorNext(op: BinOp, more: seq<Token>)
    ensures NoTighter([OpToken(op)] + more, OpLevel(op)) && OpAt([OpToken(op)] + more, OpLevel(op)) == Some(op)
  {
    forall k: nat | k <= OpLevel(op)
      ensures OpAt([OpToken(op)] + more, k) == if k == OpLevel(op) then Some(op) else None
    {
      OpAtItsLevel(op, more, k);
    }
  }

  /** At its level a tree is read up to the loop that looks for further operators. */
  lemma {:induction false} SparseParses(e: Expr, level: nat, rest: seq<Token>)
    requires level <= 2 && NoTighter(rest, level)
    ensures ParseLevel(Sparse(e, level + 1) + rest, level) == ParseMore(e, rest, level)
    decreases e, if StandsBare(e, level) then level + 1 else 5
  {
    hide ParseUnary, ParseOperand, ParseMore, OpAt, Sparse;
    if !StandsBare(e, level) {
      OperandIsUnary(e, level + 1, rest);
      OperandOf(Sparse(e, level + 1) + rest, e, rest, level);
      LevelIsLoop(Sparse(e, level + 1) + rest, level);
    } else if Looseness(e.op) == level + 1 {
      BareParses(e.op, e.left, e.right, rest);
    } else {
      LoosenessIsLevel(e.op);
      SparseParses(e, level - 1, rest);
      SparseOfBare(e, level, level + 1);
      MoreUnfolds(e, rest, level - 1);
      OperandIsLevel(Sparse(e, level) + rest, level);
      LevelIsLoop(Sparse(e, level) + rest, level);
    }
  }

  lemma LevelIsLoop(ts: seq<Token>, level: nat)
    ensures var first := ParseOperand(ts, level);
            ParseLevel(ts, level) == if first.None? then None else ParseMore(first.value.0, first.value.1, level)
  {
  }

  lemma OperandIsLevel(ts: seq<Token>, level: nat)
    requires level > 0
    ensures ParseOperand(ts, level) == ParseLevel(ts, level - 1)
  {
  }

  lemma SparseOfBare(e: Expr, room: nat, wider: nat)
    requires e.Bin? && Looseness(e.op) <= room <= wider
    ensures Sparse(e, room) == Sparse(e, wider)
    ensures Sparse(e, room) ==
            Sparse(e.left, Looseness(e.op)) + ([OpToken(e.op)] + Sparse(e.right, Looseness(e.op) - 1))
  {
  }

  lemma {:induction false} BareParses(op: BinOp, left: Expr, right: Expr, rest: seq<Token>)
    requires NoTighter(rest, OpLevel(op))
    ensures ParseLevel(Sparse(Bin(op, left, right), Looseness(op)) + rest, OpLevel(op)) ==
            ParseMore(Bin(op, left, right), rest, OpLevel(op))
    decreases Bin(op, left, right), 0
  {
    hide ParseUnary, ParseOperand, ParseMore, OpAt, Sparse, NoTighter;
    LoosenessIsLevel(op);
    var k := OpLevel(op);
    var r := Sparse(right, k) + rest;
    var after := [OpToken(op)] + r;
    SparseOfBare(Bin(op, left, right), k + 1, k + 1);
    assert Sparse(Bin(op, left, right), k + 1) + rest == Sparse(left, k + 1) + after;
    OperatorNext(op, r);
    SparseParses(left, k, after);
    MoreUnfolds(left, after, k);
    assert after[1..] == r;
    RightParses(right, k, rest);
  }

  lemma {:induction false} RightParses(right: Expr, level: nat, rest: seq<Token>)
    requires level <= 2 && NoTighter(rest, level)
    ensures ParseOperand(Sparse(right, level) + rest, level) == Some((right, rest))
    decreases right, 6
  {
    hide ParseUnary, ParseMore, OpAt, Sparse, ParseLevel;
    if level == 0 {
      OperandIsUnary(right, 0, rest);
    } else {
      SparseParses(right, level - 1, rest);
      MoreUnfolds(right, rest, level - 1);
    }
  }

  /** A whole expression is read up to what closes it. */
  lemma {:induction false} WholeParses(e: Expr, rest: seq<Token>)
    requires Closes(rest)
    ensures ParseExpr(Sparse(e, 3) + rest) == Some((e, rest))
    decreases e, 7
  {
    hide ParseUnary, ParseOperand, ParseMore, OpAt, Sparse, ParseLevel;
    ClosesNoOp(rest);
    SparseParses(e, 2, rest);
    MoreUnfolds(e, rest, 2);
  }

  /** A tree that is no bare operator is read as one operand, whatever follows. */
  lemma {:induction false} OperandIsUnary(e: Expr, room: nat, rest: seq<Token>)
    requires !(e.Bin? && Looseness(e.op) <= room)
    ensures ParseUnary(Sparse(e, room) + rest) == Some((e, rest))
    decreases e, 4
  {
    hide ParseUnary, ParseExpr, OpAt, ParseLevel, ParseMore, Looseness, Closes;
    match e {
      case Lit(value) => LeafIsUnary(value, rest);
      case Neg(inner) =>
        assert !(inner.Bin? && Looseness(inner.op) <= 0) by { if inner.Bin? { LoosenessIsLevel(inner.op); } }
        OperandIsUnary(inner, 0, rest);
        SignParses(Minus, Sparse(inner, 0), inner, rest);
      case Bin(op, left, right) =>
        LoosenessIsLevel(op);
        var after := [RParen] + rest;
        ClosingParen(rest);
        SparseParses(e, 2, after);
        MoreUnfolds(e, after, 2);
        ExprIsLevelTwo(Sparse(e, 3) + after);
        ParensParse(Sparse(e, 3), e, rest);
      case Call(name, args) =>
        if args != [] {
          ArgsParse(args, [RParen] + rest);
        }
        CallIsUnary(name, args, rest);
    }
  }

  lemma ClosingParen(rest: seq<Token>)
    ensures Closes([RParen] + rest) && NoTighter([RParen] + rest, 2) && OpAt([RParen] + rest, 2) == None
  {
  }

  lemma LeafIsUnary(value: Value, rest: seq<Token>)
    ensures ParseUnary([Leaf(value)] + rest) == Some((Lit(value), rest))
  {
    assert ([Leaf(value)] + rest)[1..] == rest;
  }

  lemma CallIsUnary(name: string, args: seq<Expr>, rest: seq<Token>)
    requires args != [] ==>
               && StartsAnArgument(SparseArgs(args))
               && ParseArgs(SparseArgs(args) + ([RParen] + rest)) == Some((args, [RParen] + rest))
    ensures ParseUnary([Ident(name), LParen] + (SparseArgs(args) + [RParen]) + rest) == Some((Call(name, args), rest))
  {
    hide ParseArgs;
    var inner := SparseArgs(args);
    var ts := [Ident(name), LParen] + (inner + [RParen]) + rest;
    assert ts[1..] == [LParen] + (inner + ([RParen] + rest));
    assert ts[2..] == inner + ([RParen] + rest);
    assert ([RParen] + rest)[1..] == rest;
    if args == [] {
      assert ts[3..] == rest;
    }
  }

  lemma {:induction false} SparseStarts(e: Expr, room: nat)
    ensures StartsAnArgument(Sparse(e, room))
    decreases e
  {
    if e.Bin? {
      SparseStarts(e.left, Looseness(e.op));
    }
  }

  lemma FirstArgParses(ts: seq<Token>, first: Expr, rest: seq<Token>)
    requires ParseExpr(ts) == Some((first, rest))
    ensures !Starts(rest, Comma) ==> ParseArgs(ts) == Some(([first], rest))
    ensures Starts(rest, Comma) && ParseArgs(rest[1..]).Some? ==>
              ParseArgs(ts) == Some(([first] + ParseArgs(rest[1..]).value.0, ParseArgs(rest[1..]).value.1))
  {
    hide ParseExpr;
  }

  lemma {:induction false} ArgsParse(args: seq<Expr>, rest: seq<Token>)
    requires args != [] && Starts(rest, RParen)
    ensures StartsAnArgument(SparseArgs(args))
    ensures ParseArgs(SparseArgs(args) + rest) == Some((args, rest))
    decreases args
  {
    hide ParseExpr, ParseArgs, Sparse;
    var first := args[0];
    SparseStarts(first, 3);
    if |args| == 1 {
      WholeParses(first, rest);
      FirstArgParses(Sparse(first, 3) + rest, first, rest);
      assert args == [first];
    } else {
      var more := SparseArgs(args[1..]);
      var after := [Comma] + (more + rest);
      ArgsParse(args[1..], rest);
      WholeParses(first, after);
      FirstArgParses(Sparse(first, 3) + after, first, after);
      assert SparseArgs(args) + rest == Sparse(first, 3) + after;
      assert after[1..] == more + rest;
      assert args == [first] + args[1..];
    }
  }

  // ---- Sparse texts --------------------------------------------------------------------------

  /** Digits with one dot among them, or at an end. */
  predicate IsReal(literal: string) {
    |literal| > 1 && exists dot | 0 <= dot < |literal| :: IsDotted(literal, dot)
  }

  predicate IsDotted(literal: string, dot: nat)
    requires dot < |literal|
  {
    literal[dot] == '.' && AllDigits(literal[..dot]) && AllDigits(literal[dot + 1..])
  }

  predicate IsToken(t: Token) {
    match t
    case IntToken(n) => 0 <= n <= I64_MAX
    case RealToken(literal) => IsReal(literal)
    case Ident(name) => IsIdentifier(name)
    case _ => true
  }

  function Spelling(t: Token): string {
    match t
    case IntToken(n) => Signed(n)
    case RealToken(literal) => literal
    case Str(text) => PrintText(text)
    case Ident(name) => name
    case Plus => "+"
    case Minus => "-"
    case Star => "*"
    case Slash => "/"
    case Percent => "%"
    case Bars => "||"
    case LParen => "("
    case RParen => ")"
    case Comma => ","
    case NullWord => "NULL"
  }

  /** A blank after every token. */
  function Spelled(ts: seq<Token>): string {
    if ts == [] then "" else Spelling(ts[0]) + " " + Spelled(ts[1..])
  }

  lemma {:induction false} DigitsRun(digits: string, rest: string, sawDot: bool)
    requires AllDigits(digits)
    ensures NumberLength(digits + rest, sawDot) == |digits| + NumberLength(rest, sawDot)
  {
    if digits == "" {
      assert digits + rest == rest;
    } else {
      assert (digits + rest)[1..] == digits[1..] + rest;
      DigitsRun(digits[1..], rest, sawDot);
    }
  }

  lemma RealLexes(literal: string, rest: string)
    requires IsReal(literal) && Ends(rest)
    ensures Lexes(literal, Some([RealToken(literal)]), rest)
  {
    hide Lex, NumberLength;
    var dot :| 0 <= dot < |literal| && IsDotted(literal, dot);
    var a, b, s := literal[..dot], literal[dot + 1..], literal + rest;
    var tail := "." + (b + rest);
    assert s == a + tail;
    DigitsRun(a, tail, false);
    assert tail[1..] == b + rest;
    DotRuns(tail);
    DigitsRun(b, rest, true);
    EndStops(rest);
    assert literal == a + "." + b;
    RealToThe(literal, dot);
    LexNumber(s);
    assert s[..|literal|] == literal && s[|literal|..] == rest;
  }

  lemma DotRuns(s: string)
    requires s != "" && s[0] == '.'
    ensures NumberLength(s, false) == 1 + NumberLength(s[1..], true)
  {
  }

  lemma EndStops(rest: string)
    requires Ends(rest)
    ensures NumberLength(rest, true) == 0
  {
  }

  lemma RealToThe(literal: string, dot: nat)
    requires dot < |literal| && IsDotted(literal, dot) && |literal| > 1
    ensures NumberToken(literal) == Some(RealToken(literal)) && (IsDigit(literal[0]) || literal[0] == '.')
  {
    assert literal[dot] in literal;
    var d := if dot > 0 then literal[..dot][0] else literal[dot + 1..][0];
    assert d in literal && IsDigit(d);
    assert dot > 0 ==> literal[..dot][0] == literal[0];
  }

  lemma TokenLexes(t: Token, rest: string)
    requires IsToken(t) && Ends(rest)
    ensures Lexes(Spelling(t), Some([t]), rest)
  {
    hide Lex, Lexes, Signed, IsReal, PrintText;
    match t {
      case IntToken(n) => IntegerLexes(n, rest);
      case RealToken(literal) => RealLexes(literal, rest);
      case Str(text) => TextLexes(text, rest);
      case Ident(name) => WordLexes(name, rest);
      case Bars => OpLexes(Concat, rest);
      case NullWord => NullLexes(rest);
      case _ => MarkLexes(t, rest);
    }
  }

  lemma MarkLexes(t: Token, rest: string)
    requires t in {Plus, Minus, Star, Slash, Percent, LParen, RParen, Comma}
    ensures Lexes(Spelling(t), Some([t]), rest)
  {
    PunctuationLexes(Spelling(t)[0], rest);
    assert Spelling(t) == [Spelling(t)[0]];
  }

  /** Spelled tokens are read as themselves. */
  lemma {:induction false} SpellingLexes(ts: seq<Token>)
    requires forall t <- ts :: IsToken(t)
    ensures Lex(Spelled(ts)) == Some(ts)
  {
    hide Lex, IsToken, Spelling;
    if ts == [] {
      EndOfInput();
    } else {
      var rest := Spelled(ts[1..]);
      TokenLexes(ts[0], " " + rest);
      SpaceLexes(rest);
      SpellingLexes(ts[1..]);
      ThenOfNothing(Lex(rest));
      assert Spelled(ts) == Spelling(ts[0]) + (" " + rest);
      assert ts == [ts[0]] + ts[1..];
    }
  }

  /** Trees whose numbers and names can be written. */
  predicate Writable(e: Expr) {
    match e
    case Lit(value) => IsToken(Leaf(value))
    case Neg(inner) => Writable(inner)
    case Bin(_, left, right) => Writable(left) && Writable(right)
    case Call(name, args) => IsIdentifier(name) && forall i :: 0 <= i < |args| ==> Writable(args[i])
  }

  lemma {:induction false} WritableTokens(e: Expr, room: nat)
    requires Writable(e)
    ensures forall t <- Sparse(e, room) :: IsToken(t)
    decreases e
  {
    hide IsIdentifier, IsReal;
    match e {
      case Lit(value) =>
      case Neg(inner) => WritableTokens(inner, 0);
      case Bin(op, left, right) =>
        WritableTokens(left, Looseness(op));
        WritableTokens(right, Looseness(op) - 1);
      case Call(name, args) => WritableArgs(args);
    }
  }

  lemma {:induction false} WritableArgs(args: seq<Expr>)
    requires forall i :: 0 <= i < |args| ==> Writable(args[i])
    ensures forall t <- SparseArgs(args) :: IsToken(t)
    decreases args
  {
    hide Sparse, Writable;
    if args != [] {
      WritableTokens(args[0], 3);
      WritableArgs(args[1..]);
    }
  }

  /**
   Written with only the parentheses that precedence and left association need, every tree that can
   be written is read back.
   */
  lemma SparseReadsBack(e: Expr)
    requires Writable(e)
    ensures Read(Spelled(Sparse(e, 3))) == Some(e)
  {
    hide Lex, ParseExpr, Sparse, Spelled, Writable;
    WritableTokens(e, 3);
    SpellingLexes(Sparse(e, 3));
    WholeParses(e, []);
    assert Sparse(e, 3) + [] == Sparse(e, 3);
  }

  // ---- Only these trees are read --------------------------------------------------------------

  predicate AllTokens(ts: seq<Token>) {
    forall t <- ts :: IsToken(t)
  }

  lemma {:induction false} NumbersAreNumbers(s: string, sawDot: bool)
    ensures var literal := s[..NumberLength(s, sawDot)];
            AllDigits(literal) || (!sawDot && exists dot | 0 <= dot < |literal| :: IsDotted(literal, dot))
  {
    var n := NumberLength(s, sawDot);
    if n > 0 {
      var literal := s[..n];
      var saw := sawDot || s[0] == '.';
      NumbersAreNumbers(s[1..], saw);
      var tail := s[1..][..n - 1];
      assert literal == [s[0]] + tail;
      if IsDigit(s[0]) {
        if !AllDigits(tail) {
          var dot :| 0 <= dot < |tail| && IsDotted(tail, dot);
          assert literal[..dot + 1] == [s[0]] + tail[..dot] && literal[dot + 2..] == tail[dot + 1..];
          assert IsDotted(literal, dot + 1);
        }
      } else {
        assert literal[..0] == "" && literal[1..] == tail;
        assert IsDotted(literal, 0);
      }
    }
  }

  lemma NumberIsToken(s: string)
    requires NumberToken(s[..NumberLength(s, false)]).Some?
    ensures IsToken(NumberToken(s[..NumberLength(s, false)]).value)
  {
    hide Decimal.Value, NumberLength;
    NumbersAreNumbers(s, false);
    var literal := s[..NumberLength(s, false)];
    if '.' in literal {
      var i, j :| 0 <= i < |literal| && 0 <= j < |literal| && literal[i] == '.' && IsDigit(literal[j]);
      assert i != j;
      assert !AllDigits(literal);
    }
  }

  lemma {:induction false} WordIsWord(s: string)
    ensures forall c <- s[..WordLength(s)] :: IsWordChar(c)
  {
    if WordLength(s) > 0 {
      WordIsWord(s[1..]);
      assert s[..WordLength(s)] == [s[0]] + s[1..][..WordLength(s[1..])];
    }
  }

  lemma WordIsToken(s: string)
    requires s != "" && IsWordStart(s[0])
    ensures IsToken(WordToken(s[..WordLength(s)]))
  {
    hide AsciiLower, WordLength;
    WordIsWord(s);
    assert s[..WordLength(s)][0] == s[0];
  }

  /** The lexer gives only tokens that can be written. */
  lemma {:induction false} LexGivesTokens(s: string)
    requires Lex(s).Some?
    ensures AllTokens(Lex(s).value)
    decreases |s|
  {
    hide Punctuation, NumberToken, WordToken, IsReal, IsIdentifier, ReadQuoted, NumberLength, WordLength;
    if s == "" {
    } else if IsAsciiSpace(s[0]) {
      LexGivesTokens(s[1..]);
    } else if Punctuation(s[0]).Some? {
      MarkIsToken(s[0]);
      LexGivesTokens(s[1..]);
    } else if s[0] == '|' {
      LexGivesTokens(s[2..]);
    } else if s[0] == '\'' {
      LexGivesTokens(ReadQuoted(s[1..], '\'').value.1);
    } else if IsDigit(s[0]) || s[0] == '.' {
      NumberIsToken(s);
      LexGivesTokens(s[NumberLength(s, false)..]);
    } else {
      WordIsToken(s);
      LexGivesTokens(s[WordLength(s)..]);
    }
  }

  lemma MarkIsToken(c: char)
    requires Punctuation(c).Some?
    ensures IsToken(Punctuation(c).value)
  {
  }

  ghost predicate Fine(r: Parsed) {
    r.Some? ==> Writable(r.value.0) && AllTokens(r.value.1)
  }

  lemma FineTail(ts: seq<Token>, n: nat)
    requires AllTokens(ts) && n <= |ts|
    ensures AllTokens(ts[n..])
  {
  }

  lemma {:induction false} FineOperand(ts: seq<Token>, level: nat)
    requires AllTokens(ts)
    ensures Fine(ParseOperand(ts, level))
    decreases |ts|, level + 1, 0
  {
    hide Fine, AllTokens;
    if level == 0 {
      FineUnary(ts);
    } else {
      FineLevel(ts, level - 1);
    }
  }

  lemma {:induction false} FineLevel(ts: seq<Token>, level: nat)
    requires AllTokens(ts)
    ensures Fine(ParseLevel(ts, level))
    decreases |ts|, level + 1, 1
  {
    hide AllTokens, Writable, ParseOperand, ParseMore;
    FineOperand(ts, level);
    if ParseOperand(ts, level).Some? {
      var (left, rest) := ParseOperand(ts, level).value;
      FineMore(left, rest, level);
    }
  }

  lemma {:induction false} FineMore(left: Expr, ts: seq<Token>, level: nat)
    requires AllTokens(ts) && Writable(left)
    ensures Fine(ParseMore(left, ts, level))
    decreases |ts|, level + 1, 1
  {
    hide AllTokens, ParseOperand, OpAt;
    MoreUnfolds(left, ts, level);
    if OpAt(ts, level).Some? {
      FineTail(ts, 1);
      FineOperand(ts[1..], level);
      if ParseOperand(ts[1..], level).Some? {
        var (right, rest) := ParseOperand(ts[1..], level).value;
        FineMore(Bin(OpAt(ts, level).value, left, right), rest, level);
      }
    }
  }

  lemma {:induction false} FineUnary(ts: seq<Token>)
    requires AllTokens(ts)
    ensures Fine(ParseUnary(ts))
    decreases |ts|, 0, 1
  {
    hide AllTokens, ParseAtom;
    if Starts(ts, Minus) || Starts(ts, Plus) {
      FineTail(ts, 1);
      FineUnary(ts[1..]);
    } else {
      FineAtom(ts);
    }
  }

  lemma {:induction false} FineAtom(ts: seq<Token>)
    requires AllTokens(ts)
    ensures Fine(ParseAtom(ts))
    decreases |ts|, 0, 0
  {
    hide AllTokens, ParseExpr, ParseArgs, IsReal, IsIdentifier;
    if ts != [] {
      assert IsToken(ts[0]) by { FirstIsToken(ts); }
      FineTail(ts, 1);
      if ts[0].LParen? {
        FineLevel(ts[1..], 2);
        ExprIsLevelTwo(ts[1..]);
        if ParseExpr(ts[1..]).Some? && Starts(ParseExpr(ts[1..]).value.1, RParen) {
          FineTail(ParseExpr(ts[1..]).value.1, 1);
        }
      } else if ts[0].Ident? && Starts(ts[1..], LParen) {
        FineTail(ts, 2);
        if Starts(ts[2..], RParen) {
          FineTail(ts, 3);
        } else {
          FineArgs(ts[2..]);
          if ParseArgs(ts[2..]).Some? && Starts(ParseArgs(ts[2..]).value.1, RParen) {
            FineTail(ParseArgs(ts[2..]).value.1, 1);
            FineCall(ts[0].name, ParseArgs(ts[2..]).value.0);
          }
        }
      }
    }
  }

  lemma FineCall(name: string, args: seq<Expr>)
    requires IsIdentifier(name) && forall e <- args :: Writable(e)
    ensures Writable(Call(name, args))
  {
    hide IsIdentifier;
  }

  lemma FirstIsToken(ts: seq<Token>)
    requires AllTokens(ts) && ts != []
    ensures IsToken(ts[0])
  {
  }

  lemma {:induction false} FineArgs(ts: seq<Token>)
    requires AllTokens(ts)
    ensures ParseArgs(ts).Some? ==>
              AllTokens(ParseArgs(ts).value.1) && forall e <- ParseArgs(ts).value.0 :: Writable(e)
    decreases |ts|, 5, 0
  {
    hide AllTokens, ParseExpr, Writable;
    FineLevel(ts, 2);
    ExprIsLevelTwo(ts);
    if ParseExpr(ts).Some? && Starts(ParseExpr(ts).value.1, Comma) {
      var rest := ParseExpr(ts).value.1;
      FineTail(rest, 1);
      FineArgs(rest[1..]);
    }
  }

  /** The trees that some text is read as are exactly those that can be written. */
  lemma ReadTreesExactly(e: Expr)
    ensures (exists text :: Read(text) == Some(e)) <==> Writable(e)
  {
    hide Lex, ParseExpr, Writable, Spelled, Sparse, Read;
    if Writable(e) {
      SparseReadsBack(e);
    }
    forall text | Read(text) == Some(e)
      ensures Writable(e)
    {
      ReadIsWritable(text, e);
    }
  }

  lemma ReadIsWritable(text: string, e: Expr)
    requires Read(text) == Some(e)
    ensures Writable(e)
  {
    hide Lex, ParseExpr, Writable;
    LexGivesTokens(text);
    FineLevel(Lex(text).value, 2);
    ExprIsLevelTwo(Lex(text).value);
  }

  // ---- Two operators -------------------------------------------------------------------------

  /** Of two operators side by side the second takes the operand between them exactly when it is tighter. */
  lemma TwoOperators(x: Expr, p: BinOp, y: Expr, q: BinOp, z: Expr)
    requires Writable(x) && Writable(y) && Writable(z)
    ensures var ts := Sparse(x, 0) + [OpToken(p)] + Sparse(y, 0) + [OpToken(q)] + Sparse(z, 0);
            Read(Spelled(ts)) ==
            if (p == Concat && q != Concat) || (p in {Add, Sub} && q in {Mul, Div, Mod}) then
              Some(Bin(p, x, Bin(q, y, z)))
            else Some(Bin(q, Bin(p, x, y), z))
  {
    hide Lex, ParseExpr, Sparse, Spelled, Writable, IsToken, OpToken;
    var ts := Sparse(x, 0) + [OpToken(p)] + Sparse(y, 0) + [OpToken(q)] + Sparse(z, 0);
    assert forall t <- ts :: IsToken(t) by { WritableThree(x, p, y, q, z); }
    SpellingLexes(ts);
    if Looseness(q) < Looseness(p) {
      TighterSecond(x, p, y, q, z);
    } else {
      TighterFirst(x, p, y, q, z);
    }
  }

  lemma WritableThree(x: Expr, p: BinOp, y: Expr, q: BinOp, z: Expr)
    requires Writable(x) && Writable(y) && Writable(z)
    ensures forall t <- Sparse(x, 0) + [OpToken(p)] + Sparse(y, 0) + [OpToken(q)] + Sparse(z, 0) :: IsToken(t)
  {
    hide Sparse, Writable, IsToken;
    WritableTokens(x, 0);
    WritableTokens(y, 0);
    WritableTokens(z, 0);
    OperatorIsToken(p);
    OperatorIsToken(q);
  }

  lemma OperatorIsToken(op: BinOp)
    ensures IsToken(OpToken(op))
  {
  }

  lemma PlacedOperand(e: Expr, rest: seq<Token>)
    ensures ParseUnary(Sparse(e, 0) + rest) == Some((e, rest))
  {
    hide ParseUnary;
    if e.Bin? {
      LoosenessIsLevel(e.op);
    }
    OperandIsUnary(e, 0, rest);
  }

  lemma TighterSecond(x: Expr, p: BinOp, y: Expr, q: BinOp, z: Expr)
    requires Looseness(q) < Looseness(p)
    ensures ParseExpr(Sparse(x, 0) + [OpToken(p)] + Sparse(y, 0) + [OpToken(q)] + Sparse(z, 0)) ==
            Some((Bin(p, x, Bin(q, y, z)), []))
  {
    hide ParseUnary, ParseOperand, OpAt, Sparse, ParseMore, NoTighter;
    LoosenessIsLevel(p);
    LoosenessIsLevel(q);
    var k, j := OpLevel(p), OpLevel(q);
    var last := [OpToken(q)] + Sparse(z, 0);
    var second := Sparse(y, 0) + last;
    var ts := Sparse(x, 0) + ([OpToken(p)] + second);
    assert ts == Sparse(x, 0) + [OpToken(p)] + Sparse(y, 0) + [OpToken(q)] + Sparse(z, 0);
    InfixAtLevel(y, q, z);
    NothingNext();
    LiftLevel(second, Bin(q, y, z), [], j, k - 1);
    PlacedOperand(x, [OpToken(p)] + second);
    OperatorNext(p, second);
    OperandOf2(Sparse(x, 0) + ([OpToken(p)] + second), x, [OpToken(p)] + second, k);
    assert ([OpToken(p)] + second)[1..] == second;
    OperandIsLevel(second, k);
    MoreUnfolds(x, [OpToken(p)] + second, k);
    MoreUnfolds(Bin(p, x, Bin(q, y, z)), [], k);
    LevelIsLoop(ts, k);
    LiftLevel(ts, Bin(p, x, Bin(q, y, z)), [], k, 2);
    ExprIsLevelTwo(ts);
  }

  lemma NothingNext()
    ensures NoOpUpTo([], 2) && NoOpUpTo([], 1) && NoOpUpTo([], 0) && forall k: nat :: OpAt([], k) == None
  {
  }

  lemma OperandOf2(ts: seq<Token>, x: Expr, rest: seq<Token>, level: nat)
    requires ParseUnary(ts) == Some((x, rest)) && NoTighter(rest, level)
    ensures ParseOperand(ts, level) == Some((x, rest))
  {
    hide ParseUnary, ParseOperand, OpAt;
    OperandOf(ts, x, rest, level);
  }

  lemma InfixAtLevel(y: Expr, q: BinOp, z: Expr)
    ensures ParseLevel(Sparse(y, 0) + ([OpToken(q)] + Sparse(z, 0)), OpLevel(q)) == Some((Bin(q, y, z), []))
  {
    hide ParseUnary, ParseOperand, OpAt, Sparse, ParseMore, NoTighter;
    var j := OpLevel(q);
    var last := [OpToken(q)] + Sparse(z, 0);
    PlacedOperand(y, last);
    OperatorNext(q, Sparse(z, 0));
    OperandOf2(Sparse(y, 0) + last, y, last, j);
    LevelIsLoop(Sparse(y, 0) + last, j);
    LastOperand(y, q, z);
  }

  lemma LastOperand(left: Expr, q: BinOp, z: Expr)
    ensures ParseMore(left, [OpToken(q)] + Sparse(z, 0), OpLevel(q)) == Some((Bin(q, left, z), []))
  {
    hide ParseUnary, ParseOperand, OpAt, Sparse, ParseMore;
    var j := OpLevel(q);
    var last := [OpToken(q)] + Sparse(z, 0);
    PlacedOperand(z, []);
    assert Sparse(z, 0) + [] == Sparse(z, 0) && last[1..] == Sparse(z, 0);
    NothingNext();
    OperandOf2(Sparse(z, 0), z, [], j);
    OperatorNext(q, Sparse(z, 0));
    MoreUnfolds(left, last, j);
    MoreUnfolds(Bin(q, left, z), [], j);
  }

  lemma TighterFirst(x: Expr, p: BinOp, y: Expr, q: BinOp, z: Expr)
    requires Looseness(p) <= Looseness(q)
    ensures ParseExpr(Sparse(x, 0) + [OpToken(p)] + Sparse(y, 0) + [OpToken(q)] + Sparse(z, 0)) ==
            Some((Bin(q, Bin(p, x, y), z), []))
  {
    hide ParseUnary, ParseOperand, OpAt, Sparse, ParseMore, ParseLevel, NoTighter, NoOpUpTo, OpToken, Looseness, OpLevel, ParseExpr;
    LoosenessIsLevel(p);
    LoosenessIsLevel(q);
    var k, j := OpLevel(p), OpLevel(q);
    var last := [OpToken(q)] + Sparse(z, 0);
    var second := Sparse(y, 0) + last;
    var after := [OpToken(p)] + second;
    var ts := Sparse(x, 0) + after;
    assert ts == Sparse(x, 0) + [OpToken(p)] + Sparse(y, 0) + [OpToken(q)] + Sparse(z, 0);
    PlacedOperand(x, after);
    OperatorNext(p, second);
    OperandOf2(ts, x, after, k);
    assert after[1..] == second;
    PlacedOperand(y, last);
    OperatorNext(q, Sparse(z, 0));
    NoneTighterStill(last, k, j);
    OperandOf2(second, y, last, k);
    MoreUnfolds(x, after, k);
    LevelIsLoop(ts, k);
    LastOperand(Bin(p, x, y), q, z);
    assert ParseLevel(ts, k) == ParseMore(Bin(p, x, y), last, k);
    Climb(ts, Bin(p, x, y), last, k, j);
    NothingNext();
    LiftLevel(ts, Bin(q, Bin(p, x, y), z), [], j, 2);
    ExprIsLevelTwo(ts);
  }

  lemma NoneTighterStill(ts: seq<Token>, low: nat, high: nat)
    requires low <= high && NoTighter(ts, high)
    ensures NoTighter(ts, low)
  {
    hide OpAt;
  }

  /** What a level has read the next level takes as its first operand. */
  lemma {:induction false} Climb(ts: seq<Token>, left: Expr, rest: seq<Token>, low: nat, high: nat)
    requires low <= high && NoTighter(rest, high)
    requires ParseLevel(ts, low) == ParseMore(left, rest, low)
    ensures ParseLevel(ts, high) == ParseMore(left, rest, high)
  {
    hide ParseUnary, ParseOperand, OpAt, ParseMore, ParseLevel;
    if low < high {
      Climb(ts, left, rest, low, high - 1);
      MoreUnfolds(left, rest, high - 1);
      OperandIsLevel(ts, high);
      LevelIsLoop(ts, high);
    }
  }
}
