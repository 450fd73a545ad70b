/** Printing and reading back. */
module SqlRoundTrip {
  import opened Machine
  import opened Chars
  import opened Quoting
  import opened Decimal
  import opened SqlSyntax
  import opened Printer
  import opened Lexer
  import opened SqlParser
  import opened PrintedTokens

  /** The tree a printed expression denotes: nesting and unary plus vanish, a sign is an operator. */
  function Erase(e: Spec): Expr {
    match e
    case NullSpec => Lit(Null)
    case IntegerSpec(n) => if n < 0 then Neg(Lit(Int(-n))) else Lit(Int(n))
    case TextSpec(text) => Lit(Text(text))
    case Nested(inner) => Erase(inner)
    case Negate(inner) => Neg(Erase(inner))
    case Positive(inner) => Erase(inner)
    case Binary(left, op, right) => Bin(op, Erase(left), Erase(right))
    case Function(name, args) => Call(name, EraseAll(args))
  }

  function EraseAll(args: seq<Spec>): seq<Expr> {
    if args == [] then [] else [Erase(args[0])] + EraseAll(args[1..])
  }

  // ---- Levels --------------------------------------------------------------------------------

  function OpLevel(op: BinOp): nat {
    match op
    case Concat => 2
    case Add => 1
    case Sub => 1
    case _ => 0
  }

  lemma OpAtItsLevel(op: BinOp, rest: seq<Token>, level: nat)
    requires level <= 2
    ensures OpAt([OpToken(op)] + rest, level) == if level == OpLevel(op) then Some(op) else None
  {
  }

  ghost predicate NoOpUpTo(ts: seq<Token>, level: nat) {
    forall k: nat :: k <= level ==> OpAt(ts, k) == None
  }

  /** An operand followed by no operator of the levels up to this one is the whole expression. */
  lemma {:induction false} OperandAlone(ts: seq<Token>, x: Expr, rest: seq<Token>, level: nat)
    requires ParseUnary(ts) == Some((x, rest)) && NoOpUpTo(rest, level)
    ensures ParseLevel(ts, level) == Some((x, rest))
  {
    hide ParseUnary, OpAt;
    if level > 0 {
      assert NoOpUpTo(rest, level - 1);
      OperandAlone(ts, x, rest, level - 1);
    }
    MoreUnfolds(x, rest, level);
  }

  lemma {:induction false} LiftLevel(ts: seq<Token>, x: Expr, rest: seq<Token>, low: nat, high: nat)
    requires low <= high && ParseLevel(ts, low) == Some((x, rest)) && NoOpUpTo(rest, high)
    ensures ParseLevel(ts, high) == Some((x, rest))
  {
    hide ParseUnary, OpAt;
    if low < high {
      assert NoOpUpTo(rest, high - 1);
      LiftLevel(ts, x, rest, low, high - 1);
      MoreUnfolds(x, rest, high);
    }
  }

  lemma OperandOf(ts: seq<Token>, x: Expr, rest: seq<Token>, level: nat)
    requires ParseUnary(ts) == Some((x, rest)) && forall k: nat :: k < level ==> OpAt(rest, k) == None
    ensures ParseOperand(ts, level) == Some((x, rest))
  {
    hide ParseUnary, OpAt, ParseLevel;
    if level > 0 {
      assert NoOpUpTo(rest, level - 1);
      OperandAlone(ts, x, rest, level - 1);
    }
  }

  /** Two operands around an operator parse to their combination, at whatever level it is. */
  lemma InfixParses(op: BinOp, ts: seq<Token>, x: Expr, more: seq<Token>, y: Expr, rest: seq<Token>)
    requires ParseUnary(ts) == Some((x, [OpToken(op)] + more)) && ParseUnary(more) == Some((y, rest))
    requires NoOpUpTo(rest, 2)
    ensures ParseExpr(ts) == Some((Bin(op, x, y), rest))
  {
    hide ParseUnary, OpAt, ParseOperand;
    var k := OpLevel(op);
    var after := [OpToken(op)] + more;
    forall j: nat | j <= 2
      ensures OpAt(after, j) == if j == k then Some(op) else None
    {
      OpAtItsLevel(op, more, j);
    }
    OperandOf(ts, x, after, k);
    assert after[1..] == more;
    OperandOf(more, y, rest, k);
    MoreUnfolds(x, after, k);
    MoreUnfolds(Bin(op, x, y), rest, k);
    LiftLevel(ts, Bin(op, x, y), rest, k, 2);
  }

  predicate Closes(ts: seq<Token>) {
    ts == [] || ts[0] in {RParen, Comma}
  }

  lemma ClosesNoOp(ts: seq<Token>)
    requires Closes(ts)
    ensures NoOpUpTo(ts, 2)
  {
  }

  lemma AloneParses(ts: seq<Token>, x: Expr, rest: seq<Token>)
    requires ParseUnary(ts) == Some((x, rest)) && Closes(rest)
    ensures ParseExpr(ts) == Some((x, rest))
  {
    hide ParseUnary, ParseLevel;
    ClosesNoOp(rest);
    OperandAlone(ts, x, rest, 2);
  }

  // ---- Printed tokens parse ------------------------------------------------------------------

  lemma ParensParse(inner: seq<Token>, x: Expr, rest: seq<Token>)
    requires ParseExpr(inner + ([RParen] + rest)) == Some((x, [RParen] + rest))
    ensures ParseUnary([LParen] + (inner + [RParen]) + rest) == Some((x, rest))
  {
    hide ParseExpr;
    var ts := [LParen] + (inner + [RParen]) + rest;
    assert ts[1..] == inner + ([RParen] + rest);
    assert ([RParen] + rest)[1..] == rest;
  }

  lemma SignParses(sign: Token, ts: seq<Token>, x: Expr, rest: seq<Token>)
    requires sign in {Plus, Minus} && ParseUnary(ts + rest) == Some((x, rest))
    ensures ParseUnary([sign] + ts + rest) == Some((if sign == Minus then Neg(x) else x, rest))
  {
    assert ([sign] + ts + rest)[1..] == ts + rest;
  }

  lemma NumberParses(n: int, rest: seq<Token>)
    requires NumberTokens(n).Some?
    ensures ParseUnary(NumberTokens(n).value + rest) == Some((Erase(IntegerSpec(n)), rest))
  {
    if n < 0 {
      var ts := [Minus, IntToken(-n)] + rest;
      assert ts[1..] == [IntToken(-n)] + rest && ([IntToken(-n)] + rest)[1..] == rest;
      assert ParseAtom([IntToken(-n)] + rest) == Some((Lit(Int(-n)), rest));
    } else {
      assert ([IntToken(n)] + rest)[1..] == rest;
    }
  }

  lemma TokensOfInner(e: Spec)
    requires TokensOf(e).Some?
    ensures e.Nested? || e.Negate? || e.Positive? ==> TokensOf(e.inner).Some?
    ensures e.Nested? ==> TokensOf(e).value == [LParen] + (TokensOf(e.inner).value + [RParen])
    ensures e.Negate? ==> TokensOf(e).value == [Minus] + ([LParen] + (TokensOf(e.inner).value + [RParen]))
    ensures e.Positive? ==> TokensOf(e).value == [Plus] + ([LParen] + (TokensOf(e.inner).value + [RParen]))
  {
  }

  /** Every printed expression parses as one operand, whatever follows it. */
  lemma {:induction false} PrintedParses(e: Spec, rest: seq<Token>)
    requires TokensOf(e).Some? && Named(e)
    ensures ParseUnary(TokensOf(e).value + rest) == Some((Erase(e), rest))
    decreases e
  {
    hide ParseUnary, ParseExpr, TokensOf;
    match e {
      case Nested(inner) =>
        TokensOfInner(e);
        PrintedParses(inner, [RParen] + rest);
        ParenthesisedParses(inner, rest);
      case Negate(inner) =>
        TokensOfInner(e);
        PrintedParses(inner, [RParen] + rest);
        ParenthesisedParses(inner, rest);
        SignParses(Minus, [LParen] + (TokensOf(inner).value + [RParen]), Erase(inner), rest);
      case Positive(inner) =>
        TokensOfInner(e);
        PrintedParses(inner, [RParen] + rest);
        ParenthesisedParses(inner, rest);
        SignParses(Plus, [LParen] + (TokensOf(inner).value + [RParen]), Erase(inner), rest);
      case Binary(left, op, right) =>
        TokensOfBinary(left, op, right);
        PrintedParses(left, [OpToken(op)] + (TokensOf(right).value + ([RParen] + rest)));
        PrintedParses(right, [RParen] + rest);
        BinaryParses(left, op, right, rest);
      case Function(name, args) =>
        TokensOfCall(name, args);
        if args != [] {
          PrintedArgsParse(args, [RParen] + rest);
        }
        CallParses(name, args, rest);
      case _ => LeafParses(e, rest);
    }
  }

  lemma LeafParses(e: Spec, rest: seq<Token>)
    requires (e.NullSpec? || e.IntegerSpec? || e.TextSpec?) && TokensOf(e).Some?
    ensures ParseUnary(TokensOf(e).value + rest) == Some((Erase(e), rest))
  {
    if e.IntegerSpec? {
      NumberParses(e.n, rest);
    } else {
      assert (TokensOf(e).value + rest)[1..] == rest;
    }
  }

  lemma ParenthesisedParses(inner: Spec, rest: seq<Token>)
    requires TokensOf(inner).Some?
    requires ParseUnary(TokensOf(inner).value + ([RParen] + rest)) == Some((Erase(inner), [RParen] + rest))
    ensures ParseUnary([LParen] + (TokensOf(inner).value + [RParen]) + rest) == Some((Erase(inner), rest))
  {
    hide ParseUnary, ParseExpr, TokensOf, Erase;
    var ts := TokensOf(inner).value;
    AloneParses(ts + ([RParen] + rest), Erase(inner), [RParen] + rest);
    ParensParse(ts, Erase(inner), rest);
  }

  lemma TokensOfBinary(left: Spec, op: BinOp, right: Spec)
    requires TokensOf(Binary(left, op, right)).Some?
    ensures TokensOf(left).Some? && TokensOf(right).Some?
    ensures TokensOf(Binary(left, op, right)).value ==
            [LParen] + ((TokensOf(left).value + ([OpToken(op)] + TokensOf(right).value)) + [RParen])
  {
  }

  lemma BinaryParses(left: Spec, op: BinOp, right: Spec, rest: seq<Token>)
    requires TokensOf(Binary(left, op, right)).Some? && TokensOf(left).Some? && TokensOf(right).Some?
    requires var more := TokensOf(right).value + ([RParen] + rest);
             && ParseUnary(TokensOf(left).value + ([OpToken(op)] + more)) == Some((Erase(left), [OpToken(op)] + more))
             && ParseUnary(more) == Some((Erase(right), [RParen] + rest))
    ensures ParseUnary(TokensOf(Binary(left, op, right)).value + rest) == Some((Erase(Binary(left, op, right)), rest))
  {
    hide ParseUnary, ParseExpr, TokensOf;
    TokensOfBinary(left, op, right);
    var l, r := TokensOf(left).value, TokensOf(right).value;
    var more := r + ([RParen] + rest);
    ClosesNoOp([RParen] + rest);
    InfixParses(op, l + ([OpToken(op)] + more), Erase(left), more, Erase(right), [RParen] + rest);
    var inner := l + ([OpToken(op)] + r);
    assert inner + ([RParen] + rest) == l + ([OpToken(op)] + more);
    ParensParse(inner, Bin(op, Erase(left), Erase(right)), rest);
  }

  lemma TokensOfCall(name: string, args: seq<Spec>)
    requires TokensOf(Function(name, args)).Some?
    ensures TokensOfName(name).Some? && TokensOfArgs(args).Some?
    ensures TokensOf(Function(name, args)).value ==
            TokensOfName(name).value + ([LParen] + (TokensOfArgs(args).value + [RParen]))
    ensures IsIdentifier(name) ==> TokensOfName(name).value == [Ident(name)]
  {
    hide NumberLength, NumberToken;
  }

  lemma CallParses(name: string, args: seq<Spec>, rest: seq<Token>)
    requires TokensOf(Function(name, args)).Some? && TokensOfArgs(args).Some? && IsIdentifier(name)
    requires args != [] ==> StartsAnArgument(TokensOfArgs(args).value)
    requires args != [] ==>
               ParseArgs(TokensOfArgs(args).value + ([RParen] + rest)) == Some((EraseAll(args), [RParen] + rest))
    ensures ParseUnary(TokensOf(Function(name, args)).value + rest) == Some((Erase(Function(name, args)), rest))
  {
    hide ParseArgs, TokensOf, TokensOfName, IsIdentifier;
    TokensOfCall(name, args);
    var ts := TokensOf(Function(name, args)).value + rest;
    var inner := TokensOfArgs(args).value;
    assert ts[1..] == [LParen] + (inner + ([RParen] + rest));
    assert ts[2..] == inner + ([RParen] + rest);
    assert ([RParen] + rest)[1..] == rest;
    if args == [] {
      assert ts[3..] == rest;
    }
  }

  /** A printed argument never begins with a closing parenthesis. */
  predicate StartsAnArgument(ts: seq<Token>) {
    ts != [] && ts[0] != RParen
  }

  lemma PrintedStarts(e: Spec)
    requires TokensOf(e).Some?
    ensures StartsAnArgument(TokensOf(e).value)
  {
  }

  lemma {:induction false} PrintedArgsParse(args: seq<Spec>, rest: seq<Token>)
    requires args != [] && TokensOfArgs(args).Some? && Starts(rest, RParen)
    requires forall i :: 0 <= i < |args| ==> Named(args[i])
    ensures StartsAnArgument(TokensOfArgs(args).value)
    ensures ParseArgs(TokensOfArgs(args).value + rest) == Some((EraseAll(args), rest))
    decreases args
  {
    hide ParseExpr, TokensOf, Erase, Named;
    var first := args[0];
    PrintedStarts(first);
    if |args| == 1 {
      PrintedParses(first, rest);
      AloneParses(TokensOf(first).value + rest, Erase(first), rest);
      assert args[1..] == [] && EraseAll(args) == [Erase(first)] + EraseAll(args[1..]) == [Erase(first)];
    } else {
      var more := TokensOfArgs(args[1..]).value;
      var after := [Comma] + (more + rest);
      PrintedArgsParse(args[1..], rest);
      PrintedParses(first, after);
      AloneParses(TokensOf(first).value + after, Erase(first), after);
      assert TokensOfArgs(args).value + rest == TokensOf(first).value + after;
      assert after[1..] == more + rest;
    }
  }

  // ---- Names that are not identifiers --------------------------------------------------------

  /** What follows is neither an operator nor the end of an operand, so the expression around it fails. */
  predicate StuckAt(ts: seq<Token>) {
    ts != [] && (ts[0].LParen? || ts[0].Ident? || ts[0].NullWord?)
  }

  predicate Stuck(r: Parsed) {
    r.Some? ==> StuckAt(r.value.1)
  }

  lemma StuckNoOp(ts: seq<Token>)
    requires StuckAt(ts)
    ensures NoOpUpTo(ts, 2) && !Closes(ts)
  {
  }

  lemma {:induction false} StuckAtLevel(ts: seq<Token>, level: nat)
    requires Stuck(ParseUnary(ts)) && level <= 2
    ensures Stuck(ParseLevel(ts, level)) && Stuck(ParseOperand(ts, level))
  {
    hide ParseUnary, OpAt;
    if level > 0 {
      StuckAtLevel(ts, level - 1);
    }
    if ParseOperand(ts, level).Some? {
      var (x, rest) := ParseOperand(ts, level).value;
      StuckNoOp(rest);
      MoreUnfolds(x, rest, level);
    }
  }

  lemma StuckInParens(inner: seq<Token>, rest: seq<Token>)
    requires Stuck(ParseExpr(inner + ([RParen] + rest)))
    ensures ParseUnary([LParen] + (inner + [RParen]) + rest) == None
  {
    hide ParseExpr;
    assert ([LParen] + (inner + [RParen]) + rest)[1..] == inner + ([RParen] + rest);
  }

  lemma StuckAfterSign(sign: Token, ts: seq<Token>)
    requires sign in {Plus, Minus} && ParseUnary(ts) == None
    ensures ParseUnary([sign] + ts) == None
  {
    assert ([sign] + ts)[1..] == ts;
  }

  /** An operand, an operator and then something stuck. */
  lemma StuckInfix(op: BinOp, ts: seq<Token>, x: Expr, more: seq<Token>)
    requires ParseUnary(ts) == Some((x, [OpToken(op)] + more)) && Stuck(ParseUnary(more))
    ensures Stuck(ParseExpr(ts))
  {
    hide ParseUnary, OpAt, ParseOperand;
    var k := OpLevel(op);
    var after := [OpToken(op)] + more;
    forall j: nat | j <= 2
      ensures OpAt(after, j) == if j == k then Some(op) else None
    {
      OpAtItsLevel(op, more, j);
    }
    OperandOf(ts, x, after, k);
    assert after[1..] == more;
    StuckAtLevel(more, k);
    MoreUnfolds(x, after, k);
    if ParseOperand(more, k).Some? {
      var (y, rest) := ParseOperand(more, k).value;
      StuckNoOp(rest);
      MoreUnfolds(Bin(op, x, y), rest, k);
      LiftLevel(ts, Bin(op, x, y), rest, k, 2);
    } else {
      NoneLifts(ts, k, 2);
    }
  }

  lemma {:induction false} NoneLifts(ts: seq<Token>, low: nat, high: nat)
    requires low <= high && ParseLevel(ts, low) == None
    ensures ParseLevel(ts, high) == None
  {
    hide ParseMore, ParseUnary;
    if low < high {
      NoneLifts(ts, low, high - 1);
    }
  }

  /** A call whose name is not an identifier stops right after what the name fell into. */
  lemma BadNameSticks(name: string, args: seq<Spec>, rest: seq<Token>)
    requires TokensOf(Function(name, args)).Some? && !IsIdentifier(name)
    ensures Stuck(ParseUnary(TokensOf(Function(name, args)).value + rest))
  {
    hide TokensOf, TokensOfArgs, ParseExpr, ParseArgs;
    TokensOfCall(name, args);
    var n, ts := TokensOfName(name).value, TokensOf(Function(name, args)).value + rest;
    BadNameTokens(name);
    assert ts[..|n|] == n && ts[|n|] == LParen;
    assert ts[1..][0] == if |n| == 1 then LParen else n[1];
  }

  lemma BadNameTokens(name: string)
    requires TokensOfName(name).Some? && !IsIdentifier(name)
    ensures var n := TokensOfName(name).value;
            && 1 <= |n| <= 2 && (n[0].IntToken? || n[0].NullWord?)
            && (|n| == 2 ==> n[1].Ident? || n[1].NullWord?)
  {
    hide NumberLength;
    assert name[0] in name;
    assert !IsDigit(name[0]) ==> IsWordStart(name[0]);
    if IsDigit(name[0]) {
      NumberBeforeWord(name, "(");
      var d := name[..NumberLength(name, false)];
      assert '.' !in d;
    }
  }

  /** An expression with such a name never parses to an operand that anything can follow. */
  lemma {:induction false} BadNamesStick(e: Spec, rest: seq<Token>)
    requires TokensOf(e).Some? && !Named(e)
    ensures Stuck(ParseUnary(TokensOf(e).value + rest))
    decreases e
  {
    hide ParseUnary, ParseExpr, TokensOf, IsIdentifier, Stuck;
    match e {
      case Nested(inner) => BadInnerSticks(e, rest);
      case Negate(inner) => BadInnerSticks(e, rest);
      case Positive(inner) => BadInnerSticks(e, rest);
      case Binary(left, op, right) => BadOperandSticks(left, op, right, rest);
      case Function(name, args) =>
        if !IsIdentifier(name) {
          BadNameSticks(name, args, rest);
        } else {
          TokensOfCall(name, args);
          BadArgsStick(args, [RParen] + rest);
          BadCallSticks(name, args, rest);
        }
      case _ =>
    }
  }

  lemma {:induction false} BadInnerSticks(e: Spec, rest: seq<Token>)
    requires (e.Nested? || e.Negate? || e.Positive?) && TokensOf(e).Some? && !Named(e.inner)
    ensures Stuck(ParseUnary(TokensOf(e).value + rest))
    decreases e, 0
  {
    hide ParseUnary, ParseExpr, TokensOf, Named;
    TokensOfInner(e);
    var ts := TokensOf(e.inner).value;
    BadNamesStick(e.inner, [RParen] + rest);
    StuckAtLevel(ts + ([RParen] + rest), 2);
    ExprIsLevelTwo(ts + ([RParen] + rest));
    StuckInParens(ts, rest);
    var group := [LParen] + (ts + [RParen]);
    if !e.Nested? {
      var sign := if e.Negate? then Minus else Plus;
      assert TokensOf(e).value + rest == [sign] + (group + rest);
      StuckAfterSign(sign, group + rest);
    }
  }

  lemma ExprIsLevelTwo(ts: seq<Token>)
    ensures ParseExpr(ts) == ParseLevel(ts, 2)
  {
  }

  lemma {:induction false} BadOperandSticks(left: Spec, op: BinOp, right: Spec, rest: seq<Token>)
    requires TokensOf(Binary(left, op, right)).Some? && !(Named(left) && Named(right))
    ensures Stuck(ParseUnary(TokensOf(Binary(left, op, right)).value + rest))
    decreases Binary(left, op, right), 0
  {
    hide ParseUnary, ParseExpr, TokensOf, Named, Erase;
    TokensOfBinary(left, op, right);
    var l, r := TokensOf(left).value, TokensOf(right).value;
    var more := r + ([RParen] + rest);
    var inner := l + ([OpToken(op)] + r);
    assert inner + ([RParen] + rest) == l + ([OpToken(op)] + more);
    if !Named(left) {
      BadNamesStick(left, [OpToken(op)] + more);
      StuckAtLevel(l + ([OpToken(op)] + more), 2);
      ExprIsLevelTwo(l + ([OpToken(op)] + more));
    } else {
      PrintedParses(left, [OpToken(op)] + more);
      BadNamesStick(right, [RParen] + rest);
      StuckInfix(op, l + ([OpToken(op)] + more), Erase(left), more);
    }
    StuckInParens(inner, rest);
  }

  ghost predicate ArgsStuck(r: Option<(seq<Expr>, seq<Token>)>) {
    r.Some? ==> StuckAt(r.value.1)
  }

  lemma {:induction false} BadArgsStick(args: seq<Spec>, rest: seq<Token>)
    requires TokensOfArgs(args).Some? && !(forall i :: 0 <= i < |args| ==> Named(args[i]))
    ensures StartsAnArgument(TokensOfArgs(args).value)
    ensures ArgsStuck(ParseArgs(TokensOfArgs(args).value + rest))
    decreases args
  {
    hide ParseExpr, TokensOf, Named, Erase, ParseUnary;
    var first := args[0];
    PrintedStarts(first);
    var ts := TokensOf(first).value;
    if |args| == 1 {
      BadNamesStick(first, rest);
      StuckAtLevel(ts + rest, 2);
      ExprIsLevelTwo(ts + rest);
    } else {
      var more := TokensOfArgs(args[1..]).value;
      var after := [Comma] + (more + rest);
      assert TokensOfArgs(args).value + rest == ts + after;
      if !Named(first) {
        BadNamesStick(first, after);
        StuckAtLevel(ts + after, 2);
        ExprIsLevelTwo(ts + after);
      } else {
        assert forall i :: 1 <= i < |args| ==> args[i] == args[1..][i - 1];
        BadArgsStick(args[1..], rest);
        PrintedParses(first, after);
        AloneParses(ts + after, Erase(first), after);
        assert after[1..] == more + rest;
      }
    }
  }

  lemma BadCallSticks(name: string, args: seq<Spec>, rest: seq<Token>)
    requires TokensOf(Function(name, args)).Some? && TokensOfArgs(args).Some? && IsIdentifier(name)
    requires StartsAnArgument(TokensOfArgs(args).value)
    requires ArgsStuck(ParseArgs(TokensOfArgs(args).value + ([RParen] + rest)))
    ensures Stuck(ParseUnary(TokensOf(Function(name, args)).value + rest))
  {
    hide ParseArgs, TokensOf, TokensOfName, IsIdentifier, TokensOfArgs;
    TokensOfCall(name, args);
    var ts := TokensOf(Function(name, args)).value + rest;
    var inner := TokensOfArgs(args).value;
    assert ts[1..] == [LParen] + (inner + ([RParen] + rest));
    assert ts[2..] == inner + ([RParen] + rest);
  }

  // ---- The round trip ------------------------------------------------------------------------

  /** Tokens of a text that the expression parser consumes whole. */
  function ReadTokens(ts: Option<seq<Token>>): Option<Expr> {
    if ts.None? then None
    else
      match ParseExpr(ts.value)
      case None => None
      case Some((e, rest)) => if rest == [] then Some(e) else None
  }

  /** What the lite shell makes of a text given as bytes read as characters. */
  function Read(text: string): Option<Expr> {
    ReadTokens(Lex(text))
  }

  /** Every integer has a magnitude that fits `i64`. */
  predicate Readable(e: Spec) {
    match e
    case NullSpec => true
    case IntegerSpec(n) => -I64_MAX <= n <= I64_MAX
    case TextSpec(_) => true
    case Nested(inner) => Readable(inner)
    case Negate(inner) => Readable(inner)
    case Positive(inner) => Readable(inner)
    case Binary(left, _, right) => Readable(left) && Readable(right)
    case Function(_, args) => forall i :: 0 <= i < |args| ==> Readable(args[i])
  }

  lemma {:induction false} ReadableHasTokens(e: Spec)
    requires Named(e)
    ensures Readable(e) <==> TokensOf(e).Some?
    decreases e
  {
    hide NumberLength, NumberToken;
    match e {
      case Nested(inner) => ReadableHasTokens(inner);
      case Negate(inner) => ReadableHasTokens(inner);
      case Positive(inner) => ReadableHasTokens(inner);
      case Binary(left, _, right) =>
        ReadableHasTokens(left);
        ReadableHasTokens(right);
      case Function(name, args) =>
        ReadableArgsHaveTokens(args);
        assert TokensOfName(name) == Some([Ident(name)]);
      case _ =>
    }
  }

  lemma {:induction false} ReadableArgsHaveTokens(args: seq<Spec>)
    requires forall i :: 0 <= i < |args| ==> Named(args[i])
    ensures (forall i :: 0 <= i < |args| ==> Readable(args[i])) <==> TokensOfArgs(args).Some?
    decreases args
  {
    hide Readable, TokensOf, Named;
    if args != [] {
      ReadableHasTokens(args[0]);
      ReadableArgsHaveTokens(args[1..]);
      assert forall i :: 1 <= i < |args| ==> args[i] == args[1..][i - 1];
    }
  }

  /** An expression reads back exactly when its names are identifiers and no integer is `i64::MIN`. */
  lemma PrintReadsBack(e: Spec)
    ensures Read(Print(e)) == if Named(e) && Readable(e) then Some(Erase(e)) else None
  {
    hide Lex, ParseExpr, Print, TokensOf, Erase, Readable, Named, ParseUnary;
    PrintedLexes(e, "");
    assert Print(e) + "" == Print(e);
    EndOfInput();
    if TokensOf(e).Some? {
      var ts := TokensOf(e).value;
      assert ts + [] == ts;
      if Named(e) {
        PrintedParses(e, []);
        AloneParses(ts, Erase(e), []);
      } else {
        BadNamesStick(e, []);
        StuckAtLevel(ts, 2);
        ExprIsLevelTwo(ts);
      }
    }
    if Named(e) {
      ReadableHasTokens(e);
    }
  }

  lemma SmallestIntegerIsNotRead()
    ensures Read(Print(IntegerSpec(I64_MIN))) == None
  {
    PrintReadsBack(IntegerSpec(I64_MIN));
  }

  /** The tokenizer and the parser object together compute `Read`. */
  method ReadExpression(text: string) returns (r: Option<Expr>)
    ensures r == Read(text)
  {
    hide Lex, ParseExpr;
    var tokens := Tokenize(text);
    if tokens.None? {
      return None;
    }
    var parser := new Parser(tokens.value);
    assert parser.Rest() == tokens.value;
    var e := parser.Expression();
    return if e.Some? && parser.pos == |tokens.value| then e else None;
  }
}
