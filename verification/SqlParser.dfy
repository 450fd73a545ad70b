/** The precedence-climbing parser of `crates/redlinedb-lite/src/shellzero.rs`. */
module SqlParser {
  import opened Chars
  import opened SqlSyntax

  type Parsed = Option<(Expr, seq<Token>)>

  predicate Shorter(r: Parsed, ts: seq<Token>) {
    r.Some? ==> |r.value.1| < |ts|
  }

  predicate Starts(ts: seq<Token>, t: Token) {
    ts != [] && ts[0] == t
  }

  /** `||` binds loosest, then + and -, then *, / and %. */
  function OpAt(ts: seq<Token>, level: nat): Option<BinOp> {
    if ts == [] then None
    else match (level, ts[0])
      case (2, Bars) => Some(Concat)
      case (1, Plus) => Some(Add)
      case (1, Minus) => Some(Sub)
      case (0, Star) => Some(Mul)
      case (0, Slash) => Some(Div)
      case (0, Percent) => Some(Mod)
      case _ => None
  }

  /** The operand of a level: the next tighter level, or a unary expression. */
  function ParseOperand(ts: seq<Token>, level: nat): (r: Parsed)
    ensures Shorter(r, ts)
    decreases |ts|, level + 1, 0
  {
    if level == 0 then ParseUnary(ts) else ParseLevel(ts, level - 1)
  }

  /** `parse_muldiv`, `parse_addsub` and `parse_concat` are levels 0, 1 and 2. */
  function ParseLevel(ts: seq<Token>, level: nat): (r: Parsed)
    ensures Shorter(r, ts)
    decreases |ts|, level + 1, 1
  {
    match ParseOperand(ts, level)
    case None => None
    case Some((left, rest)) => ParseMore(left, rest, level)
  }

  /** The loop of a level: operators of the level associate to the left. */
  function ParseMore(left: Expr, ts: seq<Token>, level: nat): (r: Parsed)
    ensures r.Some? ==> |r.value.1| <= |ts|
    decreases |ts|, level + 1, 1
  {
    match OpAt(ts, level)
    case None => Some((left, ts))
    case Some(op) =>
      match ParseOperand(ts[1..], level)
      case None => None
      case Some((right, rest)) => ParseMore(Bin(op, left, right), rest, level)
  }

  function ParseExpr(ts: seq<Token>): (r: Parsed)
    ensures Shorter(r, ts)
    decreases |ts|, 4, 0
  {
    ParseLevel(ts, 2)
  }

  function ParseUnary(ts: seq<Token>): (r: Parsed)
    ensures Shorter(r, ts)
    decreases |ts|, 0, 1
  {
    if Starts(ts, Minus) then
      match ParseUnary(ts[1..])
      case None => None
      case Some((inner, rest)) => Some((Neg(inner), rest))
    else if Starts(ts, Plus) then ParseUnary(ts[1..])
    else ParseAtom(ts)
  }

  function ParseAtom(ts: seq<Token>): (r: Parsed)
    ensures Shorter(r, ts)
    decreases |ts|, 0, 0
  {
    if ts == [] then None
    else match ts[0]
      case IntToken(n) => Some((Lit(Int(n)), ts[1..]))
      case RealToken(literal) => Some((Lit(Real(literal)), ts[1..]))
      case Str(text) => Some((Lit(Text(text)), ts[1..]))
      case NullWord => Some((Lit(Null), ts[1..]))
      case LParen =>
        (match ParseExpr(ts[1..])
         case None => None
         case Some((inner, rest)) => if Starts(rest, RParen) then Some((inner, rest[1..])) else None)
      case Ident(name) =>
        if !Starts(ts[1..], LParen) then None
        else if Starts(ts[2..], RParen) then Some((Call(name, []), ts[3..]))
        else
          (match ParseArgs(ts[2..])
           case None => None
           case Some((args, rest)) => if Starts(rest, RParen) then Some((Call(name, args), rest[1..])) else None)
      case _ => None
  }

  /** One or more expressions separated by commas. */
  function ParseArgs(ts: seq<Token>): (r: Option<(seq<Expr>, seq<Token>)>)
    ensures r.Some? ==> |r.value.1| < |ts|
    decreases |ts|, 5, 0
  {
    match ParseExpr(ts)
    case None => None
    case Some((first, rest)) =>
      if !Starts(rest, Comma) then Some(([first], rest))
      else
        match ParseArgs(rest[1..])
        case None => None
        case Some((others, after)) => Some(([first] + others, after))
  }

  // ---- The parser object ---------------------------------------------------------------------

  class Parser {
    const toks: seq<Token>
    var pos: nat

    constructor (tokens: seq<Token>)
      ensures toks == tokens && pos == 0
    {
      toks := tokens;
      pos := 0;
    }

    ghost predicate Valid()
      reads this
    {
      pos <= |toks|
    }

    ghost function Rest(): seq<Token>
      requires Valid()
      reads this
    {
      toks[pos..]
    }

    /** The method agrees with the function, and stops where it stops. */
    ghost predicate Follows(start: nat, r: Option<Expr>, spec: Parsed)
      reads this
    {
      && start <= pos <= |toks|
      && (r.None? <==> spec.None?)
      && (r.Some? ==> r.value == spec.value.0 && toks[pos..] == spec.value.1)
    }

    method ParseLevelAt(level: nat) returns (r: Option<Expr>)
      requires Valid()
      modifies this
      ensures Follows(old(pos), r, ParseLevel(old(Rest()), level))
      decreases |toks| - pos, level + 1, 1
    {
      hide ParseOperand, ParseMore, OpAt;
      ghost var ts := Rest();
      var first := Operand(level);
      if first.None? {
        return None;
      }
      var left := first.value;
      ghost var start := old(pos);
      while OpAt(toks[pos..], level).Some?
        invariant start < pos <= |toks| && ParseLevel(ts, level) == ParseMore(left, toks[pos..], level)
        decreases |toks| - pos
      {
        ghost var rest := toks[pos..];
        MoreUnfolds(left, rest, level);
        var op := OpAt(toks[pos..], level).value;
        pos := pos + 1;
        assert rest[1..] == toks[pos..];
        var right := Operand(level);
        if right.None? {
          return None;
        }
        left := Bin(op, left, right.value);
      }
      MoreUnfolds(left, toks[pos..], level);
      return Some(left);
    }

    method Operand(level: nat) returns (r: Option<Expr>)
      requires Valid()
      modifies this
      ensures Follows(old(pos), r, ParseOperand(old(Rest()), level)) && (r.Some? ==> old(pos) < pos)
      decreases |toks| - pos, level + 1, 0
    {
      if level == 0 {
        r := Unary();
      } else {
        r := ParseLevelAt(level - 1);
      }
    }

    method Expression() returns (r: Option<Expr>)
      requires Valid()
      modifies this
      ensures Follows(old(pos), r, ParseExpr(old(Rest())))
      decreases |toks| - pos, 4, 0
    {
      r := ParseLevelAt(2);
    }

    method Unary() returns (r: Option<Expr>)
      requires Valid()
      modifies this
      ensures Follows(old(pos), r, ParseUnary(old(Rest())))
      decreases |toks| - pos, 0, 1
    {
      hide ParseAtom;
      ghost var ts := Rest();
      if pos < |toks| && toks[pos] == Minus {
        pos := pos + 1;
        assert toks[pos..] == ts[1..];
        var inner := Unary();
        return if inner.Some? then Some(Neg(inner.value)) else None;
      }
      if pos < |toks| && toks[pos] == Plus {
        pos := pos + 1;
        assert toks[pos..] == ts[1..];
        r := Unary();
        return;
      }
      r := Atom();
    }

    method Atom() returns (r: Option<Expr>)
      requires Valid()
      modifies this
      ensures Follows(old(pos), r, ParseAtom(old(Rest())))
      decreases |toks| - pos, 0, 0
    {
      hide ParseExpr, ParseArgs;
      ghost var ts := Rest();
      if pos >= |toks| {
        return None;
      }
      var tok := toks[pos];
      pos := pos + 1;
      assert toks[pos..] == ts[1..];
      match tok {
        case IntToken(n) => return Some(Lit(Int(n)));
        case RealToken(literal) => return Some(Lit(Real(literal)));
        case Str(text) => return Some(Lit(Text(text)));
        case NullWord => return Some(Lit(Null));
        case LParen =>
          var inner := Expression();
          if inner.None? || pos >= |toks| || toks[pos] != RParen {
            return None;
          }
          pos := pos + 1;
          return inner;
        case Ident(name) =>
          if pos >= |toks| || toks[pos] != LParen {
            return None;
          }
          pos := pos + 1;
          assert toks[pos..] == ts[2..];
          var args: Option<seq<Expr>> := Some([]);
          if pos >= |toks| || toks[pos] != RParen {
            args := Arguments();
          }
          if args.None? || pos >= |toks| || toks[pos] != RParen {
            return None;
          }
          pos := pos + 1;
          return Some(Call(name, args.value));
        case _ => return None;
      }
    }

    method Arguments() returns (r: Option<seq<Expr>>)
      requires Valid()
      modifies this
      ensures old(pos) <= pos <= |toks|
      ensures r.None? <==> ParseArgs(old(Rest())).None?
      ensures r.Some? ==> (r.value, toks[pos..]) == ParseArgs(old(Rest())).value
      decreases |toks| - pos, 5, 0
    {
      hide ParseExpr;
      var args: seq<Expr> := [];
      ghost var ts := Rest();
      ArgsAfterNothing(ts);
      while true
        invariant old(pos) <= pos <= |toks|
        invariant ParseArgs(ts) == ArgsAfter(args, ParseArgs(toks[pos..]))
        decreases |toks| - pos
      {
        ghost var rest := toks[pos..];
        var arg := Expression();
        if arg.None? {
          return None;
        }
        ArgsUnfold(args, rest);
        args := args + [arg.value];
        if pos >= |toks| || toks[pos] != Comma {
          return Some(args);
        }
        ghost var after := toks[pos..];
        pos := pos + 1;
        assert after[1..] == toks[pos..];
      }
    }
  }

  lemma MoreUnfolds(left: Expr, ts: seq<Token>, level: nat)
    ensures OpAt(ts, level) == None ==> ParseMore(left, ts, level) == Some((left, ts))
    ensures OpAt(ts, level).Some? ==> ts != []
    ensures ts != [] && OpAt(ts, level).Some? ==>
              var right := ParseOperand(ts[1..], level);
              ParseMore(left, ts, level) ==
              if right.None? then None
              else ParseMore(Bin(OpAt(ts, level).value, left, right.value.0), right.value.1, level)
  {
  }

  function ArgsAfter(args: seq<Expr>, r: Option<(seq<Expr>, seq<Token>)>): Option<(seq<Expr>, seq<Token>)> {
    if r.Some? then Some((args + r.value.0, r.value.1)) else None
  }

  lemma ArgsAfterNothing(ts: seq<Token>)
    ensures ArgsAfter([], ParseArgs(ts)) == ParseArgs(ts)
  {
    var r := ParseArgs(ts);
    assert r.Some? ==> [] + r.value.0 == r.value.0;
  }

  lemma ArgsUnfold(args: seq<Expr>, ts: seq<Token>)
    requires ParseExpr(ts).Some?
    ensures var (first, rest) := ParseExpr(ts).value;
            ArgsAfter(args, ParseArgs(ts)) ==
            if Starts(rest, Comma) then ArgsAfter(args + [first], ParseArgs(rest[1..])) else Some((args + [first], rest))
  {
    hide ParseExpr;
    var (first, rest) := ParseExpr(ts).value;
    if Starts(rest, Comma) && ParseArgs(rest[1..]).Some? {
      var others := ParseArgs(rest[1..]).value.0;
      assert args + ([first] + others) == args + [first] + others;
    }
  }
}
