/**
 A SELECT without FROM in the lite shell, `eval_fromless_select` of
 `crates/redlinedb-lite/src/shellzero.rs`: from the text of a statement to the row it prints.
 */
module ShellStatements {
  import opened Chars
  import opened Joining
  import opened Decimal
  import opened SqlSyntax
  import opened Printer
  import opened Lexer
  import opened SqlParser
  import opened PrintedTokens
  import opened SqlRoundTrip
  import opened TextBytes
  import opened SqlEval
  import opened SqlMeaning
  import opened Shell

  /** What one column comes to: its text, a decline, or a panic. */
  datatype Column = Shown(text: string) | Unknown | Fatal

  /** `dot` are the dot commands, and `withReal` the columns with a real literal in them. */
  datatype Settings = Settings(
    separator: string, rowSeparator: string, nullText: string, maps: CaseMaps,
    dot: string -> Effect, withReal: Expr -> Column)

  function ColumnOf(st: Settings, e: Expr): Column {
    if !RealFree(e) then st.withReal(e)
    else
      match Eval(st.maps, e)
      case Done(v) => Shown(Rendered(v, st.nullText))
      case Declined => Unknown
      case Panicked => Fatal
  }

  // ---- The column list -----------------------------------------------------------------------

  datatype Row = Columns(texts: seq<string>) | NoRow | Broken

  /** What follows an optional `AS name`, or None when the name is missing. */
  function AfterAlias(ts: seq<Token>): (r: Option<seq<Token>>)
    ensures r.Some? ==> |r.value| <= |ts|
  {
    if ts != [] && ts[0].Ident? && AsciiLower(ts[0].name) == "as" then
      if |ts| > 1 && ts[1].Ident? then Some(ts[2..]) else None
    else Some(ts)
  }

  /** Columns are parsed and evaluated one after the other, up to the end of the tokens. */
  function SelectList(st: Settings, ts: seq<Token>): Row
    decreases |ts|
  {
    match ParseExpr(ts)
    case None => NoRow
    case Some((e, rest)) =>
      match ColumnOf(st, e)
      case Unknown => NoRow
      case Fatal => Broken
      case Shown(text) =>
        match AfterAlias(rest)
        case None => NoRow
        case Some(after) =>
          if after == [] then Columns([text])
          else if after[0] != Comma then NoRow
          else Prefixed(text, SelectList(st, after[1..]))
  }

  function Prefixed(text: string, row: Row): Row {
    if row.Columns? then Columns([text] + row.texts) else row
  }

  /** The row so far, with what is still to come. */
  function Continued(done: seq<string>, row: Row): Row {
    if row.Columns? then Columns(done + row.texts) else row
  }

  /** The loop of `eval_fromless_select`. */
  method EvalList(st: Settings, tokens: seq<Token>) returns (r: Row)
    ensures r == SelectList(st, tokens)
  {
    hide ParseExpr, ColumnOf;
    var values: seq<string> := [];
    var ts := tokens;
    while true
      invariant SelectList(st, tokens) == Continued(values, SelectList(st, ts))
      decreases |ts|
    {
      var p := ParseExpr(ts);
      if p.None? {
        return NoRow;
      }
      var column := ColumnOf(st, p.value.0);
      match column {
        case Unknown => return NoRow;
        case Fatal => return Broken;
        case Shown(text) =>
          values := values + [text];
      }
      var after := AfterAlias(p.value.1);
      if after.None? {
        return NoRow;
      }
      if after.value == [] {
        return Columns(values);
      }
      if after.value[0] != Comma {
        return NoRow;
      }
      ts := after.value[1..];
    }
  }

  // ---- The statement -------------------------------------------------------------------------

  /** `trim_end_matches(';')`. */
  function TrimSemicolons(s: string): string {
    if s != "" && s[|s| - 1] == ';' then TrimSemicolons(s[..|s| - 1]) else s
  }

  /** Words after which the full program is needed, wherever they appear. */
  const KEYWORDS := [" from ", " where ", " group ", " order ", " limit ", " having ", " union ", " intersect ",
                     " except ", " window ", " with "]

  predicate NeedsTables(body: string) {
    var lower := AsciiLower(body);
    (exists k <- KEYWORDS :: Contains(lower, k)) || "from " <= lower || "where " <= lower || "with " <= lower
  }

  /** The column list of a SELECT that needs no tables. */
  function SelectBody(stmt: string): Option<string> {
    var t := Trim(TrimSemicolons(stmt));
    var lower := AsciiLower(t);
    if !("select" <= lower) || |lower| == 6 || !IsWhitespace(lower[6]) then None
    else
      var body := TrimStart(t[6..]);
      if body == "" || NeedsTables(body) then None else Some(body)
  }

  function RowLine(st: Settings, texts: seq<string>): string {
    Join(texts, st.separator) + st.rowSeparator
  }

  /** `render_row`. */
  method RenderRow(st: Settings, texts: seq<string>) returns (out: string)
    ensures out == RowLine(st, texts)
  {
    hide Join;
    out := "";
    var first := true;
    NothingJoined(st.separator);
    for i := 0 to |texts|
      invariant first == (i == 0) && out == Join(texts[..i], st.separator)
    {
      if !first {
        out := out + st.separator;
      }
      out := out + texts[i];
      first := false;
      JoinAppend(texts[..i], texts[i], st.separator);
      assert texts[..i + 1] == texts[..i] + [texts[i]];
    }
    assert texts[..|texts|] == texts;
    out := out + st.rowSeparator;
  }

  lemma NothingJoined(separator: string)
    ensures Join([], separator) == ""
  {
  }

  /** A row ends with the row separator and comes apart at its separators when no column has one. */
  lemma RowComesApart(st: Settings, texts: seq<string>, c: char)
    requires st.separator == [c] && texts != [] && forall t <- texts :: c !in t
    ensures exists columns :: RowLine(st, texts) == columns + st.rowSeparator && Split(columns, c) == texts
  {
    hide Join, Split;
    JoinSplits(texts, c);
  }

  function RunSelect(st: Settings, stmt: string): Effect {
    match SelectBody(stmt)
    case None => Refused
    case Some(body) =>
      match Lex(Bytewise(body))
      case None => Refused
      case Some(ts) =>
        match SelectList(st, ts)
        case Columns(texts) => Output(RowLine(st, texts))
        case NoRow => Refused
        case Broken => Panic
  }

  /** What `dispatch` does with one trimmed statement. */
  function RunStatement(st: Settings, stmt: string): Effect {
    if stmt != "" && stmt[0] == '.' then st.dot(stmt[1..]) else RunSelect(st, stmt)
  }

  // ---- Printed arithmetic as a column list ---------------------------------------------------

  predicate AreArithmetic(es: seq<Spec>) {
    es != [] && forall e <- es :: IsArithmeticSpec(e)
  }

  /** The exact row the builder meant, or how evaluation stops at its first column without a value. */
  function MeantRow(st: Settings, es: seq<Spec>): Row
    requires forall e <- es :: IsArithmeticSpec(e) && Readable(e)
  {
    if es == [] then Columns([])
    else if MeaningFits(es[0]) then
      Prefixed(Rendered(ValueOf(Meaning(es[0])), st.nullText), MeantRow(st, es[1..]))
    else
      assert IsArithmetic(Erase(es[0])) by { EraseKeepsMeaning(es[0]); }
      if Traps(Erase(es[0])) then Broken else NoRow
  }

  lemma ColumnIsMeant(st: Settings, e: Spec)
    requires IsArithmeticSpec(e) && Readable(e)
    ensures IsArithmetic(Erase(e))
    ensures ColumnOf(st, Erase(e)) ==
            if MeaningFits(e) then Shown(Rendered(ValueOf(Meaning(e)), st.nullText))
            else if Traps(Erase(e)) then Fatal else Unknown
  {
    hide Eval, Erase, RealFree, Meaning, MeaningFits, IsArithmeticSpec, IsArithmetic, Exact, FitsThroughout, Traps, Readable;
    EraseKeepsMeaning(e);
    ArithmeticIsRealFree(Erase(e));
    ArithmeticRefinesIntegers(st.maps, Erase(e));
  }

  lemma TokensOfList(es: seq<Spec>)
    requires es != [] && TokensOfArgs(es).Some?
    ensures TokensOf(es[0]).Some? && (|es| > 1 ==> TokensOfArgs(es[1..]).Some?)
    ensures TokensOfArgs(es).value ==
            TokensOf(es[0]).value + if |es| == 1 then [] else [Comma] + TokensOfArgs(es[1..]).value
  {
    hide TokensOf;
    if |es| == 1 {
      assert TokensOf(es[0]).value + [] == TokensOf(es[0]).value;
    }
  }

  lemma {:induction false} ListIsMeant(st: Settings, es: seq<Spec>)
    requires AreArithmetic(es) && TokensOfArgs(es).Some?
    requires forall e <- es :: Named(e) && Readable(e)
    ensures SelectList(st, TokensOfArgs(es).value) == MeantRow(st, es)
    decreases |es|
  {
    hide ParseExpr, ColumnOf, TokensOf, TokensOfArgs, Meaning, MeaningFits, Traps, IsArithmetic, IsArithmeticSpec, Readable,
         Named, Erase, Rendered;
    var e, ts := es[0], TokensOfArgs(es).value;
    TokensOfList(es);
    ColumnIsMeant(st, e);
    var rest := if |es| == 1 then [] else [Comma] + TokensOfArgs(es[1..]).value;
    FirstColumnParses(e, rest);
    assert AfterAlias(rest) == Some(rest);
    if |es| == 1 {
      assert es[1..] == [] && MeantRow(st, []) == Columns([]);
    } else {
      assert rest[1..] == TokensOfArgs(es[1..]).value;
      ListIsMeant(st, es[1..]);
    }
  }

  lemma FirstColumnParses(e: Spec, rest: seq<Token>)
    requires TokensOf(e).Some? && Named(e) && (rest == [] || rest[0] == Comma)
    ensures ParseExpr(TokensOf(e).value + rest) == Some((Erase(e), rest))
  {
    hide ParseExpr, ParseUnary, TokensOf, Erase, Named;
    PrintedParses(e, rest);
    AloneParses(TokensOf(e).value + rest, Erase(e), rest);
  }

  // ---- Aliases -------------------------------------------------------------------------------

  /** `AS name`, in any case, or nothing. */
  datatype Alias = Alias(keyword: string, name: string) | NoAlias

  predicate IsAlias(a: Alias) {
    a.Alias? ==> AsciiLower(a.keyword) == "as"
  }

  function AliasTokens(a: Alias): seq<Token> {
    if a.Alias? then [Ident(a.keyword), Ident(a.name)] else []
  }

  function AliasedTokens(es: seq<Spec>, aliases: seq<Alias>): seq<Token>
    requires |es| == |aliases| && forall e <- es :: TokensOf(e).Some?
  {
    if es == [] then []
    else
      TokensOf(es[0]).value + (AliasTokens(aliases[0]) +
                               if |es| == 1 then [] else [Comma] + AliasedTokens(es[1..], aliases[1..]))
  }

  /** Names given to the columns do not change the row. */
  lemma {:induction false} AliasesChangeNothing(st: Settings, es: seq<Spec>, aliases: seq<Alias>)
    requires AreArithmetic(es) && |aliases| == |es| && forall a <- aliases :: IsAlias(a)
    requires forall e <- es :: Named(e) && Readable(e) && TokensOf(e).Some?
    ensures SelectList(st, AliasedTokens(es, aliases)) == MeantRow(st, es)
    decreases |es|
  {
    hide ParseExpr, ColumnOf, TokensOf, Meaning, MeaningFits, Traps, IsArithmetic, IsArithmeticSpec, Readable, Named, Erase,
         Rendered, AliasTokens, AfterAlias, IsAlias;
    var e, a := es[0], aliases[0];
    ColumnIsMeant(st, e);
    var rest := if |es| == 1 then [] else [Comma] + AliasedTokens(es[1..], aliases[1..]);
    AliasedColumnParses(e, a, rest);
    if |es| == 1 {
      assert es[1..] == [] && MeantRow(st, []) == Columns([]);
    } else {
      assert rest[1..] == AliasedTokens(es[1..], aliases[1..]);
      AliasesChangeNothing(st, es[1..], aliases[1..]);
    }
  }

  lemma AliasedColumnParses(e: Spec, a: Alias, rest: seq<Token>)
    requires TokensOf(e).Some? && Named(e) && IsAlias(a) && (rest == [] || rest[0] == Comma)
    ensures var ts := AliasTokens(a) + rest;
            ParseExpr(TokensOf(e).value + ts) == Some((Erase(e), ts)) && AfterAlias(ts) == Some(rest)
  {
    hide ParseUnary, ParseLevel, TokensOf, Erase, Named, NoOpUpTo;
    var ts := AliasTokens(a) + rest;
    PrintedParses(e, ts);
    AliasIsNoOp(a, rest);
    OperandAlone(TokensOf(e).value + ts, Erase(e), ts, 2);
  }

  lemma AliasIsNoOp(a: Alias, rest: seq<Token>)
    requires IsAlias(a) && (rest == [] || rest[0] == Comma)
    ensures NoOpUpTo(AliasTokens(a) + rest, 2) && AfterAlias(AliasTokens(a) + rest) == Some(rest)
  {
    var ts := AliasTokens(a) + rest;
    if a.Alias? {
      assert ts[0] == Ident(a.keyword) && ts[1] == Ident(a.name) && ts[2..] == rest;
    } else {
      assert ts == rest;
    }
  }

  /** After `AS` only a name will do. */
  lemma AliasNeedsName(keyword: string, rest: seq<Token>)
    requires AsciiLower(keyword) == "as" && (rest == [] || !rest[0].Ident?)
    ensures AfterAlias([Ident(keyword)] + rest) == None
  {
  }

  // ---- The text of such a statement ----------------------------------------------------------

  /** The characters of printed arithmetic: no quote, no semicolon, and letters of NULL and abs only. */
  predicate IsPrinted(c: char) {
    IsDigit(c) || c in {' ', '(', ')', ',', '+', '-', '*', '/', '%'} || ToAsciiLower(c) in {'n', 'u', 'l', 'a', 'b', 's'}
  }

  predicate IsTight(s: string) {
    s != "" && !IsWhitespace(s[0]) && !IsWhitespace(s[|s| - 1]) && forall c <- s :: IsPrinted(c)
  }

  lemma TightAround(a: string, b: string, c: string)
    requires IsTight(a) && IsTight(c) && forall d <- b :: IsPrinted(d)
    ensures IsTight(a + b + c)
  {
    hide IsPrinted, IsWhitespace;
    var s := a + b + c;
    assert s[0] == a[0] && s[|s| - 1] == c[|c| - 1];
  }

  lemma DigitsAreTight(s: string)
    requires AllDigits(s) && s != ""
    ensures IsTight(s)
  {
    assert s[0] in s && s[|s| - 1] in s;
  }

  lemma NumberIsTight(n: int)
    ensures IsTight(Signed(n))
  {
    hide IsPrinted, IsWhitespace;
    if n < 0 {
      DigitsAreTight(Shortest(-n));
      MinusIsTight();
      TightAround("-", "", Shortest(-n));
      assert "-" + "" + Shortest(-n) == Signed(n);
    } else {
      DigitsAreTight(Shortest(n));
    }
  }

  lemma MinusIsTight()
    ensures IsTight("-") && IsTight("+") && IsTight("(") && IsTight(")") && IsTight("NULL")
    ensures forall c <- " " :: IsPrinted(c)
  {
  }

  lemma {:induction false} PrintedIsTight(e: Spec)
    requires IsArithmeticSpec(e)
    ensures IsTight(Print(e))
    decreases e
  {
    hide IsTight, Signed, IsPrinted;
    MinusIsTight();
    match e {
      case NullSpec =>
      case IntegerSpec(n) => NumberIsTight(n);
      case Nested(inner) =>
        PrintedIsTight(inner);
        InParensIsTight("(", Print(inner));
        assert "(" + Print(inner) + ")" == Print(e);
      case Negate(inner) =>
        PrintedIsTight(inner);
        SignIsTight("-", Print(inner));
        assert "-" + "(" == "-(";
      case Positive(inner) =>
        PrintedIsTight(inner);
        SignIsTight("+", Print(inner));
        assert "+" + "(" == "+(";
      case Binary(left, op, right) =>
        PrintedIsTight(left);
        PrintedIsTight(right);
        OperatorIsPrinted(op);
        BinaryIsTight(Print(left), OpText(op), Print(right));
      case Function(name, args) =>
        PrintedIsTight(args[0]);
        NameIsTight(name);
        CallIsTight(name, Print(args[0]));
        assert PrintArgs(args) == Print(args[0]);
    }
  }

  lemma InParensIsTight(open: string, text: string)
    requires IsTight(open) && IsTight(text)
    ensures IsTight(open + text + ")")
  {
    hide IsPrinted, IsWhitespace;
    MinusIsTight();
    TightAround(open, text, ")");
  }

  lemma SignIsTight(sign: string, text: string)
    requires IsTight(sign) && IsTight(text)
    ensures IsTight(sign + "(" + text + ")")
  {
    hide IsPrinted, IsWhitespace;
    MinusIsTight();
    TightAround(sign, "", "(");
    assert sign + "" + "(" == sign + "(";
    InParensIsTight(sign + "(", text);
  }

  lemma OperatorIsPrinted(op: BinOp)
    requires !op.Concat?
    ensures forall c <- " " + OpText(op) + " " :: IsPrinted(c)
  {
  }

  lemma BinaryIsTight(l: string, op: string, r: string)
    requires IsTight(l) && IsTight(r) && forall c <- " " + op + " " :: IsPrinted(c)
    ensures IsTight("(" + l + " " + op + " " + r + ")")
  {
    hide IsPrinted, IsWhitespace;
    MinusIsTight();
    TightAround(l, " " + op + " ", r);
    InParensIsTight("(", l + (" " + op + " ") + r);
    assert "(" + (l + (" " + op + " ") + r) + ")" == "(" + l + " " + op + " " + r + ")";
  }

  lemma NameIsTight(name: string)
    requires AsciiLower(name) == "abs"
    ensures IsTight(name) && PrintIdent(name) == name
  {
    assert |name| == 3;
    assert forall i :: 0 <= i < |name| ==> ToAsciiLower(name[i]) == "abs"[i];
    assert forall c <- name :: ToAsciiLower(c) in {'a', 'b', 's'};
  }

  lemma CallIsTight(name: string, text: string)
    requires IsTight(name) && IsTight(text)
    ensures IsTight(name + "(" + text + ")")
  {
    SignIsTight(name, text);
  }

  lemma {:induction false} ListIsTight(es: seq<Spec>)
    requires AreArithmetic(es)
    ensures IsTight(PrintArgs(es))
    decreases |es|
  {
    hide IsTight, Print, IsPrinted;
    PrintedIsTight(es[0]);
    if |es| > 1 {
      ListIsTight(es[1..]);
      CommaIsPrinted();
      TightAround(Print(es[0]), ", ", PrintArgs(es[1..]));
    }
  }

  lemma CommaIsPrinted()
    ensures forall c <- ", " :: IsPrinted(c)
  {
  }

  lemma {:induction false} ForeignLetter(text: string, part: string, c: char)
    requires c in part && c !in text
    ensures !Contains(text, part)
  {
    if part <= text {
      LettersOfPrefix(text, part);
    } else if text != "" {
      ForeignLetter(text[1..], part, c);
    }
  }

  lemma LettersOfPrefix(text: string, part: string)
    requires part <= text
    ensures forall c <- part :: c in text
  {
    assert part == text[..|part|];
  }

  lemma LettersOfKeywords(k: string)
    requires k in KEYWORDS || k == "from " || k == "where " || k == "with "
    ensures exists c <- k :: c in {'f', 'w', 'g', 'o', 'i', 'h', 'e'}
  {
    if k == " from " || k == "from " {
      assert 'f' in k;
    } else if k == " where " || k == " window " || k == " with " || k == "where " || k == "with " {
      assert 'w' in k;
    } else if k == " group " {
      assert 'g' in k;
    } else if k == " order " {
      assert 'o' in k;
    } else if k == " having " {
      assert 'h' in k;
    } else if k == " except " {
      assert 'e' in k;
    } else {
      assert 'i' in k;
    }
  }

  lemma NoKeyword(body: string, k: string)
    requires IsTight(body) && (k in KEYWORDS || k == "from " || k == "where " || k == "with ")
    ensures !Contains(AsciiLower(body), k)
  {
    hide Contains;
    LettersOfKeywords(k);
    var c :| c in k && c in {'f', 'w', 'g', 'o', 'i', 'h', 'e'};
    var lower := AsciiLower(body);
    assert forall i :: 0 <= i < |lower| ==> lower[i] == ToAsciiLower(body[i]) && body[i] in body;
    ForeignLetter(lower, k, c);
  }

  lemma NeedsNoTables(body: string)
    requires IsTight(body)
    ensures !NeedsTables(body)
  {
    hide IsTight;
    forall k | k in KEYWORDS
      ensures !Contains(AsciiLower(body), k)
    {
      NoKeyword(body, k);
    }
    NoKeyword(body, "from ");
    NoKeyword(body, "where ");
    NoKeyword(body, "with ");
  }

  function SelectText(es: seq<Spec>): string {
    "SELECT " + PrintArgs(es)
  }

  lemma BodyOfSelect(body: string)
    requires IsTight(body)
    ensures SelectBody("SELECT " + body) == Some(body)
    ensures Trim("SELECT " + body) == "SELECT " + body
  {
    hide NeedsTables;
    var t := "SELECT " + body;
    assert t[|t| - 1] == body[|body| - 1] && body[|body| - 1] in body && t[0] == 'S';
    assert TrimSemicolons(t) == t;
    TrimIsIdentity(t);
    var lower := AsciiLower(t);
    assert lower[..6] == "select" && lower[6] == ' ';
    assert t[6..] == " " + body;
    SpaceTrims(body);
    NeedsNoTables(body);
  }

  lemma SpaceTrims(body: string)
    requires body != "" && !IsWhitespace(body[0])
    ensures TrimStart(" " + body) == body
  {
    assert (" " + body)[1..] == body;
  }

  lemma TightIsAscii(s: string)
    requires IsTight(s)
    ensures IsAscii(s)
  {
  }

  // ---- The shell answers printed arithmetic --------------------------------------------------

  /** What the shell is to do with a statement of printed arithmetic. */
  function MeantEffect(st: Settings, es: seq<Spec>): Effect
    requires AreArithmetic(es)
  {
    if exists e <- es :: !Readable(e) then Refused
    else
      match MeantRow(st, es)
      case Columns(texts) => Output(RowLine(st, texts))
      case NoRow => Refused
      case Broken => Panic
  }

  lemma ListLexes(es: seq<Spec>)
    requires AreArithmetic(es)
    ensures Lex(Bytewise(PrintArgs(es))) == TokensOfArgs(es)
    ensures forall e <- es :: Named(e)
    ensures TokensOfArgs(es).Some? <==> forall e <- es :: Readable(e)
  {
    hide Lex, PrintArgs, TokensOfArgs, Named, Readable, IsTight, Bytewise, IsArithmeticSpec, IsAscii;
    ListIsTight(es);
    TightIsAscii(PrintArgs(es));
    BytewiseOfAscii(PrintArgs(es));
    PrintedArgsLex(es, "");
    LexesAlone(PrintArgs(es), TokensOfArgs(es));
    forall e | e in es
      ensures Named(e)
    {
      ArithmeticHasNoText(e);
    }
    ReadableArgsHaveTokens(es);
  }

  lemma LexesAlone(text: string, ts: Option<seq<Token>>)
    requires Lexes(text, ts, "")
    ensures Lex(text) == ts
  {
    hide Lex;
    EndOfInput();
    assert text + "" == text;
    assert ts.Some? ==> ts.value + [] == ts.value;
  }

  /** One statement of printed arithmetic prints the exact row, declines or panics, each exactly when it should. */
  lemma SelectIsMeant(st: Settings, es: seq<Spec>)
    requires AreArithmetic(es)
    ensures RunStatement(st, SelectText(es)) == MeantEffect(st, es)
  {
    hide Lex, PrintArgs, TokensOfArgs, SelectList, SelectBody, IsTight, Bytewise, RowLine, MeantRow, Readable, IsArithmeticSpec,
         Named;
    ListIsTight(es);
    BodyOfSelect(PrintArgs(es));
    ListLexes(es);
    if TokensOfArgs(es).Some? {
      ListIsMeant(st, es);
    }
  }

  // ---- Other statements ----------------------------------------------------------------------

  lemma {:induction false} SemicolonsTrim(stmt: string, semicolons: string)
    requires forall c <- semicolons :: c == ';'
    ensures TrimSemicolons(stmt + semicolons) == TrimSemicolons(stmt)
    decreases |semicolons|
  {
    if semicolons == "" {
      assert stmt + semicolons == stmt;
    } else {
      var n := |semicolons| - 1;
      var s := stmt + semicolons;
      assert semicolons[n] in semicolons && forall c <- semicolons[..n] :: c in semicolons;
      assert s[|s| - 1] == semicolons[n] && s[..|s| - 1] == stmt + semicolons[..n];
      SemicolonsTrim(stmt, semicolons[..n]);
    }
  }

  /** Semicolons at the end of a SELECT change nothing, and a dot hands the rest to the dot commands. */
  lemma EndsAndDots(st: Settings, stmt: string, semicolons: string)
    requires stmt != "" && forall c <- semicolons :: c == ';'
    ensures RunStatement(st, "." + stmt) == st.dot(stmt)
    ensures stmt[0] != '.' ==> RunStatement(st, stmt + semicolons) == RunStatement(st, stmt)
  {
    hide Lex, SelectList;
    assert ("." + stmt)[1..] == stmt;
    SemicolonsTrim(stmt, semicolons);
    assert (stmt + semicolons)[0] == stmt[0];
  }

  lemma {:induction false} ContainsMiddle(a: string, k: string, b: string)
    ensures Contains(a + k + b, k)
  {
    var s := a + k + b;
    if a == "" {
      assert s == k + b;
    } else {
      assert s[1..] == a[1..] + k + b;
      ContainsMiddle(a[1..], k, b);
    }
  }

  /** A SELECT with one of the keywords between blanks, in any case, is left to the full program. */
  lemma KeywordsAreRefused(st: Settings, a: string, keyword: string, b: string)
    requires AsciiLower(keyword) in KEYWORDS
    requires a != "" && !IsWhitespace(a[0]) && b != "" && !IsWhitespace(b[|b| - 1]) && b[|b| - 1] != ';'
    ensures RunStatement(st, "SELECT " + (a + keyword + b)) == Refused
  {
    hide Contains, Lex, SelectList, IsWhitespace, KEYWORDS, SelectBody, TrimSemicolons, AsciiLower;
    var body := a + keyword + b;
    assert body[0] == a[0] && body[|body| - 1] == b[|b| - 1];
    ContainsMiddle(AsciiLower(a), AsciiLower(keyword), AsciiLower(b));
    LowerOfThree(a, keyword, b);
    assert NeedsTables(body);
    TablesAreRefused(body);
    assert ("SELECT " + body)[0] == 'S';
  }

  lemma LowerOfThree(a: string, b: string, c: string)
    ensures AsciiLower(a + b + c) == AsciiLower(a) + AsciiLower(b) + AsciiLower(c)
  {
  }

  lemma TablesAreRefused(body: string)
    requires body != "" && !IsWhitespace(body[0]) && !IsWhitespace(body[|body| - 1]) && body[|body| - 1] != ';'
    requires NeedsTables(body)
    ensures SelectBody("SELECT " + body) == None
  {
    hide NeedsTables, IsWhitespace, AsciiLower;
    var t := "SELECT " + body;
    assert t[|t| - 1] == body[|body| - 1] && t[0] == 'S';
    assert TrimSemicolons(t) == t;
    LetterIsNoSpace();
    TrimIsIdentity(t);
    assert t[6..] == " " + body;
    SpaceTrims(body);
  }

  lemma LetterIsNoSpace()
    ensures !IsWhitespace('S')
  {
  }

  // ---- A script of such statements -----------------------------------------------------------

  function ScriptTexts(script: seq<seq<Spec>>): seq<string> {
    seq(|script|, i requires 0 <= i < |script| => SelectText(script[i]))
  }

  lemma {:induction false} NoQuotes(s: string)
    requires '\'' !in s
    ensures !InQuotes(s)
  {
    if s != "" {
      NoQuotes(s[..|s| - 1]);
    }
  }

  lemma StatementIsPiece(es: seq<Spec>)
    requires AreArithmetic(es)
    ensures NoBreak(SelectText(es)) && !InQuotes(SelectText(es))
    ensures Trim(SelectText(es)) == SelectText(es) && SelectText(es) != ""
  {
    hide PrintArgs, Trim, SelectBody, InQuotes;
    ListIsTight(es);
    BodyOfSelect(PrintArgs(es));
    var s := SelectText(es);
    forall c | c in s
      ensures c != ';' && c != '\''
    {
      assert c in "SELECT " || c in PrintArgs(es);
    }
    NoQuotes(s);
    assert forall i :: 0 <= i < |s| ==> s[i] in s;
  }

  lemma {:induction false} AllLive(texts: seq<string>)
    requires forall t <- texts :: Trim(t) == t && t != ""
    ensures Live(texts) == texts
  {
    hide Trim;
    if texts != [] {
      var n := |texts| - 1;
      assert texts[n] in texts && forall t <- texts[..n] :: t in texts;
      AllLive(texts[..n]);
      assert texts == texts[..n] + [texts[n]];
    }
  }

  /** A script of printed arithmetic is split into its statements. */
  lemma ScriptIsSplit(script: seq<seq<Spec>>)
    requires script != [] && forall es <- script :: AreArithmetic(es)
    ensures Live(Statements(Joined(ScriptTexts(script)))) == ScriptTexts(script)
  {
    hide Pieces, Joined, Trim, Live, NoBreak, InQuotes, SelectText, AreArithmetic;
    var texts := ScriptTexts(script);
    forall i | 0 <= i < |texts|
      ensures NoBreak(texts[i]) && !InQuotes(texts[i]) && Trim(texts[i]) == texts[i] && texts[i] != ""
    {
      assert script[i] in script;
      StatementIsPiece(script[i]);
    }
    PiecesAreUnique(texts);
    AllLive(texts);
  }

  /**
   A script of printed arithmetic is handled exactly when every literal can be read and every exact
   value fits, and then prints exactly the rows that were meant, in order.
   */
  lemma ScriptIsAnswered(st: Settings, script: seq<seq<Spec>>)
    requires script != [] && forall es <- script :: AreArithmetic(es)
    ensures var r := Dispatched(t => RunStatement(st, t), Live(Statements(Joined(ScriptTexts(script)))));
            if forall es <- script :: MeantEffect(st, es).Output? then r == Handled(MeantText(st, script), 0)
            else !r.Handled?
  {
    hide Statements, Live, Joined, AreArithmetic, MeantEffect, Printed, RunStatement, SelectText;
    ScriptIsSplit(script);
    var run, texts := t => RunStatement(st, t), ScriptTexts(script);
    forall i | 0 <= i < |texts|
      ensures run(texts[i]) == MeantEffect(st, script[i])
    {
      assert script[i] in script;
      SelectIsMeant(st, script[i]);
    }
    if forall es <- script :: MeantEffect(st, es).Output? {
      RunsThrough(run, texts);
      RowsArePrinted(st, script);
    } else {
      NoneExits(st, script);
    }
  }

  function MeantText(st: Settings, script: seq<seq<Spec>>): string
    requires forall es <- script :: AreArithmetic(es)
  {
    if script == [] then ""
    else
      var last := MeantEffect(st, script[|script| - 1]);
      MeantText(st, script[..|script| - 1]) + if last.Output? then last.text else ""
  }

  lemma {:induction false} RowsArePrinted(st: Settings, script: seq<seq<Spec>>)
    requires forall es <- script :: AreArithmetic(es)
    ensures Printed(t => RunStatement(st, t), ScriptTexts(script)) == MeantText(st, script)
    decreases |script|
  {
    hide AreArithmetic, MeantEffect, RunStatement, SelectText;
    if script != [] {
      var n := |script| - 1;
      assert script[n] in script && forall es <- script[..n] :: es in script;
      SelectIsMeant(st, script[n]);
      RowsArePrinted(st, script[..n]);
      assert ScriptTexts(script)[..n] == ScriptTexts(script[..n]);
    }
  }

  lemma NoneExits(st: Settings, script: seq<seq<Spec>>)
    requires forall es <- script :: AreArithmetic(es)
    requires !forall es <- script :: MeantEffect(st, es).Output?
    ensures !Dispatched(t => RunStatement(st, t), ScriptTexts(script)).Handled?
  {
    hide AreArithmetic, RunStatement, SelectText, Prints, Printed;
    var run, texts := t => RunStatement(st, t), ScriptTexts(script);
    forall i | 0 <= i < |texts|
      ensures run(texts[i]) == MeantEffect(st, script[i]) && !run(texts[i]).Exit?
    {
      assert script[i] in script;
      SelectIsMeant(st, script[i]);
    }
    var es :| es in script && !MeantEffect(st, es).Output?;
    var i :| 0 <= i < |script| && script[i] == es;
    assert texts[i] in texts && !run(texts[i]).Output?;
  }

  /** A statement prints exactly when every literal can be read and every exact value fits. */
  lemma PrintsExactly(st: Settings, es: seq<Spec>)
    requires AreArithmetic(es)
    ensures MeantEffect(st, es).Output? <==> forall e <- es :: Readable(e) && MeaningFits(e)
  {
    hide Readable, MeaningFits, Meaning, Traps, IsArithmetic, Erase, IsArithmeticSpec, Rendered, RowLine;
    if forall e <- es :: Readable(e) {
      RowIsWholeExactly(st, es);
    }
  }

  lemma {:induction false} RowIsWholeExactly(st: Settings, es: seq<Spec>)
    requires forall e <- es :: IsArithmeticSpec(e) && Readable(e)
    ensures MeantRow(st, es).Columns? <==> forall e <- es :: MeaningFits(e)
    decreases |es|
  {
    hide Readable, MeaningFits, Meaning, Traps, IsArithmetic, Erase, IsArithmeticSpec, Rendered;
    if es != [] {
      assert es[0] in es && forall e <- es[1..] :: e in es;
      assert es == [es[0]] + es[1..];
      RowIsWholeExactly(st, es[1..]);
    }
  }
}
