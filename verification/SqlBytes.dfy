/** The round trip through UTF-8 bytes, as the tokenizer makes it. */
module SqlBytes {
  import opened Chars
  import opened Quoting
  import opened Decimal
  import opened SqlSyntax
  import opened Printer
  import opened PrintedTokens
  import opened SqlRoundTrip
  import opened TextBytes

  function BytewiseSpec(e: Spec): Spec {
    match e
    case TextSpec(text) => TextSpec(Bytewise(text))
    case Nested(inner) => Nested(BytewiseSpec(inner))
    case Negate(inner) => Negate(BytewiseSpec(inner))
    case Positive(inner) => Positive(BytewiseSpec(inner))
    case Binary(left, op, right) => Binary(BytewiseSpec(left), op, BytewiseSpec(right))
    case Function(name, args) => Function(Bytewise(name), BytewiseArgs(args))
    case _ => e
  }

  function BytewiseArgs(args: seq<Spec>): (r: seq<Spec>)
    ensures |r| == |args|
  {
    if args == [] then [] else [BytewiseSpec(args[0])] + BytewiseArgs(args[1..])
  }

  lemma {:induction false} BytewiseDoubled(text: string, quote: char)
    requires quote < '\U{80}'
    ensures Bytewise(Doubled(text, quote)) == Doubled(Bytewise(text), quote)
  {
    hide CharBytes;
    if text != "" {
      var c, rest := text[0], text[1..];
      BytewiseDoubled(rest, quote);
      DoubledAppend(CharBytes(c), Bytewise(rest), quote);
      if c == quote {
        BytewiseAppend([quote, quote], Doubled(rest, quote));
        BytewiseOfAscii([quote, quote]);
        assert Doubled(CharBytes(c), quote) == [quote, quote];
      } else {
        BytewiseAppend([c], Doubled(rest, quote));
        assert [c][1..] == "" && Bytewise([c]) == CharBytes(c) + "" == CharBytes(c);
        NothingToDouble(CharBytes(c), quote);
      }
    }
  }

  lemma {:induction false} DoubledAppend(a: string, b: string, quote: char)
    ensures Doubled(a + b, quote) == Doubled(a, quote) + Doubled(b, quote)
  {
    if a == "" {
      assert a + b == b;
    } else {
      assert (a + b)[1..] == a[1..] + b;
      DoubledAppend(a[1..], b, quote);
    }
  }

  lemma {:induction false} NothingToDouble(s: string, quote: char)
    requires quote !in s
    ensures Doubled(s, quote) == s
  {
    if s != "" {
      assert quote !in s[1..] && s == [s[0]] + s[1..];
      NothingToDouble(s[1..], quote);
    }
  }

  lemma BytewiseThree(a: string, b: string, c: string)
    requires IsAscii(a) && IsAscii(c)
    ensures Bytewise(a + b + c) == a + Bytewise(b) + c
  {
    hide Bytewise;
    BytewiseAppend(a + b, c);
    BytewiseAppend(a, b);
    BytewiseOfAscii(a);
    BytewiseOfAscii(c);
  }

  lemma NumbersAreAscii(n: int)
    ensures IsAscii(Signed(n))
  {
    hide Shortest;
    DigitsAreAscii(Shortest(if n < 0 then -n else n));
  }

  lemma DigitsAreAscii(s: string)
    requires AllDigits(s)
    ensures IsAscii(s)
  {
  }

  /** The bytes of a printed expression are the print of the expression with bytewise texts. */
  lemma {:induction false} PrintBytewise(e: Spec)
    ensures Bytewise(Print(e)) == Print(BytewiseSpec(e))
    ensures Named(BytewiseSpec(e)) == Named(e) && Readable(BytewiseSpec(e)) == Readable(e)
    decreases e
  {
    hide Bytewise, IsAscii, Signed, IsIdentifier;
    match e {
      case NullSpec => BytewiseOfAscii("NULL");
      case IntegerSpec(n) =>
        NumbersAreAscii(n);
        BytewiseOfAscii(Signed(n));
      case TextSpec(text) => TextBytewise(text);
      case Nested(inner) =>
        PrintBytewise(inner);
        ParensAreAscii();
        BytewiseThree("(", Print(inner), ")");
      case Negate(inner) =>
        PrintBytewise(inner);
        ParensAreAscii();
        BytewiseThree("-(", Print(inner), ")");
      case Positive(inner) =>
        PrintBytewise(inner);
        ParensAreAscii();
        BytewiseThree("+(", Print(inner), ")");
      case Binary(left, op, right) =>
        PrintBytewise(left);
        PrintBytewise(right);
        BinaryBytewise(left, op, right);
      case Function(name, args) =>
        PrintArgsBytewise(args);
        NameBytewise(name);
        FunctionBytewise(name, args);
    }
  }

  lemma ParensAreAscii()
    ensures IsAscii("(") && IsAscii(")") && IsAscii("-(") && IsAscii("+(") && IsAscii("'") && IsAscii(", ")
  {
  }

  lemma TextBytewise(text: string)
    ensures Bytewise(PrintText(text)) == PrintText(Bytewise(text))
  {
    hide Bytewise, IsAscii, Doubled;
    ParensAreAscii();
    BytewiseThree("'", Doubled(text, '\''), "'");
    BytewiseDoubled(text, '\'');
  }

  lemma OpIsAscii(op: BinOp)
    ensures IsAscii(" " + OpText(op) + " ")
  {
  }

  lemma Regroup(l: string, o: string, r: string)
    ensures "(" + l + " " + o + " " + r + ")" == "(" + (l + (" " + o + " ") + r) + ")"
  {
  }

  lemma InfixBytewise(l: string, o: string, r: string)
    requires IsAscii(" " + o + " ")
    ensures Bytewise("(" + l + " " + o + " " + r + ")") == "(" + Bytewise(l) + " " + o + " " + Bytewise(r) + ")"
  {
    hide Bytewise, IsAscii;
    var m := " " + o + " ";
    ParensAreAscii();
    BytewiseThree("(", l + m + r, ")");
    BytewiseAppend(l + m, r);
    BytewiseAppend(l, m);
    BytewiseOfAscii(m);
    Regroup(l, o, r);
    Regroup(Bytewise(l), o, Bytewise(r));
  }

  lemma BinaryBytewise(left: Spec, op: BinOp, right: Spec)
    requires Bytewise(Print(left)) == Print(BytewiseSpec(left)) && Bytewise(Print(right)) == Print(BytewiseSpec(right))
    ensures Bytewise(Print(Binary(left, op, right))) == Print(BytewiseSpec(Binary(left, op, right)))
  {
    hide Bytewise, IsAscii;
    OpIsAscii(op);
    InfixBytewise(Print(left), OpText(op), Print(right));
  }

  lemma {:induction false} WordsAreAscii(s: string)
    ensures (forall c <- Bytewise(s) :: IsWordChar(c)) <==> (forall c <- s :: IsWordChar(c))
    ensures (forall c <- s :: IsWordChar(c)) ==> IsAscii(s)
  {
    hide CharBytes;
    if s != "" {
      WordsAreAscii(s[1..]);
      var b := CharBytes(s[0]);
      assert forall c <- s :: c == s[0] || c in s[1..];
      assert s[0] in s && forall c <- s[1..] :: c in s;
      assert forall c <- Bytewise(s) :: c in b || c in Bytewise(s[1..]);
      assert forall c <- b :: c in Bytewise(s);
      assert forall c <- Bytewise(s[1..]) :: c in Bytewise(s);
      assert b[0] in b && (IsWordChar(b[0]) ==> b == [s[0]]);
    }
  }

  lemma NameBytewise(name: string)
    ensures Bytewise(PrintIdent(name)) == PrintIdent(Bytewise(name))
    ensures IsIdentifier(Bytewise(name)) == IsIdentifier(name)
  {
    hide Bytewise, IsAscii, Doubled;
    WordsAreAscii(name);
    BytewiseGrows(name);
    if name != "" && forall c <- name :: IsWordChar(c) {
      BytewiseOfAscii(name);
    } else {
      QuotesAreAscii();
      BytewiseThree("\"", Doubled(name, '"'), "\"");
      BytewiseDoubled(name, '"');
      EmptyBytewise(name);
    }
  }

  lemma QuotesAreAscii()
    ensures IsAscii("\"")
  {
  }

  lemma EmptyBytewise(s: string)
    ensures s == "" ==> Bytewise(s) == ""
  {
  }

  lemma FunctionBytewise(name: string, args: seq<Spec>)
    requires Bytewise(PrintIdent(name)) == PrintIdent(Bytewise(name))
    requires Bytewise(PrintArgs(args)) == PrintArgs(BytewiseArgs(args))
    ensures Bytewise(Print(Function(name, args))) == Print(BytewiseSpec(Function(name, args)))
  {
    hide Bytewise, PrintIdent, IsAscii;
    ParensAreAscii();
    var n, a := PrintIdent(name), PrintArgs(args);
    assert Print(Function(name, args)) == n + ("(" + a + ")");
    BytewiseAppend(n, "(" + a + ")");
    BytewiseThree("(", a, ")");
  }

  lemma {:induction false} PrintArgsBytewise(args: seq<Spec>)
    ensures Bytewise(PrintArgs(args)) == PrintArgs(BytewiseArgs(args))
    ensures forall i :: 0 <= i < |args| ==> Named(BytewiseArgs(args)[i]) == Named(args[i])
    ensures forall i :: 0 <= i < |args| ==> Readable(BytewiseArgs(args)[i]) == Readable(args[i])
    decreases args
  {
    hide Named, Readable, Print, BytewiseSpec, IsAscii;
    if args != [] {
      PrintBytewise(args[0]);
      PrintArgsBytewise(args[1..]);
      var more := BytewiseArgs(args[1..]);
      assert BytewiseArgs(args)[1..] == more && BytewiseArgs(args)[0] == BytewiseSpec(args[0]);
      if |args| > 1 {
        ParensAreAscii();
        BytewiseAppend(Print(args[0]) + ", ", PrintArgs(args[1..]));
        BytewiseAppend(Print(args[0]), ", ");
        BytewiseOfAscii(", ");
      }
    }
  }

  /** Whether every text in the expression is ASCII. */
  predicate AsciiTexts(e: Spec) {
    match e
    case TextSpec(text) => IsAscii(text)
    case Nested(inner) => AsciiTexts(inner)
    case Negate(inner) => AsciiTexts(inner)
    case Positive(inner) => AsciiTexts(inner)
    case Binary(left, _, right) => AsciiTexts(left) && AsciiTexts(right)
    case Function(_, args) => forall i :: 0 <= i < |args| ==> AsciiTexts(args[i])
    case _ => true
  }

  /** A change of texts shows in the tree. */
  lemma {:induction false} BytewiseShows(e: Spec)
    requires Named(e)
    ensures Erase(BytewiseSpec(e)) == Erase(e) <==> AsciiTexts(e)
    decreases e
  {
    hide Bytewise, IsAscii;
    match e {
      case TextSpec(text) => BytewiseGrows(text);
      case Nested(inner) => BytewiseShows(inner);
      case Negate(inner) => BytewiseShows(inner);
      case Positive(inner) => BytewiseShows(inner);
      case Binary(left, _, right) =>
        BytewiseShows(left);
        BytewiseShows(right);
      case Function(name, args) =>
        BytewiseArgsShow(args);
        WordsAreAscii(name);
        BytewiseGrows(name);
      case _ =>
    }
  }

  lemma {:induction false} BytewiseArgsShow(args: seq<Spec>)
    requires forall i :: 0 <= i < |args| ==> Named(args[i])
    ensures EraseAll(BytewiseArgs(args)) == EraseAll(args) <==> forall i :: 0 <= i < |args| ==> AsciiTexts(args[i])
    decreases args
  {
    hide Erase, BytewiseSpec, AsciiTexts, Named;
    if args != [] {
      BytewiseShows(args[0]);
      BytewiseArgsShow(args[1..]);
      var a, b := BytewiseArgs(args), EraseAll(BytewiseArgs(args));
      assert a[0] == BytewiseSpec(args[0]) && a[1..] == BytewiseArgs(args[1..]);
      assert b == [Erase(a[0])] + EraseAll(a[1..]);
      assert b[0] == Erase(a[0]) && b[1..] == EraseAll(a[1..]);
      assert EraseAll(args)[0] == Erase(args[0]) && EraseAll(args)[1..] == EraseAll(args[1..]);
      assert forall i :: 1 <= i < |args| ==> args[i] == args[1..][i - 1];
    }
  }

  /**
   The lite shell reads a printed expression back as its tree exactly when its names are
   identifiers other than null, no integer is `i64::MIN` and no text leaves ASCII; other texts come
   back as their bytes.
   */
  lemma ShellReadsBackExactly(e: Spec)
    ensures Read(Bytewise(Print(e))) == if Named(e) && Readable(e) then Some(Erase(BytewiseSpec(e))) else None
    ensures Read(Bytewise(Print(e))) == Some(Erase(e)) <==> Named(e) && Readable(e) && AsciiTexts(e)
  {
    hide Read, Bytewise, Print, BytewiseSpec, Erase, Readable, AsciiTexts, Named;
    PrintBytewise(e);
    PrintReadsBack(BytewiseSpec(e));
    if Named(e) {
      BytewiseShows(e);
    }
  }
}
