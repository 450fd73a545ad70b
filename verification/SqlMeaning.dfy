/** What a printed arithmetic expression means, and what the shell answers for it. */
module SqlMeaning {
  import opened Machine
  import opened Chars
  import opened SqlSyntax
  import opened Printer
  import opened PrintedTokens
  import opened SqlRoundTrip
  import opened SqlBytes
  import opened TextBytes
  import opened SqlEval

  predicate IsArithmeticSpec(e: Spec) {
    match e
    case NullSpec => true
    case IntegerSpec(n) => FitsI64(n)
    case TextSpec(_) => false
    case Nested(inner) => IsArithmeticSpec(inner)
    case Negate(inner) => IsArithmeticSpec(inner)
    case Positive(inner) => IsArithmeticSpec(inner)
    case Binary(left, op, right) => !op.Concat? && IsArithmeticSpec(left) && IsArithmeticSpec(right)
    case Function(name, args) => AsciiLower(name) == "abs" && |args| == 1 && IsArithmeticSpec(args[0])
  }

  /** The exact value the builder meant. */
  function Meaning(e: Spec): Option<int>
    requires IsArithmeticSpec(e)
  {
    match e
    case NullSpec => None
    case IntegerSpec(n) => Some(n)
    case Nested(inner) => Meaning(inner)
    case Negate(inner) => (var v := Meaning(inner); if v.None? then None else Some(-v.value))
    case Positive(inner) => Meaning(inner)
    case Binary(left, op, right) => ExactBin(op, Meaning(left), Meaning(right))
    case Function(_, args) => (var v := Meaning(args[0]); if v.None? then None else Some(Abs(v.value)))
  }

  predicate MeaningFits(e: Spec)
    requires IsArithmeticSpec(e)
  {
    && Fits(Meaning(e))
    && match e
       case NullSpec => true
       case IntegerSpec(_) => true
       case Nested(inner) => MeaningFits(inner)
       case Negate(inner) => MeaningFits(inner)
       case Positive(inner) => MeaningFits(inner)
       case Binary(left, op, right) =>
         MeaningFits(left) && MeaningFits(right) && !TrapsAnyway(op, Meaning(left), Meaning(right))
       case Function(_, args) => MeaningFits(args[0])
  }

  lemma {:induction false} EraseKeepsMeaning(e: Spec)
    requires IsArithmeticSpec(e) && Readable(e)
    ensures IsArithmetic(Erase(e)) && Exact(Erase(e)) == Meaning(e) && FitsThroughout(Erase(e)) == MeaningFits(e)
  {
    hide ExactBin, TrapsAnyway;
    match e {
      case NullSpec =>
      case IntegerSpec(_) =>
      case Nested(inner) => EraseKeepsMeaning(inner);
      case Negate(inner) => EraseKeepsMeaning(inner);
      case Positive(inner) => EraseKeepsMeaning(inner);
      case Binary(left, _, right) =>
        EraseKeepsMeaning(left);
        EraseKeepsMeaning(right);
      case Function(_, args) =>
        EraseKeepsMeaning(args[0]);
        assert EraseAll(args) == [Erase(args[0])] + EraseAll(args[1..]);
    }
  }

  lemma AbsIsIdentifier(name: string)
    requires AsciiLower(name) == "abs"
    ensures IsIdentifier(name)
  {
    assert forall i :: 0 <= i < |name| ==> ToAsciiLower(name[i]) == AsciiLower(name)[i];
  }

  lemma {:induction false} ArithmeticHasNoText(e: Spec)
    requires IsArithmeticSpec(e)
    ensures AsciiTexts(e) && Named(e)
  {
    hide IsIdentifier;
    match e {
      case NullSpec =>
      case IntegerSpec(_) =>
      case Nested(inner) => ArithmeticHasNoText(inner);
      case Negate(inner) => ArithmeticHasNoText(inner);
      case Positive(inner) => ArithmeticHasNoText(inner);
      case Binary(left, _, right) =>
        ArithmeticHasNoText(left);
        ArithmeticHasNoText(right);
      case Function(name, args) =>
        AbsIsIdentifier(name);
        ArithmeticHasNoText(args[0]);
    }
  }

  /** The shell reads the whole text and evaluates it to the value. */
  ghost predicate ShellAnswers(maps: CaseMaps, text: string, v: Value) {
    var e := Read(Bytewise(text));
    e.Some? && RealFree(e.value) && Eval(maps, e.value) == Done(v)
  }

  /**
   The shell answers a printed arithmetic expression with the exact value the builder meant, exactly
   when no literal is `i64::MIN` and every intermediate exact value fits.
   */
  lemma PrintedArithmeticIsExact(maps: CaseMaps, e: Spec, v: Value)
    requires IsArithmeticSpec(e)
    ensures ShellAnswers(maps, Print(e), v) <==> Readable(e) && MeaningFits(e) && v == ValueOf(Meaning(e))
  {
    hide Read, Bytewise, Print, Erase, BytewiseSpec, Readable, AsciiTexts, Named, Eval, RealFree, Meaning, MeaningFits,
         IsArithmeticSpec, IsArithmetic, Exact, FitsThroughout;
    ShellReadsBackExactly(e);
    ArithmeticHasNoText(e);
    if Readable(e) {
      EraseKeepsMeaning(e);
      ArithmeticIsRealFree(Erase(e));
      EvalIsExact(maps, Erase(e));
    }
  }

  /** The shell reads the whole text and stops the program evaluating it. */
  ghost predicate ShellPanics(maps: CaseMaps, text: string) {
    var e := Read(Bytewise(text));
    e.Some? && RealFree(e.value) && Eval(maps, e.value) == Panicked
  }

  /**
   A printed arithmetic expression stops the program exactly when it can be read and the first
   subexpression without a value divides the smallest integer by minus one.
   */
  lemma PrintedArithmeticPanicsExactly(maps: CaseMaps, e: Spec)
    requires IsArithmeticSpec(e)
    ensures ShellPanics(maps, Print(e)) <==> Readable(e) && IsArithmetic(Erase(e)) && Traps(Erase(e))
  {
    hide Read, Bytewise, Print, Erase, BytewiseSpec, Readable, AsciiTexts, Named, Eval, RealFree, Meaning, MeaningFits,
         IsArithmeticSpec, IsArithmetic, Exact, FitsThroughout, Traps;
    ShellReadsBackExactly(e);
    ArithmeticHasNoText(e);
    if Readable(e) {
      EraseKeepsMeaning(e);
      ArithmeticIsRealFree(Erase(e));
      PanicsExactlyThere(maps, Erase(e));
    }
  }

  /** Printed as `((-9223372036854775807 - 1) % -1)`. */
  function SmallestMod(): Spec {
    Binary(Binary(IntegerSpec(-I64_MAX), Sub, IntegerSpec(1)), Mod, IntegerSpec(-1))
  }

  lemma SmallestModTraps()
    ensures IsArithmeticSpec(SmallestMod()) && Readable(SmallestMod())
    ensures Meaning(SmallestMod()) == Some(0)
    ensures IsArithmetic(Erase(SmallestMod())) && Traps(Erase(SmallestMod()))
  {
  }

  /** A text the shell reads, with the value zero, that stops the program. */
  lemma SmallestModMinusOnePanics(maps: CaseMaps)
    ensures ShellPanics(maps, Print(SmallestMod()))
    ensures IsArithmeticSpec(SmallestMod()) && Meaning(SmallestMod()) == Some(0)
  {
    hide ShellPanics, Print, SmallestMod, Erase, Traps, IsArithmetic, IsArithmeticSpec, Meaning, Readable;
    SmallestModTraps();
    PrintedArithmeticPanicsExactly(maps, SmallestMod());
  }

  // ---- Functions of text ---------------------------------------------------------------------

  /** What a function gives for one text: its length in characters, or its letters in one case. */
  ghost predicate GivesForText(maps: CaseMaps, name: string, text: string, v: Value) {
    || (name == "length" && v == Int(|text|))
    || (name == "lower" && v == Text(maps.lower(text)))
    || (name == "upper" && v == Text(maps.upper(text)))
  }

  lemma CallReads(name: string, arg: Spec)
    requires (arg.NullSpec? || arg.TextSpec? || arg.IntegerSpec?) && Readable(arg)
    ensures Read(Bytewise(Print(Function(name, [arg])))) ==
            if IsIdentifier(name) then Some(Call(name, [Erase(BytewiseSpec(arg))])) else None
  {
    hide Read, Bytewise, Print, IsIdentifier;
    var args := [arg];
    var call := Function(name, args);
    assert forall i :: 0 <= i < |args| ==> args[i] == arg;
    assert Named(arg) && Named(call) == IsIdentifier(name);
    assert Readable(call);
    ShellReadsBackExactly(call);
    if IsIdentifier(name) {
      IdentifierIsAscii(name);
      assert args[1..] == [] && BytewiseArgs(args) == [BytewiseSpec(arg)] + BytewiseArgs(args[1..]);
      OneErased(BytewiseSpec(arg));
      assert BytewiseSpec(call) == Function(name, [BytewiseSpec(arg)]);
    }
  }

  lemma IdentifierIsAscii(name: string)
    requires IsIdentifier(name)
    ensures Bytewise(name) == name
  {
    hide Bytewise;
    WordsAreAscii(name);
    BytewiseOfAscii(name);
  }

  lemma OneErased(arg: Spec)
    ensures EraseAll([arg]) == [Erase(arg)]
  {
    assert [arg][1..] == [];
  }

  /** A call of one argument that has a value. */
  lemma CallEvaluates(maps: CaseMaps, name: string, arg: Expr, v: Value)
    requires RealFree(arg) && Eval(maps, arg) == Done(v)
    ensures RealFree(Call(name, [arg]))
    ensures Eval(maps, Call(name, [arg])) == EvalFunc(maps, AsciiLower(name), [v])
  {
    hide EvalFunc, AsciiLower;
    OneArgument(maps, [arg]);
  }

  lemma KnownNamesAreIdentifiers(name: string)
    requires AsciiLower(name) in {"abs", "length", "lower", "upper"}
    ensures IsIdentifier(name)
  {
    assert forall i :: 0 <= i < |name| ==> ToAsciiLower(name[i]) == AsciiLower(name)[i];
  }

  /**
   A function of a text, printed and in any case of its name, is answered as the function says of
   the text the shell reads: its bytes.
   */
  lemma TextFunctionsAnswer(maps: CaseMaps, name: string, text: string, v: Value)
    ensures ShellAnswers(maps, Print(Function(name, [TextSpec(text)])), v) <==>
            GivesForText(maps, AsciiLower(name), Bytewise(text), v)
  {
    hide Read, Bytewise, Print, IsIdentifier, AsciiLower, Eval, RealFree;
    CallReads(name, TextSpec(text));
    LeafEvaluates(maps, Text(Bytewise(text)));
    CallEvaluates(maps, name, Lit(Text(Bytewise(text))), Text(Bytewise(text)));
    if AsciiLower(name) in {"abs", "length", "lower", "upper"} {
      KnownNamesAreIdentifiers(name);
    }
  }

  lemma LeafEvaluates(maps: CaseMaps, v: Value)
    requires !v.Real?
    ensures RealFree(Lit(v)) && Eval(maps, Lit(v)) == Done(v)
  {
  }

  lemma NumberEvaluates(maps: CaseMaps, n: int)
    requires -I64_MAX <= n <= I64_MAX
    ensures RealFree(Erase(IntegerSpec(n))) && Eval(maps, Erase(IntegerSpec(n))) == Done(Int(n))
  {
  }

  /** Of NULL every known function is NULL; of an integer only `abs` has a value. */
  lemma OtherFunctionsAnswer(maps: CaseMaps, name: string, n: int, v: Value)
    requires -I64_MAX <= n <= I64_MAX
    ensures ShellAnswers(maps, Print(Function(name, [NullSpec])), v) <==>
            v == Null && AsciiLower(name) in {"abs", "length", "lower", "upper"}
    ensures ShellAnswers(maps, Print(Function(name, [IntegerSpec(n)])), v) <==>
            v == Int(Abs(n)) && AsciiLower(name) == "abs"
  {
    hide Read, Bytewise, Print, IsIdentifier, AsciiLower, Eval, RealFree, Erase;
    CallReads(name, NullSpec);
    LeafEvaluates(maps, Null);
    assert Erase(NullSpec) == Lit(Null) by { NullErased(); }
    CallEvaluates(maps, name, Lit(Null), Null);
    CallReads(name, IntegerSpec(n));
    NumberEvaluates(maps, n);
    CallEvaluates(maps, name, Erase(IntegerSpec(n)), Int(n));
    if AsciiLower(name) in {"abs", "length", "lower", "upper"} {
      KnownNamesAreIdentifiers(name);
    }
  }

  lemma NullErased()
    ensures Erase(NullSpec) == Lit(Null)
  {
  }
}
