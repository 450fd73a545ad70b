/** `eval_expr`, `eval_bin` and `eval_func` of `crates/redlinedb-lite/src/shellzero.rs`. */
module SqlEval {
  import opened Machine
  import opened Chars
  import opened Decimal
  import opened SqlSyntax

  /** The shell evaluates, hands over to the full program, or stops on an arithmetic panic. */
  datatype Outcome = Done(value: Value) | Declined | Panicked

  /** The Unicode case maps of the standard library. */
  datatype CaseMaps = CaseMaps(lower: string -> string, upper: string -> string)

  // ---- Machine arithmetic --------------------------------------------------------------------

  function Abs(n: int): nat {
    if n < 0 then -n else n
  }

  /** The remainder takes the sign of the dividend. */
  function TruncMod(a: int, b: int): int
    requires b != 0
  {
    if a < 0 then -(Abs(a) % Abs(b)) else Abs(a) % Abs(b)
  }

  lemma DivisionLaw(a: int, b: int)
    ensures b != 0 ==> a == b * TruncDiv(a, b) + TruncMod(a, b) && Abs(TruncMod(a, b)) < Abs(b)
    ensures b != 0 && TruncMod(a, b) != 0 ==> (TruncMod(a, b) < 0 <==> a < 0)
  {
  }

  function Checked(n: int): Outcome {
    if FitsI64(n) then Done(Int(n)) else Declined
  }

  /** Division and remainder trap on the one quotient that does not fit. */
  function Divided(a: int, b: int, result: int): Outcome {
    if a == I64_MIN && b == -1 then Panicked else Done(Int(result))
  }

  // ---- Evaluation ----------------------------------------------------------------------------

  predicate RealFree(e: Expr) {
    match e
    case Lit(v) => !v.Real?
    case Neg(inner) => RealFree(inner)
    case Bin(_, left, right) => RealFree(left) && RealFree(right)
    case Call(_, args) => forall i :: 0 <= i < |args| ==> RealFree(args[i])
  }

  function ConcatText(v: Value): string
    requires v.Int? || v.Text?
  {
    if v.Int? then Signed(v.n) else v.text
  }

  function EvalBin(op: BinOp, l: Value, r: Value): Outcome
    requires !l.Real? && !r.Real?
  {
    if l.Null? || r.Null? then Done(Null)
    else if op.Concat? then Done(Text(ConcatText(l) + ConcatText(r)))
    else if l.Text? || r.Text? then Declined
    else
      match op
      case Add => Checked(l.n + r.n)
      case Sub => Checked(l.n - r.n)
      case Mul => Checked(l.n * r.n)
      case Div => if r.n == 0 then Done(Null) else Divided(l.n, r.n, TruncDiv(l.n, r.n))
      case Mod => if r.n == 0 then Done(Null) else Divided(l.n, r.n, TruncMod(l.n, r.n))
  }

  function EvalFunc(maps: CaseMaps, name: string, vals: seq<Value>): Outcome
    requires forall v <- vals :: !v.Real?
  {
    if |vals| != 1 || name !in {"abs", "length", "lower", "upper"} then Declined
    else if vals[0].Null? then Done(Null)
    else if name == "abs" then (if vals[0].Int? then Checked(Abs(vals[0].n)) else Declined)
    else if vals[0].Int? then Declined
    else if name == "length" then Done(Int(|vals[0].text|))
    else if name == "lower" then Done(Text(maps.lower(vals[0].text)))
    else Done(Text(maps.upper(vals[0].text)))
  }

  function Eval(maps: CaseMaps, e: Expr): (r: Outcome)
    requires RealFree(e)
    ensures r.Done? ==> !r.value.Real?
  {
    match e
    case Lit(v) => Done(v)
    case Neg(inner) =>
      (var r := Eval(maps, inner);
       if !r.Done? || r.value.Null? then r else if r.value.Int? then Checked(-r.value.n) else Declined)
    case Bin(op, left, right) =>
      (var l := Eval(maps, left);
       if !l.Done? then l
       else
         var r := Eval(maps, right);
         if !r.Done? then r else EvalBin(op, l.value, r.value))
    case Call(name, args) =>
      match EvalArgs(maps, args)
      case Values(vals) => EvalFunc(maps, AsciiLower(name), vals)
      case Stopped(why) => why
  }

  /** The values of all arguments, or what stopped the first that stopped. */
  datatype Arguments = Values(vals: seq<Value>) | Stopped(why: Outcome)

  function EvalArgs(maps: CaseMaps, args: seq<Expr>): (r: Arguments)
    requires forall i :: 0 <= i < |args| ==> RealFree(args[i])
    ensures r.Values? ==> |r.vals| == |args| && forall v <- r.vals :: !v.Real?
    ensures r.Stopped? ==> !r.why.Done?
  {
    if args == [] then Values([])
    else
      var first := Eval(maps, args[0]);
      if !first.Done? then Stopped(first)
      else
        match EvalArgs(maps, args[1..])
        case Values(vals) => Values([first.value] + vals)
        case Stopped(why) => Stopped(why)
  }

  /** `Value::render`: how a value appears in a result row. */
  function Rendered(v: Value, nullText: string): string
    requires !v.Real?
  {
    match v
    case Null => nullText
    case Int(n) => Signed(n)
    case Text(text) => text
  }

  /** A concatenation appears as its operands do, one after the other, unless one is NULL. */
  lemma ConcatRendersBoth(l: Value, r: Value, nullText: string)
    requires !l.Real? && !r.Real?
    ensures EvalBin(Concat, l, r).Done? && !EvalBin(Concat, l, r).value.Real?
    ensures var v := EvalBin(Concat, l, r).value;
            if l.Null? || r.Null? then v == Null else Rendered(v, nullText) == Rendered(l, nullText) + Rendered(r, nullText)
  {
  }

  // ---- Exact arithmetic ----------------------------------------------------------------------

  /** Integers, NULL, the five arithmetic operators, negation and `abs`. */
  predicate IsArithmetic(e: Expr) {
    match e
    case Lit(v) => v.Null? || (v.Int? && FitsI64(v.n))
    case Neg(inner) => IsArithmetic(inner)
    case Bin(op, left, right) => !op.Concat? && IsArithmetic(left) && IsArithmetic(right)
    case Call(name, args) => AsciiLower(name) == "abs" && |args| == 1 && IsArithmetic(args[0])
  }

  /** None is NULL. */
  function ExactBin(op: BinOp, l: Option<int>, r: Option<int>): Option<int> {
    if l.None? || r.None? then None
    else match op
      case Add => Some(l.value + r.value)
      case Sub => Some(l.value - r.value)
      case Mul => Some(l.value * r.value)
      case Div => if r.value == 0 then None else Some(TruncDiv(l.value, r.value))
      case Mod => if r.value == 0 then None else Some(TruncMod(l.value, r.value))
      case Concat => None
  }

  /** The value over unbounded integers. */
  function Exact(e: Expr): Option<int>
    requires IsArithmetic(e)
  {
    match e
    case Lit(v) => if v.Null? then None else Some(v.n)
    case Neg(inner) => (var v := Exact(inner); if v.None? then None else Some(-v.value))
    case Bin(op, left, right) => ExactBin(op, Exact(left), Exact(right))
    case Call(_, args) => (var v := Exact(args[0]); if v.None? then None else Some(Abs(v.value)))
  }

  predicate Fits(v: Option<int>) {
    v.Some? ==> FitsI64(v.value)
  }

  /** The remainder whose exact value fits but whose machine form traps. */
  predicate TrapsAnyway(op: BinOp, l: Option<int>, r: Option<int>) {
    op.Mod? && l == Some(I64_MIN) && r == Some(-1)
  }

  /** Every subexpression has an exact value that fits, and none is that remainder. */
  predicate FitsThroughout(e: Expr)
    requires IsArithmetic(e)
  {
    && Fits(Exact(e))
    && match e
       case Lit(_) => true
       case Neg(inner) => FitsThroughout(inner)
       case Bin(op, left, right) =>
         FitsThroughout(left) && FitsThroughout(right) && !TrapsAnyway(op, Exact(left), Exact(right))
       case Call(_, args) => FitsThroughout(args[0])
  }

  function ValueOf(v: Option<int>): Value {
    if v.None? then Null else Int(v.value)
  }

  lemma {:induction false} ArithmeticIsRealFree(e: Expr)
    requires IsArithmetic(e)
    ensures RealFree(e)
  {
    match e {
      case Lit(_) =>
      case Neg(inner) => ArithmeticIsRealFree(inner);
      case Bin(_, left, right) =>
        ArithmeticIsRealFree(left);
        ArithmeticIsRealFree(right);
      case Call(_, args) => ArithmeticIsRealFree(args[0]);
    }
  }

  lemma QuotientFits(a: int, b: int)
    requires FitsI64(a) && FitsI64(b) && b != 0
    ensures FitsI64(TruncDiv(a, b)) <==> !(a == I64_MIN && b == -1)
  {
  }

  lemma RemainderFits(a: int, b: int)
    requires FitsI64(a) && FitsI64(b) && b != 0
    ensures FitsI64(TruncMod(a, b))
  {
  }

  /** One operator on values that fit. */
  lemma BinIsExact(op: BinOp, l: Option<int>, r: Option<int>)
    requires !op.Concat? && Fits(l) && Fits(r)
    ensures var v := ExactBin(op, l, r);
            EvalBin(op, ValueOf(l), ValueOf(r)) ==
            if Fits(v) && !TrapsAnyway(op, l, r) then Done(ValueOf(v))
            else if op.Div? || op.Mod? then Panicked
            else Declined
  {
    hide TruncDiv, TruncMod;
    if l.Some? && r.Some? && r.value != 0 {
      QuotientFits(l.value, r.value);
      RemainderFits(l.value, r.value);
    }
  }

  /** The shell's result is the exact value, and it has one exactly when everything fits. */
  lemma {:induction false} EvalIsExact(maps: CaseMaps, e: Expr)
    requires IsArithmetic(e) && RealFree(e)
    ensures if FitsThroughout(e) then Eval(maps, e) == Done(ValueOf(Exact(e))) else !Eval(maps, e).Done?
  {
    hide ExactBin, EvalBin;
    match e {
      case Lit(_) =>
      case Neg(inner) => EvalIsExact(maps, inner);
      case Bin(op, left, right) =>
        EvalIsExact(maps, left);
        EvalIsExact(maps, right);
        if FitsThroughout(left) && FitsThroughout(right) {
          BinIsExact(op, Exact(left), Exact(right));
        }
      case Call(name, args) =>
        EvalIsExact(maps, args[0]);
        OneArgument(maps, args);
    }
  }

  lemma OneArgument(maps: CaseMaps, args: seq<Expr>)
    requires |args| == 1 && RealFree(args[0])
    ensures var r := Eval(maps, args[0]);
            EvalArgs(maps, args) == if r.Done? then Values([r.value]) else Stopped(r)
  {
  }

  /**
   The first subexpression, in the order they are evaluated, that has no value divides the smallest
   integer by minus one.
   */
  predicate Traps(e: Expr)
    requires IsArithmetic(e)
  {
    match e
    case Lit(_) => false
    case Neg(inner) => Traps(inner)
    case Bin(op, left, right) =>
      || Traps(left)
      || (FitsThroughout(left) && Traps(right))
      || ((op.Div? || op.Mod?) && FitsThroughout(left) && FitsThroughout(right) &&
          Exact(left) == Some(I64_MIN) && Exact(right) == Some(-1))
    case Call(_, args) => Traps(args[0])
  }

  /** A panic comes from dividing the smallest integer by minus one, and from nothing else. */
  lemma {:induction false} PanicsExactlyThere(maps: CaseMaps, e: Expr)
    requires IsArithmetic(e) && RealFree(e)
    ensures Eval(maps, e) == Panicked <==> Traps(e)
  {
    hide ExactBin, EvalBin, TruncDiv, TruncMod;
    match e {
      case Lit(_) =>
      case Neg(inner) => PanicsExactlyThere(maps, inner);
      case Bin(op, left, right) =>
        PanicsExactlyThere(maps, left);
        PanicsExactlyThere(maps, right);
        EvalIsExact(maps, left);
        EvalIsExact(maps, right);
        if FitsThroughout(left) && FitsThroughout(right) {
          BinPanics(op, Exact(left), Exact(right));
        }
      case Call(name, args) =>
        PanicsExactlyThere(maps, args[0]);
        OneArgument(maps, args);
    }
  }

  lemma BinPanics(op: BinOp, l: Option<int>, r: Option<int>)
    requires !op.Concat? && Fits(l) && Fits(r)
    ensures EvalBin(op, ValueOf(l), ValueOf(r)) == Panicked <==>
            (op.Div? || op.Mod?) && l == Some(I64_MIN) && r == Some(-1)
  {
  }

  /** The shell answers exactly when every exact value fits, panics exactly there, else declines. */
  lemma ArithmeticRefinesIntegers(maps: CaseMaps, e: Expr)
    requires IsArithmetic(e) && RealFree(e)
    ensures Eval(maps, e) ==
            if FitsThroughout(e) then Done(ValueOf(Exact(e))) else if Traps(e) then Panicked else Declined
  {
    hide Eval, Exact;
    EvalIsExact(maps, e);
    PanicsExactlyThere(maps, e);
  }
}
