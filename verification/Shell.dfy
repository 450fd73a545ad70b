/** Statement splitting and dispatch of the lite shell: `crates/redlinedb-lite/src/shellzero.rs`. */
module Shell {
  import opened Chars
  import opened Joining

  // ---- Splitting -----------------------------------------------------------------------------

  /** Whether a position lies inside a quoted text: after an odd number of quotes. */
  predicate InQuotes(s: string) {
    if s == "" then false else if s[|s| - 1] == '\'' then !InQuotes(s[..|s| - 1]) else InQuotes(s[..|s| - 1])
  }

  /** The semicolons that end statements. */
  predicate IsBreak(s: string, i: nat)
    requires i < |s|
  {
    s[i] == ';' && !InQuotes(s[..i])
  }

  /** The pieces between breaks, the last one included. */
  function Pieces(s: string): (r: seq<string>)
    ensures r != []
  {
    if s == "" then [""]
    else
      var before := Pieces(s[..|s| - 1]);
      if IsBreak(s, |s| - 1) then before + [""]
      else before[..|before| - 1] + [before[|before| - 1] + [s[|s| - 1]]]
  }

  /** `split_statements` keeps every piece but a blank last one. */
  function Statements(s: string): seq<string> {
    var p := Pieces(s);
    if Trim(p[|p| - 1]) == "" then p[..|p| - 1] else p
  }

  function Joined(pieces: seq<string>): string {
    Join(pieces, ";")
  }

  lemma JoinedAppend(pieces: seq<string>, last: string)
    ensures Joined(pieces + [last]) == if pieces == [] then last else Joined(pieces) + ";" + last
  {
    JoinAppend(pieces, last, ";");
    assert pieces == [] ==> pieces + [last] == [last];
  }

  lemma {:induction false} PiecesJoin(s: string)
    ensures Joined(Pieces(s)) == s
  {
    if s != "" {
      var t, c := s[..|s| - 1], s[|s| - 1];
      PiecesJoin(t);
      var before := Pieces(t);
      var front, last := before[..|before| - 1], before[|before| - 1];
      assert before == front + [last] && s == t + [c];
      JoinedAppend(front, last);
      JoinedAppend(before, "");
      JoinedAppend(front, last + [c]);
    }
  }

  lemma {:induction false} InQuotesAppend(a: string, b: string)
    ensures InQuotes(a + b) == (InQuotes(a) != InQuotes(b))
    decreases |b|
  {
    if b == "" {
      assert a + b == a;
    } else {
      assert (a + b)[..|a + b| - 1] == a + b[..|b| - 1];
      InQuotesAppend(a, b[..|b| - 1]);
    }
  }

  ghost predicate NoBreak(s: string) {
    forall i :: 0 <= i < |s| ==> !IsBreak(s, i)
  }

  ghost predicate Balanced(pieces: seq<string>) {
    forall k :: 0 <= k < |pieces| ==> !InQuotes(pieces[k])
  }

  ghost predicate Unbroken(pieces: seq<string>) {
    forall k :: 0 <= k < |pieces| ==> NoBreak(pieces[k])
  }

  lemma NoBreakAppend(s: string, c: char)
    requires NoBreak(s) && (c != ';' || InQuotes(s))
    ensures NoBreak(s + [c])
  {
    forall i | 0 <= i < |s + [c]|
      ensures !IsBreak(s + [c], i)
    {
      if i < |s| {
        assert (s + [c])[..i] == s[..i] && !IsBreak(s, i);
      } else {
        assert (s + [c])[..i] == s;
      }
    }
  }

  /** No piece has a semicolon outside quotes, and only the last can end inside them. */
  lemma {:induction false} PiecesAreStatements(s: string)
    ensures var p := Pieces(s);
            Unbroken(p) && Balanced(p[..|p| - 1]) && InQuotes(p[|p| - 1]) == InQuotes(s)
  {
    hide InQuotes, NoBreak;
    if s == "" {
      NothingIsOpen();
    } else {
      var t, c := s[..|s| - 1], s[|s| - 1];
      PiecesAreStatements(t);
      var before := Pieces(t);
      var front, last := before[..|before| - 1], before[|before| - 1];
      assert before == front + [last] && s == t + [c];
      QuoteTurns(t, c);
      if IsBreak(s, |s| - 1) {
        NothingIsOpen();
        assert (before + [""])[..|before|] == before;
      } else {
        assert NoBreak(last);
        NoBreakAppend(last, c);
        QuoteTurns(last, c);
        var p := front + [last + [c]];
        assert p[..|p| - 1] == front && Pieces(s) == p;
      }
    }
  }

  lemma NothingIsOpen()
    ensures !InQuotes("") && NoBreak("")
  {
  }

  lemma QuoteTurns(s: string, c: char)
    ensures InQuotes(s + [c]) == if c == '\'' then !InQuotes(s) else InQuotes(s)
  {
    assert (s + [c])[..|s|] == s;
  }

  lemma {:induction false} InQuotesJoined(pieces: seq<string>)
    requires pieces != [] && Balanced(pieces[..|pieces| - 1])
    ensures InQuotes(Joined(pieces)) == InQuotes(pieces[|pieces| - 1])
    decreases |pieces|
  {
    var n := |pieces|;
    if n > 1 {
      assert pieces[..n - 1][0] == pieces[0] && pieces[1..][..n - 2] == pieces[..n - 1][1..];
      InQuotesJoined(pieces[1..]);
      var first, rest := pieces[0], Joined(pieces[1..]);
      assert first + ";" + rest == first + (";" + rest);
      InQuotesAppend(first, ";" + rest);
      InQuotesAppend(";", rest);
      assert ";"[..0] == "";
    }
  }

  lemma BreakEndsPiece(t: string, pieces: seq<string>)
    requires Pieces(t) == pieces && !InQuotes(t)
    ensures Pieces(t + ";") == pieces + [""]
  {
  }

  lemma CharJoinsPiece(t: string, front: seq<string>, last: string, c: char)
    requires Pieces(t) == front + [last] && InQuotes(t) == InQuotes(last)
    requires NoBreak(last + [c])
    ensures Pieces(t + [c]) == front + [last + [c]]
  {
    hide InQuotes;
    assert (t + [c])[..|t|] == t && (front + [last])[..|front|] == front;
    assert (last + [c])[..|last|] == last && !IsBreak(last + [c], |last|);
  }

  /** Breaking at unquoted semicolons can be done in one way only. */
  lemma {:induction false} PiecesAreUnique(q: seq<string>)
    requires q != [] && Unbroken(q) && Balanced(q[..|q| - 1])
    ensures Pieces(Joined(q)) == q
    decreases |Joined(q)|
  {
    hide Pieces, InQuotes, NoBreak, Joined;
    var front, last := q[..|q| - 1], q[|q| - 1];
    assert q == front + [last];
    JoinedAppend(front, last);
    if last == "" && front == [] {
      NothingYet();
      assert q == [] + [""];
    } else if last == "" {
      assert front[..|front| - 1] == q[..|front| - 1];
      InQuotesJoined(front);
      assert !InQuotes(front[|front| - 1]);
      PiecesAreUnique(front);
      BreakEndsPiece(Joined(front), front);
      assert Joined(front) + ";" + "" == Joined(front) + ";";
    } else {
      var shorter, c := last[..|last| - 1], last[|last| - 1];
      assert last == shorter + [c];
      var q' := front + [shorter];
      JoinedAppend(front, shorter);
      assert Joined(q) == Joined(q') + [c];
      PrefixHasNoBreak(last);
      assert q'[..|q'| - 1] == front;
      InQuotesJoined(q');
      PiecesAreUnique(q');
      CharJoinsPiece(Joined(q'), front, shorter, c);
    }
  }

  lemma PrefixHasNoBreak(s: string)
    requires s != "" && NoBreak(s)
    ensures NoBreak(s[..|s| - 1])
  {
    var t := s[..|s| - 1];
    forall i | 0 <= i < |t|
      ensures !IsBreak(t, i)
    {
      assert t[..i] == s[..i] && !IsBreak(s, i);
    }
  }

  /** Joining the statements gives back the input, but for a blank tail after the last break. */
  lemma StatementsLoseNothing(s: string)
    ensures var p := Pieces(s);
            && Joined(p) == s
            && (Statements(s) == p || (Statements(s) + [p[|p| - 1]] == p && IsBlank(p[|p| - 1])))
  {
    PiecesJoin(s);
    var p := Pieces(s);
    if Trim(p[|p| - 1]) == "" {
      TrimmedAway(p[|p| - 1]);
    }
  }

  lemma TrimmedAway(s: string)
    ensures Trim(s) == "" <==> IsBlank(s)
  {
    TrimStartOf(s);
    TrimEndOf(TrimStart(s));
  }

  lemma {:induction false} TrimStartOf(s: string)
    ensures TrimStart(s) == "" <==> IsBlank(s)
    ensures TrimStart(s) != "" ==> !IsBlank(TrimStart(s))
  {
    hide IsWhitespace;
    if s != "" {
      assert s[0] in s && forall c <- s :: c == s[0] || c in s[1..];
      assert forall c <- s[1..] :: c in s;
      if IsWhitespace(s[0]) {
        TrimStartOf(s[1..]);
      }
    }
  }

  lemma {:induction false} TrimEndOf(s: string)
    ensures TrimEnd(s) == "" <==> IsBlank(s)
  {
    hide IsWhitespace;
    if s != "" {
      var t, c := s[..|s| - 1], s[|s| - 1];
      assert c in s && forall d <- s :: d == c || d in t;
      assert forall d <- t :: d in s;
      if IsWhitespace(c) {
        TrimEndOf(t);
      }
    }
  }

  /** The loop of `split_statements`, with its look at the character after a quote. */
  method SplitStatements(input: string) returns (stmts: seq<string>)
    ensures stmts == Statements(input)
  {
    hide Trim, InQuotes, Pieces;
    stmts := [];
    var cur := "";
    var inStr := false;
    var i := 0;
    NothingYet();
    assert input[..0] == "";
    while i < |input|
      invariant 0 <= i <= |input| && Pieces(input[..i]) == stmts + [cur] && inStr == InQuotes(input[..i])
    {
      var c := input[i];
      OneMoreChar(input, i, stmts, cur);
      i := i + 1;
      if inStr {
        cur := cur + [c];
        if c == '\'' {
          if i < |input| && input[i] == '\'' {
            OneMoreChar(input, i, stmts, cur);
            cur := cur + ['\''];
            i := i + 1;
          } else {
            inStr := false;
          }
        }
      } else if c == '\'' {
        inStr := true;
        cur := cur + [c];
      } else if c == ';' {
        stmts := stmts + [cur];
        cur := "";
      } else {
        cur := cur + [c];
      }
    }
    assert input[..i] == input;
    assert (stmts + [cur])[..|stmts|] == stmts;
    if Trim(cur) != "" {
      stmts := stmts + [cur];
    }
  }

  lemma NothingYet()
    ensures Pieces("") == [] + [""] && !InQuotes("")
  {
  }

  lemma OneMoreChar(input: string, i: nat, stmts: seq<string>, cur: string)
    requires i < |input| && Pieces(input[..i]) == stmts + [cur]
    ensures var quoted, c := InQuotes(input[..i]), input[i];
            && InQuotes(input[..i + 1]) == (if c == '\'' then !quoted else quoted)
            && Pieces(input[..i + 1]) ==
               if c == ';' && !quoted then stmts + [cur] + [""] else stmts + [cur + [c]]
  {
    var s := input[..i + 1];
    assert s[..|s| - 1] == input[..i] && s[|s| - 1] == input[i];
    assert (stmts + [cur])[..|stmts|] == stmts;
  }

  // ---- Dispatch ------------------------------------------------------------------------------

  /** What one statement does: print, end the session, need the full program, or stop on a panic. */
  datatype Effect = Output(text: string) | Exit(code: int) | Refused | Panic

  datatype Dispatch = Handled(out: string, code: int) | Unsupported | Panics

  /** The statements that are not blank, trimmed. */
  function Live(stmts: seq<string>): seq<string> {
    if stmts == [] then []
    else
      var before, last := Live(stmts[..|stmts| - 1]), Trim(stmts[|stmts| - 1]);
      if last == "" then before else before + [last]
  }

  /** How many statements only print before the first that does something else. */
  function Prints(run: string -> Effect, stmts: seq<string>): (n: nat)
    ensures n <= |stmts| && (forall i :: 0 <= i < n ==> run(stmts[i]).Output?) && (n < |stmts| ==> !run(stmts[n]).Output?)
  {
    if stmts == [] || !run(stmts[0]).Output? then 0 else 1 + Prints(run, stmts[1..])
  }

  function Printed(run: string -> Effect, stmts: seq<string>): string {
    if stmts == [] then ""
    else
      var last := run(stmts[|stmts| - 1]);
      Printed(run, stmts[..|stmts| - 1]) + if last.Output? then last.text else ""
  }

  /** All or nothing: every statement up to the first exit, in order, or none at all. */
  function Dispatched(run: string -> Effect, live: seq<string>): (r: Dispatch)
    ensures r.Handled? <==> (forall i <- live :: run(i).Output?) || exists k :: 0 <= k < |live| && EndsAt(run, live, k)
  {
    var n := Prints(run, live);
    if n == |live| then Handled(Printed(run, live), 0)
    else
      match run(live[n])
      case Exit(code) => assert EndsAt(run, live, n); Handled(Printed(run, live[..n]), code)
      case Panic => Panics
      case _ => Unsupported
  }

  /** The session ends at the statement: the ones before it only print. */
  predicate EndsAt(run: string -> Effect, live: seq<string>, k: nat)
    requires k < |live|
  {
    run(live[k]).Exit? && forall i :: 0 <= i < k ==> run(live[i]).Output?
  }

  /** `dispatch`, for any meaning of the single statements. */
  method DispatchAll(sql: seq<string>, stdin: Option<string>, run: string -> Effect) returns (r: Dispatch)
    ensures sql == [] && stdin.None? ==> r == Unsupported
    ensures sql != [] || stdin.Some? ==>
              r == Dispatched(run, Live(Statements(Join(sql + if stdin.Some? then [stdin.value] else [], "\n"))))
  {
    hide Trim, Statements, Join, Live, Prints, Dispatched, IsBreak;
    var inputs := sql + if stdin.Some? then [stdin.value] else [];
    if |inputs| == 0 {
      return Unsupported;
    }
    var stmts := SplitStatements(Join(inputs, "\n"));
    ghost var live := Live(stmts);
    var out := "";
    assert stmts[..0] == [];
    NothingLive(run);
    for i := 0 to |stmts|
      invariant Live(stmts[..i]) <= live && out == Printed(run, live[..|Live(stmts[..i])|])
      invariant forall k :: 0 <= k < |Live(stmts[..i])| ==> run(live[k]).Output?
    {
      var trimmed := Trim(stmts[i]);
      ghost var done := |Live(stmts[..i])|;
      NextLive(stmts, i);
      if trimmed == "" {
        continue;
      }
      match run(trimmed) {
        case Output(text) =>
          assert live[..done + 1] == live[..done] + [trimmed];
          out := out + text;
        case Exit(code) =>
          StopsThere(run, live, done);
          return Handled(out, code);
        case Refused =>
          StopsThere(run, live, done);
          return Unsupported;
        case Panic =>
          StopsThere(run, live, done);
          return Panics;
      }
    }
    assert stmts[..|stmts|] == stmts && live[..|live|] == live;
    RunsThrough(run, live);
    return Handled(out, 0);
  }

  lemma NothingLive(run: string -> Effect)
    ensures Live([]) == [] && Printed(run, []) == ""
  {
  }

  /** The first statement that does not print decides. */
  lemma StopsThere(run: string -> Effect, live: seq<string>, k: nat)
    requires k < |live| && !run(live[k]).Output? && forall i :: 0 <= i < k ==> run(live[i]).Output?
    ensures Dispatched(run, live) ==
            match run(live[k])
            case Exit(code) => Handled(Printed(run, live[..k]), code)
            case Panic => Panics
            case _ => Unsupported
  {
    hide Printed;
    assert Prints(run, live) == k;
  }

  lemma RunsThrough(run: string -> Effect, live: seq<string>)
    requires forall i :: 0 <= i < |live| ==> run(live[i]).Output?
    ensures Dispatched(run, live) == Handled(Printed(run, live), 0)
  {
    hide Printed;
    assert Prints(run, live) == |live|;
  }

  lemma NextLive(stmts: seq<string>, i: nat)
    requires i < |stmts|
    ensures var t := Trim(stmts[i]);
            && Live(stmts[..i + 1]) == (if t == "" then Live(stmts[..i]) else Live(stmts[..i]) + [t])
            && Live(stmts[..i + 1]) <= Live(stmts)
            && (t != "" ==> |Live(stmts[..i])| < |Live(stmts)| && Live(stmts)[|Live(stmts[..i])|] == t)
  {
    hide Trim;
    assert stmts[..i + 1][..i] == stmts[..i];
    LiveOfPrefix(stmts, i + 1);
  }

  lemma {:induction false} LiveOfPrefix(stmts: seq<string>, i: nat)
    requires i <= |stmts|
    ensures Live(stmts[..i]) <= Live(stmts)
    decreases |stmts|
  {
    hide Trim;
    if i < |stmts| {
      var shorter := stmts[..|stmts| - 1];
      assert shorter[..i] == stmts[..i];
      LiveOfPrefix(shorter, i);
    } else {
      assert stmts[..i] == stmts;
    }
  }
}
