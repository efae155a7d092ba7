/**
 * The placeholder scanners of the template-string back ends. A template is
 * plain text with three kinds of placeholder: a positional `||%n||` (the
 * n-th argument, counting from 1), `||%var||` (the current context's data
 * variable) and `||%subVar||` (the next context's). Each substitution pass
 * scans left to right and replaces every non-overlapping occurrence, the way
 * a global regular-expression replace does.
 *
 * The partner of the scanners is a template written as a sequence of pieces:
 * printing the pieces and running the passes gives the same text as
 * rendering the pieces directly, as long as the literal text and the
 * arguments hold no `%`.
 */
module Templates {
  import opened Js

  /** One substitution pass over a template. */
  datatype Pass =
    | Positional(args: seq<string>)
    | VarPass(replacement: string)
    | SubVarPass(replacement: string)

  /** The placeholder texts the context passes look for. */
  const VarToken: string := "||%var||"
  const SubVarToken: string := "||%subVar||"

  /** `args[n - 1]` as the replace callback returns it; a missing argument prints as `undefined`. */
  function ArgAt(args: seq<string>, n: nat): (r: string)
    ensures 1 <= n <= |args| ==> r == args[n - 1]
    ensures (n == 0 || n > |args|) ==> r == "undefined"
  {
    if 1 <= n <= |args| then args[n - 1] else "undefined"
  }

  /** The context's data variable: `data` at context 0, `data_<context>` otherwise. */
  function ContextVar(context: int): (r: string)
    ensures context == 0 <==> r == "data"
  {
    if context == 0 then "data" else "data_" + IntToString(context)
  }

  /** The data variable of the context one level down: always `data_<context + 1>`. */
  function SubContextVar(context: int): (r: string)
    ensures |r| > 5 && r[..5] == "data_"
  {
    "data_" + IntToString(context + 1)
  }

  /** At a non-negative context the two variables differ, and the sub-variable is never plain `data`. */
  lemma ContextVarsDistinct(context: int)
    requires context >= 0
    ensures SubContextVar(context) != ContextVar(context)
    ensures SubContextVar(context) != "data"
  {
    NatToStringInjective(context, context + 1);
    if context != 0 {
      assert ContextVar(context)[5..] == NatToString(context);
      assert SubContextVar(context)[5..] == NatToString(context + 1);
    }
  }

  /** The length of the run of decimal digits that starts `s` (the greedy `\d+`). */
  function DigitRun(s: string): (n: nat)
    ensures n <= |s|
    ensures forall i :: 0 <= i < n ==> IsDigit(s[i])
    ensures n < |s| ==> !IsDigit(s[n])
    decreases |s|
  {
    if |s| == 0 || !IsDigit(s[0]) then 0 else 1 + DigitRun(s[1..])
  }

  /** `s` starts with the `||%` every placeholder opens with. */
  predicate OpensPlaceholder(s: string)
  {
    |s| >= 3 && s[0] == '|' && s[1] == '|' && s[2] == '%'
  }

  /** The length of the placeholder this pass matches at the start of `s`, or 0 when there is none. */
  function MatchLength(p: Pass, s: string): (k: nat)
    ensures k <= |s|
    ensures k > 0 ==> k >= 3 && OpensPlaceholder(s)
  {
    if !OpensPlaceholder(s) then 0
    else
      match p
      case Positional(_) =>
        var d := DigitRun(s[3..]);
        if d > 0 && |s| >= 5 + d && s[3 + d] == '|' && s[4 + d] == '|' then 5 + d else 0
      case VarPass(_) => if VarToken <= s then |VarToken| else 0
      case SubVarPass(_) => if SubVarToken <= s then |SubVarToken| else 0
  }

  /** What replaces the placeholder matched at the start of `s`. */
  function Replacement(p: Pass, s: string): string
    requires MatchLength(p, s) > 0
  {
    match p
    case Positional(args) =>
      var d := DigitRun(s[3..]);
      assert AllDigits(s[3..3 + d]) by {
        assert forall i :: 0 <= i < d ==> s[3..3 + d][i] == s[3..][i];
      }
      ArgAt(args, DigitsValue(s[3..3 + d]))
    case VarPass(v) => v
    case SubVarPass(v) => v
  }

  /** One global replace: scan left to right, replace each match and resume after it. */
  function Run(p: Pass, s: string): (r: string)
    decreases |s|
  {
    if |s| == 0 then ""
    else
      var k := MatchLength(p, s);
      if k > 0 then Replacement(p, s) + Run(p, s[k..]) else [s[0]] + Run(p, s[1..])
  }

  /**
   * The substitution of the context-aware back ends: positional arguments
   * first, then `||%var||`, then `||%subVar||`.
   */
  function Substitute(template: string, args: seq<string>, context: int): string
  {
    Run(SubVarPass(SubContextVar(context)), Run(VarPass(ContextVar(context)), Run(Positional(args), template)))
  }

  /** The substitution of the positional-only back ends. */
  function SubstitutePositional(template: string, args: seq<string>): string
  {
    Run(Positional(args), template)
  }

  // ---------------------------------------------------------------------------
  // Templates as pieces

  datatype Piece = Lit(text: string) | Slot(n: nat) | VarTok | SubVarTok

  /** How a piece is written in a template. */
  function Text(x: Piece): string
  {
    match x
    case Lit(t) => t
    case Slot(n) => "||%" + NatToString(n) + "||"
    case VarTok => VarToken
    case SubVarTok => SubVarToken
  }

  /** A template as the pieces it is written with, first to last. */
  datatype Template = End | Then(head: Piece, tail: Template)

  function Print(t: Template): string
  {
    match t
    case End => ""
    case Then(x, rest) => Text(x) + Print(rest)
  }

  /** What a piece becomes once all three passes have run. */
  function Value(x: Piece, args: seq<string>, context: int): string
  {
    match x
    case Lit(t) => t
    case Slot(n) => ArgAt(args, n)
    case VarTok => ContextVar(context)
    case SubVarTok => SubContextVar(context)
  }

  /** The reference meaning of a template: each piece rendered in place. */
  function Render(t: Template, args: seq<string>, context: int): string
  {
    match t
    case End => ""
    case Then(x, rest) => Value(x, args, context) + Render(rest, args, context)
  }

  /** What one pass does to one piece. */
  function Step(p: Pass, x: Piece): Piece
  {
    match (p, x)
    case (Positional(args), Slot(n)) => Lit(ArgAt(args, n))
    case (VarPass(v), VarTok) => Lit(v)
    case (SubVarPass(v), SubVarTok) => Lit(v)
    case _ => x
  }

  /** A pass applied piece by piece. */
  function Steps(p: Pass, t: Template): Template
  {
    match t
    case End => End
    case Then(x, rest) => Then(Step(p, x), Steps(p, rest))
  }

  predicate PercentFree(s: string)
  {
    '%' !in s
  }

  predicate LiteralsPercentFree(t: Template)
  {
    match t
    case End => true
    case Then(x, rest) => (x.Lit? ==> PercentFree(x.text)) && LiteralsPercentFree(rest)
  }

  /** Neither of the first two characters is a `%`. */
  predicate HeadOk(s: string)
  {
    (|s| > 0 ==> s[0] != '%') && (|s| > 1 ==> s[1] != '%')
  }

  /** Every placeholder has its `%` third. */
  lemma MatchNeedsPercent(p: Pass, s: string)
    ensures MatchLength(p, s) > 0 ==> |s| >= 3 && s[2] == '%'
  {
  }

  /** Where no placeholder starts, the scan keeps one character and moves on. */
  lemma RunSkips(p: Pass, s: string)
    requires |s| > 0 && MatchLength(p, s) == 0
    ensures Run(p, s) == [s[0]] + Run(p, s[1..])
  {
  }

  /** Where a placeholder starts, the scan emits its replacement and resumes after it. */
  lemma RunReplaces(p: Pass, s: string)
    requires MatchLength(p, s) > 0
    ensures Run(p, s) == Replacement(p, s) + Run(p, s[MatchLength(p, s)..])
  {
  }

  /** Nothing matches where the third character is not a `%`. */
  lemma NoMatchWithoutPercent(p: Pass, s: string)
    requires |s| < 3 || s[2] != '%'
    ensures MatchLength(p, s) == 0
  {
    MatchNeedsPercent(p, s);
  }

  /** One character of text with no `%` two places on is kept as it is. */
  lemma PlainStep(p: Pass, t: string, rest: string)
    requires |t| > 0
    requires forall i :: 2 <= i < |t| ==> t[i] != '%'
    requires HeadOk(rest)
    ensures Run(p, t + rest) == [t[0]] + Run(p, t[1..] + rest)
  {
    var s := t + rest;
    assert |s| < 3 || s[2] != '%' by {
      if |s| >= 3 && |t| < 3 { assert s[2] == rest[2 - |t|]; }
    }
    NoMatchWithoutPercent(p, s);
    RunSkips(p, s);
    assert s[1..] == t[1..] + rest;
  }

  /** Text with no `%` from its third character on, followed by text whose head is `%`-free, matches nowhere. */
  lemma {:induction false} PlainPrefix(p: Pass, t: string, rest: string)
    requires forall i :: 2 <= i < |t| ==> t[i] != '%'
    requires HeadOk(rest)
    ensures Run(p, t + rest) == t + Run(p, rest)
    decreases |t|
  {
    if |t| == 0 {
      assert t + rest == rest;
    } else {
      PlainStep(p, t, rest);
      PlainPrefix(p, t[1..], rest);
      assert t == [t[0]] + t[1..];
    }
  }

  /** A template with no `%` comes back unchanged from every pass. */
  lemma NoPlaceholderUnchanged(p: Pass, s: string)
    requires PercentFree(s)
    ensures Run(p, s) == s
  {
    PlainPrefix(p, s, "");
    assert s + "" == s;
  }

  lemma PercentFreeDigits(s: string)
    requires AllDigits(s)
    ensures PercentFree(s)
  {
    forall i | 0 <= i < |s| ensures s[i] != '%' {
      assert IsDigit(s[i]);
    }
  }

  /** A placeholder opens with `||%` and has no other `%`. */
  lemma TokenShape(x: Piece)
    requires !x.Lit?
    ensures |Text(x)| >= 6 && Text(x)[..3] == "||%"
    ensures forall i :: 3 <= i < |Text(x)| ==> Text(x)[i] != '%'
  {
    if x.Slot? {
      var d := NatToString(x.n);
      PercentFreeDigits(d);
      assert forall i :: 3 <= i < 3 + |d| ==> Text(x)[i] == d[i - 3];
    }
  }

  lemma DigitRunOfDigits(d: string, t: string)
    requires AllDigits(d)
    requires |t| > 0 && !IsDigit(t[0])
    ensures DigitRun(d + t) == |d|
    decreases |d|
  {
    if |d| > 0 {
      assert (d + t)[1..] == d[1..] + t;
      DigitRunOfDigits(d[1..], t);
    }
  }

  /** The positional pass reads `||%n||` back as the number `n`. */
  lemma SlotMatch(args: seq<string>, n: nat, rest: string)
    ensures MatchLength(Positional(args), Text(Slot(n)) + rest) == |Text(Slot(n))|
    ensures Replacement(Positional(args), Text(Slot(n)) + rest) == ArgAt(args, n)
  {
    var s := Text(Slot(n)) + rest;
    var d := NatToString(n);
    assert s[3..] == d + ("||" + rest);
    DigitRunOfDigits(d, "||" + rest);
    assert s[3 + |d|] == '|' && s[4 + |d|] == '|';
    assert s[3..3 + |d|] == d;
    DigitsValueOfNatToString(n);
  }

  lemma PrefixOfJoin(a: string, rest: string)
    ensures a <= a + rest
  {
  }

  /** A pass recognises a placeholder written at the start of the text exactly when it rewrites that piece. */
  lemma TokenMatch(p: Pass, x: Piece, rest: string)
    requires !x.Lit? && Step(p, x) != x
    ensures MatchLength(p, Text(x) + rest) == |Text(x)|
    ensures Replacement(p, Text(x) + rest) == Text(Step(p, x))
  {
    if x.Slot? {
      SlotMatch(p.args, x.n, rest);
    } else {
      PrefixOfJoin(Text(x), rest);
      TokenShape(x);
    }
  }

  lemma TokenNoMatch(p: Pass, x: Piece, rest: string)
    requires !x.Lit? && Step(p, x) == x
    ensures MatchLength(p, Text(x) + rest) == 0
  {
    var s := Text(x) + rest;
    TokenShape(x);
    assert s[3] == Text(x)[3];
    match p
    case Positional(_) =>
      assert !IsDigit(s[3]) by {
        if x.VarTok? { assert s[3] == 'v'; } else { assert x.SubVarTok?; assert s[3] == 's'; }
      }
    case VarPass(_) =>
      assert !x.VarTok?;
      if x.SubVarTok? { assert s[3] == 's'; }
      else { assert IsDigit(s[3]) by { assert s[3..][0] == NatToString(x.n)[0]; } }
    case SubVarPass(_) =>
      assert !x.SubVarTok?;
      if x.VarTok? { assert s[3] == 'v'; }
      else { assert IsDigit(s[3]) by { assert s[3..][0] == NatToString(x.n)[0]; } }
  }

  lemma TokenReplaced(p: Pass, x: Piece, rest: string)
    requires !x.Lit? && Step(p, x) != x
    ensures Run(p, Text(x) + rest) == Text(Step(p, x)) + Run(p, rest)
  {
    var s := Text(x) + rest;
    TokenMatch(p, x, rest);
    RunReplaces(p, s);
    assert s[|Text(x)|..] == rest;
  }

  lemma TokenKept(p: Pass, x: Piece, rest: string)
    requires !x.Lit? && Step(p, x) == x
    requires HeadOk(rest)
    ensures Run(p, Text(x) + rest) == Text(x) + Run(p, rest)
  {
    TokenNoMatch(p, x, rest);
    TokenShape(x);
    KeptPrefix(p, Text(x), rest);
  }

  /** A text the pass does not match at its start, with no `%` from position 3 on, is copied through. */
  lemma KeptPrefix(p: Pass, t: string, rest: string)
    requires |t| > 0 && MatchLength(p, t + rest) == 0
    requires forall i :: 3 <= i < |t| ==> t[i] != '%'
    requires HeadOk(rest)
    ensures Run(p, t + rest) == t + Run(p, rest)
  {
    SkipFirst(p, t, rest);
    PlainPrefix(p, t[1..], rest);
    ConsTail(t, Run(p, rest));
  }

  lemma SkipFirst(p: Pass, t: string, rest: string)
    requires |t| > 0 && MatchLength(p, t + rest) == 0
    ensures Run(p, t + rest) == [t[0]] + Run(p, t[1..] + rest)
  {
    var s := t + rest;
    RunSkips(p, s);
    assert s[0] == t[0] && s[1..] == t[1..] + rest;
  }

  /** A pass replaces a placeholder it recognises and leaves any other one as it is written. */
  lemma TokenStep(p: Pass, x: Piece, rest: string)
    requires !x.Lit?
    requires HeadOk(rest)
    ensures Run(p, Text(x) + rest) == Text(Step(p, x)) + Run(p, rest)
  {
    if Step(p, x) != x {
      TokenReplaced(p, x, rest);
    } else {
      TokenKept(p, x, rest);
    }
  }

  /** A printed template never starts with `%`, nor has one second. */
  lemma {:induction false} PrintHead(t: Template)
    requires LiteralsPercentFree(t)
    ensures HeadOk(Print(t))
  {
    match t
    case End =>
    case Then(x, rest) =>
      PrintHead(rest);
      if !x.Lit? {
        TokenShape(x);
        assert Print(t)[..3] == Text(x)[..3];
      } else if |x.text| >= 2 {
        assert Print(t)[0] == x.text[0] && Print(t)[1] == x.text[1];
      } else if |x.text| == 1 {
        assert Print(t)[0] == x.text[0];
        assert Print(t)[1..] == Print(rest);
      } else {
        assert Print(t) == Print(rest);
      }
  }

  /** Running a pass over a printed template is printing the template with that pass applied piece by piece. */
  lemma {:induction false} RunPrint(p: Pass, t: Template)
    requires LiteralsPercentFree(t)
    ensures Run(p, Print(t)) == Print(Steps(p, t))
  {
    match t
    case End =>
    case Then(x, rest) =>
      PrintHead(rest);
      RunPrint(p, rest);
      if x.Lit? {
        PlainPrefix(p, x.text, Print(rest));
      } else {
        TokenStep(p, x, Print(rest));
      }
  }

  lemma IntToStringPercentFree(i: int)
    ensures PercentFree(IntToString(i))
  {
    var s := IntToString(i);
    if i < 0 {
      PercentFreeDigits(NatToString(-i));
      assert forall k :: 1 <= k < |s| ==> s[k] == NatToString(-i)[k - 1];
    } else {
      PercentFreeDigits(s);
    }
  }

  lemma ContextVarsPercentFree(context: int)
    ensures PercentFree(ContextVar(context))
    ensures PercentFree(SubContextVar(context))
  {
    IntToStringPercentFree(context);
    IntToStringPercentFree(context + 1);
    var a := IntToString(context);
    var b := IntToString(context + 1);
    assert forall k :: 5 <= k < 5 + |a| ==> ("data_" + a)[k] == a[k - 5];
    assert forall k :: 5 <= k < 5 + |b| ==> ("data_" + b)[k] == b[k - 5];
  }

  predicate ArgsPercentFree(args: seq<string>)
  {
    forall i :: 0 <= i < |args| ==> PercentFree(args[i])
  }

  lemma {:induction false} StepsKeepPercentFree(p: Pass, t: Template)
    requires LiteralsPercentFree(t)
    requires p.Positional? ==> ArgsPercentFree(p.args)
    requires !p.Positional? ==> PercentFree(p.replacement)
    ensures LiteralsPercentFree(Steps(p, t))
  {
    match t
    case End =>
    case Then(x, rest) =>
      StepsKeepPercentFree(p, rest);
      if p.Positional? && x.Slot? && !(1 <= x.n <= |p.args|) {
        assert ArgAt(p.args, x.n) == "undefined";
      }
  }

  lemma {:induction false} ThreeStepsRender(t: Template, args: seq<string>, context: int)
    ensures Print(Steps(SubVarPass(SubContextVar(context)), Steps(VarPass(ContextVar(context)), Steps(Positional(args), t))))
         == Render(t, args, context)
  {
    match t
    case End =>
    case Then(x, rest) => ThreeStepsRender(rest, args, context);
  }

  /**
   * The three passes render every placeholder in place: each `||%n||`
   * becomes its argument (so a repeated placeholder repeats it), `||%var||`
   * and `||%subVar||` become the context variables, and literal text is kept.
   */
  lemma SubstituteRenders(t: Template, args: seq<string>, context: int)
    requires LiteralsPercentFree(t)
    requires ArgsPercentFree(args)
    ensures Substitute(Print(t), args, context) == Render(t, args, context)
  {
    ContextVarsPercentFree(context);
    var p1 := Positional(args);
    var p2 := VarPass(ContextVar(context));
    var p3 := SubVarPass(SubContextVar(context));
    RunPrint(p1, t);
    var t1 := Steps(p1, t);
    StepsKeepPercentFree(p1, t);
    RunPrint(p2, t1);
    var t2 := Steps(p2, t1);
    StepsKeepPercentFree(p2, t1);
    RunPrint(p3, t2);
    ThreeStepsRender(t, args, context);
  }

  /** Keeps the pieces that are not positional placeholders. */
  predicate OnlySlotsChange(t: Template, u: Template)
  {
    match (t, u)
    case (End, End) => true
    case (Then(x, r), Then(y, s)) => (!x.Slot? ==> y == x) && (x.Slot? ==> y.Lit?) && OnlySlotsChange(r, s)
    case _ => false
  }

  /** The positional pass alone fills the slots and leaves every other piece as written, `||%var||` included. */
  lemma {:induction false} SubstitutePositionalRenders(t: Template, args: seq<string>)
    requires LiteralsPercentFree(t)
    ensures SubstitutePositional(Print(t), args) == Print(Steps(Positional(args), t))
    ensures OnlySlotsChange(t, Steps(Positional(args), t))
  {
    RunPrint(Positional(args), t);
    match t
    case End =>
    case Then(x, rest) => SubstitutePositionalRenders(rest, args);
  }
}
