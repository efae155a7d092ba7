/**
 * The control controller (controllers/control.js, and the identical copy in
 * controller.js:219-380): guards in JSX (`{ flag && <X/> }`) and ternaries
 * whose test names a registered control variable become output bracketed by
 * `getLanguageControl` markers.
 *
 * `getExpressionArgs` (utils.js) is not part of this model: the arguments it
 * extracts from a guard are a parameter `argsOf`.
 */
module ControlRules {
  import opened Js
  import opened Ast
  import opened Registry
  import opened Markers
  import opened ListRules

  /** The intents a guard can express. */
  datatype Intent = IfTruthy | IfFalsy | IfEqual | IfNotEqual

  function IntentName(i: Intent): string
  {
    match i
    case IfTruthy => "ifTruthy"
    case IfFalsy => "ifFalsy"
    case IfEqual => "ifEqual"
    case IfNotEqual => "ifNotEqual"
  }

  /** Intents are told apart by name, so markers of different intents never match. */
  lemma IntentNameInjective(a: Intent, b: Intent)
    ensures IntentName(a) == IntentName(b) ==> a == b
  {
  }

  /** `identifierCount`: the arguments of type `identifier`. */
  function IdentifierCount(args: seq<Arg>): (r: nat)
    ensures r <= |args|
    ensures r > 0 <==> exists i :: 0 <= i < |args| && args[i].kind == "identifier"
  {
    if |args| == 0 then 0
    else
      var rest := IdentifierCount(args[1..]);
      assert forall i :: 1 <= i < |args| ==> args[1..][i - 1] == args[i];
      (if args[0].kind == "identifier" then 1 else 0) + rest
  }

  /** `conditionsMatched`: identifier arguments naming a registered control variable. */
  function MatchedCount(names: seq<Option<ConfigDecode.Value>>, args: seq<Arg>): (r: nat)
    ensures r <= IdentifierCount(args)
    ensures r > 0 <==> exists i :: 0 <= i < |args| && args[i].kind == "identifier" && Registered(names, args[i].value)
  {
    if |args| == 0 then 0
    else
      var rest := MatchedCount(names, args[1..]);
      assert forall i :: 1 <= i < |args| ==> args[1..][i - 1] == args[i];
      (if args[0].kind == "identifier" && Registered(names, args[0].value) then 1 else 0) + rest
  }

  /** getExpressionStatement's result: the arguments, always, and the intent when there is one. */
  datatype Statement = Statement(args: seq<Arg>, intent: Option<Intent>)

  /**
   * getExpressionStatement: no intent unless some identifier argument is a
   * registered control name; then the intent follows the guard's shape, and
   * a member, logical, other unary or other binary guard has none.
   */
  function GetExpressionStatement(names: seq<Option<ConfigDecode.Value>>, e: Node, args: seq<Arg>): (r: Statement)
    ensures r.args == args
    ensures MatchedCount(names, args) == 0 ==> r.intent.None?
    ensures MatchedCount(names, args) > 0 ==>
      (e.Identifier? ==> r.intent == Some(IfTruthy)) &&
      (e.UnaryExpression? ==> r.intent == (if e.operator == "!" then Some(IfFalsy) else None)) &&
      (e.BinaryExpression? ==>
        r.intent == (if e.operator == "===" then Some(IfEqual) else if e.operator == "!==" then Some(IfNotEqual) else None))
    ensures !e.Identifier? && !e.UnaryExpression? && !e.BinaryExpression? ==> r.intent.None?
    ensures r.intent.Some? ==> |r.args| > 0
  {
    if IdentifierCount(args) == 0 || MatchedCount(names, args) == 0 then Statement(args, None)
    else if e.Identifier? then Statement(args, Some(IfTruthy))
    else if e.UnaryExpression? then Statement(args, if e.operator == "!" then Some(IfFalsy) else None)
    else if e.BinaryExpression? then
      Statement(args, if e.operator == "===" then Some(IfEqual) else if e.operator == "!==" then Some(IfNotEqual) else None)
    else Statement(args, None)
  }

  /** The node types `isControlExpression` accepts, given `left` and `right` are present. */
  const ControlExpressionTypes: seq<string> := ["Identifier", "MemberExpression", "UnaryExpression", "LogicalExpression"]

  /** isControlExpression. */
  predicate IsControlExpression(e: Node)
  {
    HasLeftRight(e) && Type(e) in ControlExpressionTypes
  }

  /**
   * Of the four listed types only a logical expression has both sides, so a
   * binary guard such as `a === b` never qualifies and `a || b` does.
   */
  lemma ControlExpressionIsLogical(e: Node)
    ensures IsControlExpression(e) <==> e.LogicalExpression?
  {
  }

  /** The open and close markers of one intent over the given arguments. */
  function OpenMarker(which: string, args: seq<Arg>, ctx: string): Node
  {
    ControlCall([which, "open"], args, ctx)
  }

  function CloseMarker(which: string, args: seq<Arg>, ctx: string): Node
  {
    ControlCall([which, "close"], args, ctx)
  }

  /** The statement of a guard `e` when the control rewrite fires on it. */
  function GuardStatement(names: seq<Option<ConfigDecode.Value>>, argsOf: Node -> seq<Arg>, e: Node): (r: Option<Statement>)
    ensures r.Some? <==> IsControlExpression(e) && GetExpressionStatement(names, e.left, argsOf(e.left)).intent.Some?
    ensures r.Some? ==> r.value == GetExpressionStatement(names, e.left, argsOf(e.left)) && |r.value.args| > 0
  {
    if !IsControlExpression(e) then None
    else
      var st := GetExpressionStatement(names, e.left, argsOf(e.left));
      if st.intent.None? || |st.args| == 0 then None else Some(st)
  }

  /**
   * What updateJSXExpressions puts in place of a container holding the guard
   * `e`: the guard is dropped and `right` sits between the intent's markers,
   * with a list pair inside them when `right` is a tagged list name.
   */
  function ControlGroup(names: seq<Option<ConfigDecode.Value>>, t: ToTag, argsOf: Node -> seq<Arg>, e: Node, ctx: string): (r: Option<seq<Node>>)
    ensures r.Some? <==> GuardStatement(names, argsOf, e).Some?
    ensures r.Some? ==> |r.value| == (if e.right.Identifier? && TagOf(t, e.right.name).Some? then 5 else 3)
    ensures r.Some? ==> r.value[|r.value| / 2] == e.right
  {
    var g := GuardStatement(names, argsOf, e);
    if g.None? then None
    else
      var which := IntentName(g.value.intent.value);
      var tag := if e.right.Identifier? then TagOf(t, e.right.name) else None;
      Some(Group(OpenMarker(which, g.value.args, ctx), CloseMarker(which, g.value.args, ctx), e.right, tag, ctx))
  }

  /** The markers `open` and `close` around `right`, with the list pair of `tag` inside them when there is one. */
  function Group(open: Node, close: Node, right: Node, tag: Option<string>, ctx: string): (w: seq<Node>)
    ensures |w| == (if tag.Some? then 5 else 3) && w[|w| / 2] == right
    ensures w[0] == open && w[|w| - 1] == close
  {
    if tag.Some? then [open, ListCall("open", tag.value, ctx), right, ListCall("close", tag.value, ctx), close]
    else [open, right, close]
  }

  /**
   * The group's outer markers are the intent's open and close over the
   * guard's arguments; the inner pair, when present, is keyed to the origin
   * list `toTag[right]`.
   */
  lemma ControlGroupMarkers(names: seq<Option<ConfigDecode.Value>>, t: ToTag, argsOf: Node -> seq<Arg>, e: Node, ctx: string)
    requires ControlGroup(names, t, argsOf, e, ctx).Some?
    ensures var w := ControlGroup(names, t, argsOf, e, ctx).value;
      var st := GuardStatement(names, argsOf, e).value;
      var key := ControlKey(IntentName(st.intent.value), ArgNodes(st.args));
      MarkerOf(w[0]) == Some(Open(key)) && MarkerOf(w[|w| - 1]) == Some(Close(key)) &&
      (|w| == 5 ==>
        MarkerOf(w[1]) == Some(Open(ListKey(TagOf(t, e.right.name).value))) &&
        MarkerOf(w[3]) == Some(Close(ListKey(TagOf(t, e.right.name).value))))
  {
    var st := GuardStatement(names, argsOf, e).value;
    ControlCallRoundTrip(IntentName(st.intent.value), st.args, ctx);
    if e.right.Identifier? && TagOf(t, e.right.name).Some? {
      ListCallRoundTrip(TagOf(t, e.right.name).value, ctx);
    }
  }

  /** The guards a template writes over a variable `x`: `x`, `! x`, `x === v` and `x !== v`. */
  datatype Guard = Truthy(x: string) | Falsy(x: string) | Equal(x: string, v: string) | NotEqual(x: string, v: string)

  /** The guard as it parses: the left side of `guard && right`. */
  function PrintGuard(g: Guard): Node
  {
    match g
    case Truthy(x) => Identifier(x)
    case Falsy(x) => UnaryExpression("!", Identifier(x))
    case Equal(x, v) => BinaryExpression("===", Identifier(x), StringLiteral(v))
    case NotEqual(x, v) => BinaryExpression("!==", Identifier(x), StringLiteral(v))
  }

  /** What the guard means. */
  function GuardIntent(g: Guard): Intent
  {
    match g
    case Truthy(_) => IfTruthy
    case Falsy(_) => IfFalsy
    case Equal(_, _) => IfEqual
    case NotEqual(_, _) => IfNotEqual
  }

  /**
   * A written guard over a registered control name resolves as its author
   * meant: the subject is the name, the statement carries the guard's intent,
   * and the group opens and closes with that intent's markers over the
   * guard's arguments.
   */
  lemma PrintedGuardResolves(names: seq<Option<ConfigDecode.Value>>, t: ToTag, argsOf: Node -> seq<Arg>,
                             g: Guard, right: Node, ctx: string)
    requires Registered(names, g.x)
    requires Arg("identifier", g.x) in argsOf(PrintGuard(g))
    ensures ConfigDecode.GetExpressionSubject(LogicalExpression("&&", PrintGuard(g), right)) == ConfigDecode.Named(g.x)
    ensures GuardStatement(names, argsOf, LogicalExpression("&&", PrintGuard(g), right)) ==
      Some(Statement(argsOf(PrintGuard(g)), Some(GuardIntent(g))))
    ensures var w := ControlGroup(names, t, argsOf, LogicalExpression("&&", PrintGuard(g), right), ctx);
      var key := ControlKey(IntentName(GuardIntent(g)), ArgNodes(argsOf(PrintGuard(g))));
      w.Some? && MarkerOf(w.value[0]) == Some(Open(key)) && MarkerOf(w.value[|w.value| - 1]) == Some(Close(key))
  {
    var e := LogicalExpression("&&", PrintGuard(g), right);
    GuardIntentMatches(names, g, argsOf(PrintGuard(g)));
    assert IsControlExpression(e);
    ControlGroupMarkers(names, t, argsOf, e, ctx);
  }

  /** With a registered identifier argument, the statement of a written guard carries the guard's intent. */
  lemma GuardIntentMatches(names: seq<Option<ConfigDecode.Value>>, g: Guard, args: seq<Arg>)
    requires Registered(names, g.x)
    requires Arg("identifier", g.x) in args
    ensures GetExpressionStatement(names, PrintGuard(g), args).intent == Some(GuardIntent(g))
  {
    var i := IndexOf(args, Arg("identifier", g.x));
    assert args[i].kind == "identifier" && Registered(names, args[i].value);
  }

  /** updateJSXExpressions on the container `children[i]`: siblings untouched, the container replaced by its group. */
  function UpdateJSXExpressions(names: seq<Option<ConfigDecode.Value>>, t: ToTag, argsOf: Node -> seq<Arg>,
                                children: seq<Node>, i: nat, ctx: string): (r: seq<Node>)
    requires i < |children| && children[i].JSXExpressionContainer?
    ensures ControlGroup(names, t, argsOf, children[i].expression, ctx).None? ==> r == children
    ensures ControlGroup(names, t, argsOf, children[i].expression, ctx).Some? ==>
      var w := ControlGroup(names, t, argsOf, children[i].expression, ctx).value;
      |r| == |children| - 1 + |w| && r[..i] == children[..i] && r[i..i + |w|] == w && r[i + |w|..] == children[i + 1..]
  {
    var g := ControlGroup(names, t, argsOf, children[i].expression, ctx);
    if g.None? then children else Splice(children, i, g.value)
  }

  /**
   * The markers of a rewritten guard are properly nested, so the children
   * stay balanced exactly when they were, and the only plain node the group
   * adds is `right`, in the container's place.
   */
  lemma ControlGroupBalanced(names: seq<Option<ConfigDecode.Value>>, t: ToTag, argsOf: Node -> seq<Arg>,
                             children: seq<Node>, i: nat, ctx: string)
    requires i < |children| && children[i].JSXExpressionContainer?
    requires children[i].expression.LogicalExpression? ==> MarkerOf(children[i].expression.right).None?
    ensures Balanced(UpdateJSXExpressions(names, t, argsOf, children, i, ctx)) <==> Balanced(children)
    ensures ControlGroup(names, t, argsOf, children[i].expression, ctx).Some? ==>
      Plain(UpdateJSXExpressions(names, t, argsOf, children, i, ctx)) ==
      Plain(children[..i]) + [children[i].expression.right] + Plain(children[i + 1..])
  {
    var e := children[i].expression;
    var g := ControlGroup(names, t, argsOf, e, ctx);
    if g.Some? {
      var w := g.value;
      var st := GuardStatement(names, argsOf, e).value;
      var key := ControlKey(IntentName(st.intent.value), ArgNodes(st.args));
      ControlExpressionIsLogical(e);
      ControlGroupMarkers(names, t, argsOf, e, ctx);
      if |w| == 5 {
        NestedSelfContained(key, w[0], ListKey(TagOf(t, e.right.name).value), w[1], w[2], w[3], w[4]);
        assert w == [w[0], w[1], w[2], w[3], w[4]];
        PlainNested(w[0], w[1], w[2], w[3], w[4]);
      } else {
        PairSelfContained(key, w[0], w[1], w[2]);
        assert w == [w[0], w[1], w[2]];
        PlainBracketed(w[0], w[1], w[2]);
      }
      assert UpdateJSXExpressions(names, t, argsOf, children, i, ctx) == Splice(children, i, w);
      SpliceBalanced(children, i, w);
      SplicePlain(children, i, w);
    }
  }

  /** Two pairs of markers around a plain node leave only that node. */
  lemma PlainNested(open: Node, lo: Node, x: Node, lc: Node, close: Node)
    requires MarkerOf(open).Some? && MarkerOf(lo).Some? && MarkerOf(lc).Some? && MarkerOf(close).Some? && MarkerOf(x).None?
    ensures Plain([open, lo, x, lc, close]) == [x]
  {
    PlainBracketed(lo, x, lc);
    assert [close][1..] == [];
    assert Plain([close]) == [];
    assert [lc, close][1..] == [close];
    assert Plain([lc, close]) == [];
    assert [x, lc, close][1..] == [lc, close];
    assert Plain([x, lc, close]) == [x];
    assert [lo, x, lc, close][1..] == [x, lc, close];
    assert [open, lo, x, lc, close][1..] == [lo, x, lc, close];
  }

  /**
   * A container is rewritten by at most one rule: the control rewrite needs
   * a logical guard, the list bracketing an identifier or a call.
   */
  lemma AtMostOneRuleFires(names: seq<Option<ConfigDecode.Value>>, t: ToTag, argsOf: Node -> seq<Arg>, e: Node, ctx: string)
    ensures !(ControlGroup(names, t, argsOf, e, ctx).Some? && ListBracketOrigin(t, e).Some?)
  {
  }

  /** createCombinedBinaryExpression: a left fold of the parts under `op`. */
  function CombinedBinary(parts: seq<Node>, op: string): (r: Node)
    requires |parts| >= 1
    ensures |parts| == 1 ==> r == parts[0]
    ensures |parts| > 1 ==> r.BinaryExpression? && r.operator == op && r.right == parts[|parts| - 1]
  {
    if |parts| == 1 then parts[0]
    else BinaryExpression(op, CombinedBinary(parts[..|parts| - 1], op), parts[|parts| - 1])
  }

  /** The leaves of a left spine of `k` binary `op` nodes, left to right; `None` when the spine is shorter. */
  function SpineLeaves(e: Node, k: nat, op: string): Option<seq<Node>>
    decreases k
  {
    if k == 0 then Some([e])
    else if e.BinaryExpression? && e.operator == op then
      match SpineLeaves(e.left, k - 1, op)
      case None => None
      case Some(ls) => Some(ls + [e.right])
    else None
  }

  /** `n` parts fold into a spine of `n - 1` binary nodes whose leaves are the parts, in order. */
  lemma {:induction false} CombinedBinaryLeaves(parts: seq<Node>, op: string)
    requires |parts| >= 1
    ensures SpineLeaves(CombinedBinary(parts, op), |parts| - 1, op) == Some(parts)
  {
    if |parts| > 1 {
      var init := parts[..|parts| - 1];
      var last := parts[|parts| - 1];
      CombinedBinaryLeaves(init, op);
      assert CombinedBinary(parts, op) == BinaryExpression(op, CombinedBinary(init, op), last);
      assert SpineLeaves(CombinedBinary(parts, op), |parts| - 1, op) == Some(parts[..|parts| - 1] + [last]);
      assert init + [last] == parts;
    } else {
      assert [parts[0]] == parts;
    }
  }

  /** isTernaryExpression: a conditional (its three parts are always present here). */
  predicate IsTernaryExpression(n: Node)
  {
    n.ConditionalExpression?
  }

  /** The six parts a matched ternary is rewritten to, in order. */
  function TernaryParts(intent: Intent, args: seq<Arg>, c: Node, ctx: string): (r: seq<Node>)
    requires c.ConditionalExpression?
    ensures |r| == 6 && r[1] == c.consequent && r[4] == c.alternate
  {
    [OpenMarker(IntentName(intent), args, ctx), c.consequent, CloseMarker(IntentName(intent), args, ctx),
     OpenMarker("else", args, ctx), c.alternate, CloseMarker("else", args, ctx)]
  }

  /**
   * updateTernaryExpressions: a ternary whose test resolves to an intent
   * becomes `open + consequent + close + elseOpen + alternate + elseClose`;
   * otherwise it is left alone (`None`).
   */
  function UpdateTernaryExpressions(names: seq<Option<ConfigDecode.Value>>, argsOf: Node -> seq<Arg>, c: Node, ctx: string): (r: Option<Node>)
    requires c.ConditionalExpression?
    ensures r.Some? <==> GetExpressionStatement(names, c.test, argsOf(c.test)).intent.Some?
    ensures r.Some? ==>
      var st := GetExpressionStatement(names, c.test, argsOf(c.test));
      SpineLeaves(r.value, 5, "+") == Some(TernaryParts(st.intent.value, st.args, c, ctx))
  {
    var st := GetExpressionStatement(names, c.test, argsOf(c.test));
    if st.intent.Some? && |st.args| > 0 then
      var parts := TernaryParts(st.intent.value, st.args, c, ctx);
      CombinedBinaryLeaves(parts, "+");
      Some(CombinedBinary(parts, "+"))
    else None
  }

  /**
   * The rewritten ternary's markers read as two consecutive pairs, the
   * intent's around the consequent and `else` around the alternate, all over
   * the same arguments.
   */
  lemma TernaryPartsBalanced(intent: Intent, args: seq<Arg>, c: Node, ctx: string)
    requires c.ConditionalExpression? && MarkerOf(c.consequent).None? && MarkerOf(c.alternate).None?
    ensures Balanced(TernaryParts(intent, args, c, ctx))
    ensures Plain(TernaryParts(intent, args, c, ctx)) == [c.consequent, c.alternate]
  {
    var p := TernaryParts(intent, args, c, ctx);
    ControlCallRoundTrip(IntentName(intent), args, ctx);
    ControlCallRoundTrip("else", args, ctx);
    PairSelfContained(ControlKey(IntentName(intent), ArgNodes(args)), p[0], p[1], p[2]);
    PairSelfContained(ControlKey("else", ArgNodes(args)), p[3], p[4], p[5]);
    assert p == [p[0], p[1], p[2]] + [p[3], p[4], p[5]];
    ScanAppend([], [p[0], p[1], p[2]], [p[3], p[4], p[5]]);
    PlainAppend([p[0], p[1], p[2]], [p[3], p[4], p[5]]);
    PlainBracketed(p[0], p[1], p[2]);
    PlainBracketed(p[3], p[4], p[5]);
  }

  /** Parent node types under which a control identifier does not trigger a rewrite. */
  const ControlExcludedTypes: seq<string> := ["ObjectProperty", "ArrayPattern"]

  /**
   * updateTernaryConditions for an identifier `name` with its ancestors,
   * parent first: a registered control name under a non-excluded parent
   * rewrites its parent when that is a conditional, else its grandparent
   * when that is one. The result names the ancestor replaced (0 or 1) and
   * its replacement. An identifier inside a component declaration always has
   * a parent and a grandparent.
   */
  function UpdateTernaryConditions(names: seq<Option<ConfigDecode.Value>>, argsOf: Node -> seq<Arg>,
                                   name: string, ancestors: seq<Node>, ctx: string): (r: Option<(nat, Node)>)
    requires |ancestors| >= 2
    ensures !Registered(names, name) || Type(ancestors[0]) in ControlExcludedTypes ==> r.None?
    ensures r.Some? ==> (r.value.0 < 2 && IsTernaryExpression(ancestors[r.value.0]) &&
      UpdateTernaryExpressions(names, argsOf, ancestors[r.value.0], ctx) == Some(r.value.1))
    ensures r.Some? && r.value.0 == 1 ==> !IsTernaryExpression(ancestors[0])
    ensures Registered(names, name) && Type(ancestors[0]) !in ControlExcludedTypes && IsTernaryExpression(ancestors[0]) ==>
      r == (match UpdateTernaryExpressions(names, argsOf, ancestors[0], ctx)
            case None => None
            case Some(n) => Some((0, n)))
  {
    if !Registered(names, name) || Type(ancestors[0]) in ControlExcludedTypes then None
    else
      var d := if IsTernaryExpression(ancestors[0]) then 0 else 1;
      if !IsTernaryExpression(ancestors[d]) then None
      else
        match UpdateTernaryExpressions(names, argsOf, ancestors[d], ctx)
        case None => None
        case Some(n) => Some((d, n))
  }
}
