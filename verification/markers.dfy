/**
 * The marker calls the transform splices around JSX output:
 * `getLanguageList( action, { type: 'identifier', value: name }, ctx )`
 * (controllers/list.js:151-157) and
 * `getLanguageControl( [ intent, which ], [ { type, value } ... ], ctx )`
 * (controllers/control.js:187-203). Reading them back as open/close markers
 * gives a notion of balance that every splice must keep.
 */
module Markers {
  import opened Js
  import opened Ast

  /** One argument object `{ type, value }` as the guard analysis produces it. */
  datatype Arg = Arg(kind: string, value: string)

  /** `[ { type: a.type, value: a.value } ... ]` */
  function ArgNodes(args: seq<Arg>): (r: seq<Node>)
    ensures |r| == |args|
    ensures forall i :: 0 <= i < |args| ==> r[i] == NameObject(args[i].kind, args[i].value)
  {
    if |args| == 0 then [] else [NameObject(args[0].kind, args[0].value)] + ArgNodes(args[1..])
  }

  /** getLanguageListCallExpression. */
  function ListCall(action: string, name: string, ctx: string): Node
  {
    CallExpression(Identifier("getLanguageList"), [StringLiteral(action), NameObject("identifier", name), Identifier(ctx)])
  }

  /** getLanguageControlCallExpression. */
  function ControlCall(targets: seq<string>, args: seq<Arg>, ctx: string): Node
  {
    CallExpression(Identifier("getLanguageControl"), [
      ArrayExpression(StringLiterals(targets)), ArrayExpression(ArgNodes(args)), Identifier(ctx)])
  }

  /** What a marker brackets: a control intent with its arguments, or a list by its origin name. */
  datatype Key = ControlKey(intent: string, args: seq<Node>) | ListKey(name: string)

  datatype Marker = Open(key: Key) | Close(key: Key)

  /** The `{ type: 'identifier', value: name }` object, read back. */
  function NameOf(n: Node): Option<string>
  {
    if n.ObjectExpression? && |n.properties| == 2 &&
       n.properties[0] == ObjectProperty(Identifier("type"), StringLiteral("identifier"), false) &&
       n.properties[1].ObjectProperty? && n.properties[1].key == Identifier("value") &&
       n.properties[1].value.StringLiteral? && !n.properties[1].shorthand
    then Some(n.properties[1].value.str)
    else None
  }

  /** Reads a node back as a marker: list `open`/`close` calls and control `[ intent, 'open' | 'close' ]` calls. */
  function MarkerOf(n: Node): Option<Marker>
  {
    if !(n.CallExpression? && n.callee.Identifier? && |n.arguments| == 3 && n.arguments[2].Identifier?) then None
    else if n.callee.name == "getLanguageList" then
      var action := n.arguments[0];
      var name := NameOf(n.arguments[1]);
      if name.None? || !action.StringLiteral? then None
      else if action.str == "open" then Some(Open(ListKey(name.value)))
      else if action.str == "close" then Some(Close(ListKey(name.value)))
      else None
    else if n.callee.name == "getLanguageControl" then
      var targets := n.arguments[0];
      var args := n.arguments[1];
      if !(targets.ArrayExpression? && |targets.elements| == 2 && targets.elements[0].StringLiteral? &&
           targets.elements[1].StringLiteral? && args.ArrayExpression?) then None
      else if targets.elements[1].str == "open" then Some(Open(ControlKey(targets.elements[0].str, args.elements)))
      else if targets.elements[1].str == "close" then Some(Close(ControlKey(targets.elements[0].str, args.elements)))
      else None
    else None
  }

  /** List marker calls read back as the marker they were built for. */
  lemma ListCallRoundTrip(name: string, ctx: string)
    ensures MarkerOf(ListCall("open", name, ctx)) == Some(Open(ListKey(name)))
    ensures MarkerOf(ListCall("close", name, ctx)) == Some(Close(ListKey(name)))
  {
  }

  /** Control marker calls read back as the marker they were built for, keyed by intent and arguments. */
  lemma {:induction false} ControlCallRoundTrip(intent: string, args: seq<Arg>, ctx: string)
    ensures MarkerOf(ControlCall([intent, "open"], args, ctx)) == Some(Open(ControlKey(intent, ArgNodes(args))))
    ensures MarkerOf(ControlCall([intent, "close"], args, ctx)) == Some(Close(ControlKey(intent, ArgNodes(args))))
  {
    assert StringLiterals([intent, "open"]) == [StringLiteral(intent), StringLiteral("open")];
    assert StringLiterals([intent, "close"]) == [StringLiteral(intent), StringLiteral("close")];
  }

  /** Markers of different lists never match each other. */
  lemma ListKeysDistinct(a: string, b: string, ctx: string)
    requires a != b
    ensures MarkerOf(ListCall("open", a, ctx)).value.key != MarkerOf(ListCall("close", b, ctx)).value.key
  {
    ListCallRoundTrip(a, ctx);
    ListCallRoundTrip(b, ctx);
  }

  /**
   * Scanning left to right with a stack of open keys: an open pushes, a close
   * must match the innermost open and pops; `None` is a mismatch.
   */
  function Scan(stack: seq<Key>, ns: seq<Node>): Option<seq<Key>>
    decreases |ns|
  {
    if |ns| == 0 then Some(stack)
    else
      match MarkerOf(ns[0])
      case None => Scan(stack, ns[1..])
      case Some(Open(k)) => Scan(stack + [k], ns[1..])
      case Some(Close(k)) =>
        if |stack| > 0 && stack[|stack| - 1] == k then Scan(stack[..|stack| - 1], ns[1..]) else None
  }

  /** Every close matches the innermost open before it and nothing is left open. */
  predicate Balanced(ns: seq<Node>)
  {
    Scan([], ns) == Some([])
  }

  /** Scanning a concatenation scans the parts in turn. */
  lemma {:induction false} ScanAppend(stack: seq<Key>, a: seq<Node>, b: seq<Node>)
    ensures Scan(stack, a + b) == (match Scan(stack, a) case None => None case Some(s) => Scan(s, b))
    decreases |a|
  {
    if |a| > 0 {
      assert (a + b)[1..] == a[1..] + b;
      match MarkerOf(a[0])
      case None => ScanAppend(stack, a[1..], b);
      case Some(Open(k)) => ScanAppend(stack + [k], a[1..], b);
      case Some(Close(k)) =>
        if |stack| > 0 && stack[|stack| - 1] == k {
          ScanAppend(stack[..|stack| - 1], a[1..], b);
        }
    } else {
      assert a + b == b;
    }
  }

  /** An open/close pair of one key around a self-contained middle leaves the stack as it was. */
  lemma BracketNeutral(stack: seq<Key>, k: Key, open: Node, inner: seq<Node>, close: Node)
    requires MarkerOf(open) == Some(Open(k)) && MarkerOf(close) == Some(Close(k))
    requires Scan(stack + [k], inner) == Some(stack + [k])
    ensures Scan(stack, [open] + inner + [close]) == Some(stack)
  {
    var w := [open] + inner + [close];
    assert w[1..] == inner + [close];
    ScanAppend(stack + [k], inner, [close]);
    assert [close][1..] == [];
    assert (stack + [k])[..|stack + [k]| - 1] == stack;
  }

  /** A node that is not a marker leaves any stack as it was. */
  lemma PlainNeutral(stack: seq<Key>, x: Node)
    requires MarkerOf(x).None?
    ensures Scan(stack, [x]) == Some(stack)
  {
    assert [x][1..] == [];
  }

  /** Replace `ns[i]` by the sequence `w`. */
  function Splice(ns: seq<Node>, i: nat, w: seq<Node>): (r: seq<Node>)
    requires i < |ns|
    ensures |r| == |ns| - 1 + |w|
    ensures r[..i] == ns[..i] && r[i..i + |w|] == w && r[i + |w|..] == ns[i + 1..]
  {
    ns[..i] + w + ns[i + 1..]
  }

  /**
   * Splicing a self-contained group in place of a plain node scans exactly
   * like the original sequence, so balance is kept in both directions.
   */
  lemma SpliceScan(stack: seq<Key>, ns: seq<Node>, i: nat, w: seq<Node>)
    requires i < |ns| && MarkerOf(ns[i]).None?
    requires forall st :: Scan(st, w) == Some(st)
    ensures Scan(stack, Splice(ns, i, w)) == Scan(stack, ns)
  {
    var a := ns[..i];
    var b := ns[i + 1..];
    assert ns == a + [ns[i]] + b;
    assert Splice(ns, i, w) == a + w + b;
    ScanAppend(stack, a + w, b);
    ScanAppend(stack, a, w);
    ScanAppend(stack, a + [ns[i]], b);
    ScanAppend(stack, a, [ns[i]]);
    match Scan(stack, a)
    case None =>
    case Some(s) =>
      PlainNeutral(s, ns[i]);
  }

  /** Splicing in a self-contained group keeps the children balanced exactly when they were. */
  lemma SpliceBalanced(ns: seq<Node>, i: nat, w: seq<Node>)
    requires i < |ns| && MarkerOf(ns[i]).None?
    requires forall st :: Scan(st, w) == Some(st)
    ensures Balanced(Splice(ns, i, w)) <==> Balanced(ns)
  {
    SpliceScan([], ns, i, w);
  }

  /** `[ open, x, close ]` with one key around a plain node is self-contained. */
  lemma PairSelfContained(k: Key, open: Node, x: Node, close: Node)
    requires MarkerOf(open) == Some(Open(k)) && MarkerOf(close) == Some(Close(k)) && MarkerOf(x).None?
    ensures forall st :: Scan(st, [open, x, close]) == Some(st)
  {
    forall st
      ensures Scan(st, [open, x, close]) == Some(st)
    {
      PlainNeutral(st + [k], x);
      BracketNeutral(st, k, open, [x], close);
      assert [open] + [x] + [close] == [open, x, close];
    }
  }

  /** `[ open, lo, x, lc, close ]`, two properly nested pairs around a plain node, is self-contained. */
  lemma NestedSelfContained(k: Key, open: Node, j: Key, lo: Node, x: Node, lc: Node, close: Node)
    requires MarkerOf(open) == Some(Open(k)) && MarkerOf(close) == Some(Close(k))
    requires MarkerOf(lo) == Some(Open(j)) && MarkerOf(lc) == Some(Close(j)) && MarkerOf(x).None?
    ensures forall st :: Scan(st, [open, lo, x, lc, close]) == Some(st)
  {
    PairSelfContained(j, lo, x, lc);
    forall st
      ensures Scan(st, [open, lo, x, lc, close]) == Some(st)
    {
      assert Scan(st + [k], [lo, x, lc]) == Some(st + [k]);
      BracketNeutral(st, k, open, [lo, x, lc], close);
      assert [open] + [lo, x, lc] + [close] == [open, lo, x, lc, close];
    }
  }

  /** The nodes that are not markers, in order. */
  function Plain(ns: seq<Node>): (r: seq<Node>)
    ensures |r| <= |ns|
    ensures forall k :: 0 <= k < |r| ==> MarkerOf(r[k]).None?
    decreases |ns|
  {
    if |ns| == 0 then []
    else if MarkerOf(ns[0]).None? then [ns[0]] + Plain(ns[1..])
    else Plain(ns[1..])
  }

  lemma {:induction false} PlainAppend(a: seq<Node>, b: seq<Node>)
    ensures Plain(a + b) == Plain(a) + Plain(b)
    decreases |a|
  {
    if |a| == 0 {
      assert a + b == b;
    } else {
      assert (a + b)[1..] == a[1..] + b;
      PlainAppend(a[1..], b);
    }
  }

  /** Without its markers, a splice is the original sequence with `ns[i]` replaced by the plain part of `w`. */
  lemma SplicePlain(ns: seq<Node>, i: nat, w: seq<Node>)
    requires i < |ns|
    ensures Plain(Splice(ns, i, w)) == Plain(ns[..i]) + Plain(w) + Plain(ns[i + 1..])
  {
    PlainAppend(ns[..i] + w, ns[i + 1..]);
    PlainAppend(ns[..i], w);
  }

  /** The plain part of one plain node is that node. */
  lemma PlainSingle(x: Node)
    requires MarkerOf(x).None?
    ensures Plain([x]) == [x]
  {
    assert [x][1..] == [];
  }

  /** Markers around a plain node vanish from the plain part. */
  lemma PlainBracketed(open: Node, x: Node, close: Node)
    requires MarkerOf(open).Some? && MarkerOf(close).Some? && MarkerOf(x).None?
    ensures Plain([open, x, close]) == [x]
  {
    assert [close][1..] == [];
    assert Plain([close]) == [];
    assert [x, close][1..] == [close];
    assert Plain([x, close]) == [x] + Plain([close]);
    assert [open, x, close][1..] == [x, close];
    assert Plain([open, x, close]) == Plain([x, close]);
  }

  /** The plain part of a sequence around a plain node at position `i`. */
  lemma {:induction false} PlainAround(ns: seq<Node>, i: nat)
    requires i < |ns| && MarkerOf(ns[i]).None?
    ensures Plain(ns) == Plain(ns[..i]) + [ns[i]] + Plain(ns[i + 1..])
  {
    var a := ns[..i];
    var x := ns[i];
    var b := ns[i + 1..];
    var ax := a + [x];
    assert ns == ax + b;
    PlainAppend(ax, b);
    assert Plain(ns) == Plain(ax) + Plain(b);
    PlainAppend(a, [x]);
    PlainSingle(x);
    assert Plain(ax) == Plain(a) + [x];
  }

  /** Replacing a plain node by itself between markers keeps the plain part of the whole sequence. */
  lemma SpliceBracketedPlain(ns: seq<Node>, i: nat, open: Node, close: Node)
    requires i < |ns| && MarkerOf(ns[i]).None?
    requires MarkerOf(open).Some? && MarkerOf(close).Some?
    ensures Plain(Splice(ns, i, [open, ns[i], close])) == Plain(ns)
  {
    SplicePlain(ns, i, [open, ns[i], close]);
    PlainBracketed(open, ns[i], close);
    PlainAround(ns, i);
  }
}
