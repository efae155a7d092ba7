/**
 * The controller's `init` (controller.js:388-534): uid tables for the three
 * buckets, the `__context__` parameter and the context variable, the
 * prologue of the component's first block, and the visitors that thread the
 * context into child components and dispatch identifiers and expression
 * containers to the rewrite rules.
 *
 * `isJSXElementComponent` and `isJSXElementTextInput` (utils.js) are not part
 * of this model: their answers are parameters.
 */
module ComponentInit {
  import opened Js
  import opened Ast
  import opened ConfigDecode
  import opened TemplateVars
  import opened Registry
  import opened Markers
  import ReplaceRules
  import ListRules
  import ControlRules
  import opened JsEval

  /** The tables `init` builds, and the context identifier minted after them. */
  datatype Tables = Tables(replace: Vars, control: Vars, list: Vars, context: string)

  /** generateVarTypeUids as a table, counting from `next`. */
  function TableFor(vars: seq<Prop>, next: nat): (v: Vars)
    ensures Minted(v, next) && v.raw == vars
  {
    Vars(vars, UidTable(vars, next), EntryNames(vars))
  }

  /** The minting order of `init`: replace, control and list entries, then the context identifier. */
  function MintTables(b: Buckets, next: nat): (r: Tables)
    ensures Minted(r.replace, next) && r.replace.raw == b.replace
    ensures Minted(r.control, next + |b.replace|) && r.control.raw == b.control
    ensures Minted(r.list, next + |b.replace| + |b.control|) && r.list.raw == b.list
    ensures r.context == UidName(next + |b.replace| + |b.control| + |b.list|)
  {
    Tables(TableFor(b.replace, next), TableFor(b.control, next + |b.replace|),
           TableFor(b.list, next + |b.replace| + |b.control|),
           UidName(next + |b.replace| + |b.control| + |b.list|))
  }

  /** A uid minted for a table is never one minted at or after the table's end. */
  lemma UidBeforeEnd(vars: seq<Prop>, start: nat, name: string, k: nat)
    requires name in UidTable(vars, start) && start + |vars| <= k
    ensures UidTable(vars, start)[name] != UidName(k)
  {
    var i := OriginIndex(vars, start, name);
    UidNameInjective(start + i, k);
  }

  /** No name in the table is mapped to `u`. */
  predicate Avoids(v: Vars, u: string)
  {
    forall name :: name in v.mapped ==> v.mapped[name] != u
  }

  /** The context identifier is none of the uids the three tables hand out. */
  lemma {:induction false} ContextUidDistinct(b: Buckets, next: nat)
    ensures var t := MintTables(b, next);
      Avoids(t.replace, t.context) && Avoids(t.control, t.context) && Avoids(t.list, t.context)
  {
    ReplaceAvoidsContext(b, next);
    ControlAvoidsContext(b, next);
    ListAvoidsContext(b, next);
  }

  lemma ReplaceAvoidsContext(b: Buckets, next: nat)
    ensures Avoids(MintTables(b, next).replace, MintTables(b, next).context)
  {
    TableAvoids(MintTables(b, next).replace, next, next + |b.replace| + |b.control| + |b.list|);
  }

  lemma ControlAvoidsContext(b: Buckets, next: nat)
    ensures Avoids(MintTables(b, next).control, MintTables(b, next).context)
  {
    TableAvoids(MintTables(b, next).control, next + |b.replace|, next + |b.replace| + |b.control| + |b.list|);
  }

  lemma ListAvoidsContext(b: Buckets, next: nat)
    ensures Avoids(MintTables(b, next).list, MintTables(b, next).context)
  {
    TableAvoids(MintTables(b, next).list, next + |b.replace| + |b.control|, next + |b.replace| + |b.control| + |b.list|);
  }

  lemma TableAvoids(v: Vars, start: nat, k: nat)
    requires Minted(v, start) && start + |v.raw| <= k
    ensures Avoids(v, UidName(k))
  {
    forall name | name in v.mapped
      ensures v.mapped[name] != UidName(k)
    {
      UidBeforeEnd(v.raw, start, name, k);
    }
  }

  /**
   * `componentPath.node.declarations[0].init.params`: an arrow or a
   * `function` initialiser has them; reading them off anything else, or off
   * a missing initialiser, throws.
   */
  function ComponentParams(component: Node): (r: Result<seq<Node>>)
    requires DeclaredName(component).Some?
    ensures r.Ok? <==> component.declarations[0].init.Some? && IsFunction(component.declarations[0].init.value)
    ensures r.Ok? ==> r.value == component.declarations[0].init.value.params
  {
    var init := component.declarations[0].init;
    if init.Some? && IsFunction(init.value) then Ok(init.value.params)
    else Err(TypeError("Cannot read properties of undefined (reading 'params')"))
  }

  /** The component's parameters after injection, and the props identifier to read the context through. */
  /**
   * `const Card = function ( props ) { ... }` and `const Card = ( props ) => ...`
   * alike: the parameters are read, and the props identifier is kept and
   * names the props.
   */
  lemma FunctionInitialiserParams(kind: string, name: string, props: string, rest: seq<Node>, body: Node, arrow: bool)
    ensures var ps := [Identifier(props)] + rest;
      var init := if arrow then ArrowFunctionExpression(ps, body) else FunctionExpression(ps, body);
      var c := VariableDeclaration(kind, [VariableDeclarator(Identifier(name), Some(init))]);
      DeclaredName(c) == Some(name) && ComponentParams(c) == Ok(ps) &&
      InjectContextParam(ps).propsName == Some(props)
  {
  }

  datatype ParamsOutcome = ParamsOutcome(params: seq<Node>, propsName: Option<string>)

  /**
   * The parameter injection of `init`: no parameters gain `{ __context__ }`;
   * an object-pattern first parameter gains `__context__` after its own
   * properties; an identifier first parameter is kept and names the props.
   */
  function InjectContextParam(params: seq<Node>): (r: ParamsOutcome)
    ensures |params| == 0 ==> r == ParamsOutcome([ObjectPattern([ContextProperty()])], None)
    ensures |params| > 0 ==> |r.params| == |params| && r.params[1..] == params[1..]
    ensures |params| > 0 && params[0].ObjectPattern? ==>
      r.params[0].ObjectPattern? && |r.params[0].properties| == |params[0].properties| + 1 &&
      r.params[0].properties[..|params[0].properties|] == params[0].properties &&
      r.params[0].properties[|params[0].properties|..] == [ContextProperty()] && r.propsName.None?
    ensures |params| > 0 && params[0].Identifier? ==> r == ParamsOutcome(params, Some(params[0].name))
    ensures |params| > 0 && !params[0].ObjectPattern? && !params[0].Identifier? ==> r == ParamsOutcome(params, None)
  {
    if |params| == 0 then ParamsOutcome([ObjectPattern([ContextProperty()])], None)
    else if params[0].ObjectPattern? then
      ParamsOutcome([ObjectPattern(params[0].properties + [ContextProperty()])] + params[1..], None)
    else if params[0].Identifier? then ParamsOutcome(params, Some(params[0].name))
    else ParamsOutcome(params, None)
  }

  /** Where the context declaration reads the incoming context: `props.__context__` or `__context__`. */
  function IncomingContext(propsName: Option<string>): Node
  {
    if propsName.Some? then MemberExpression(Identifier(propsName.value), Identifier("__context__"))
    else Identifier("__context__")
  }

  /** `typeof <incoming> === 'number' ? <incoming> : 0`. */
  function ContextInit(propsName: Option<string>): Node
  {
    var src := IncomingContext(propsName);
    ConditionalExpression(BinaryExpression("===", UnaryExpression("typeof", src), StringLiteral("number")), src, NumericLiteral(0))
  }

  /** `let <ctx> = typeof <incoming> === 'number' ? <incoming> : 0;` */
  function ContextDeclaration(ctx: string, propsName: Option<string>): (r: Node)
    ensures DeclaredName(r) == Some(ctx)
  {
    LetDeclaration(ctx, ContextInit(propsName))
  }

  /** A value used as a context: itself when it is a number, else 0. */
  function AsContext(v: JsValue): JsValue
  {
    if v.JNum? then v else JNum(0)
  }

  /**
   * The context variable starts as the incoming context when that is a
   * number, else 0. Read directly, an unbound `__context__` is fine (`typeof`
   * does not throw); read through the props identifier, an unbound or
   * `undefined` props value throws.
   */
  lemma ContextInitValue(propsName: Option<string>, env: Env)
    ensures propsName.None? ==>
      Eval(ContextInit(propsName), env) == Normal(if "__context__" in env then AsContext(env["__context__"]) else JNum(0))
    ensures propsName.Some? && propsName.value in env && env[propsName.value].JObject? ==>
      var f := env[propsName.value].fields;
      Eval(ContextInit(propsName), env) == Normal(if "__context__" in f then AsContext(f["__context__"]) else JNum(0))
    ensures propsName.Some? && propsName.value !in env ==>
      Eval(ContextInit(propsName), env) == Thrown(ReferenceError(propsName.value))
    ensures propsName.Some? && propsName.value in env && env[propsName.value] in {JUndefined, JNull} ==>
      Eval(ContextInit(propsName), env).Thrown?
  {
    var src := IncomingContext(propsName);
    var test := BinaryExpression("===", UnaryExpression("typeof", src), StringLiteral("number"));
    if propsName.Some? {
      var p := propsName.value;
      if p in env {
        assert Eval(Identifier(p), env) == Normal(env[p]);
        assert Eval(src, env) == ReadField(env[p], "__context__");
        match ReadField(env[p], "__context__")
        case Normal(v) =>
          assert Eval(UnaryExpression("typeof", src), env) == Normal(JStr(TypeOf(v)));
          assert Eval(test, env) == Normal(JBool(TypeOf(v) == "number"));
        case Thrown(x) =>
          assert Eval(UnaryExpression("typeof", src), env) == Thrown(x);
          assert Eval(test, env) == Thrown(x);
        case Unmodelled =>
      } else {
        assert Eval(src, env) == Thrown(ReferenceError(p));
        assert Eval(UnaryExpression("typeof", src), env) == Thrown(ReferenceError(p));
        assert Eval(test, env) == Thrown(ReferenceError(p));
      }
    }
  }

  /** The `__context__` expression handed to a child component: `ctx + 1` inside a `.map`, else `ctx`. */
  function ContextExpression(inMap: bool, ctx: string): Node
  {
    if inMap then BinaryExpression("+", Identifier(ctx), NumericLiteral(1)) else Identifier(ctx)
  }

  function ContextAttribute(inMap: bool, ctx: string): Node
  {
    JSXAttribute("__context__", Some(JSXExpressionContainer(ContextExpression(inMap, ctx))))
  }

  /**
   * Context threading: with the parent's context at `n`, a child component
   * receives `n + 1` inside a `.map` and `n` elsewhere, and its own context
   * declaration takes that number over, whichever way it reads its props.
   */
  lemma ContextThreading(inMap: bool, ctx: string, n: int, env: Env, props: string)
    requires ctx in env && env[ctx] == JNum(n)
    ensures Eval(ContextExpression(inMap, ctx), env) == Normal(JNum(if inMap then n + 1 else n))
    ensures var m := JNum(if inMap then n + 1 else n);
      Eval(ContextInit(None), map["__context__" := m]) == Normal(m) &&
      Eval(ContextInit(Some(props)), map[props := JObject(map["__context__" := m])]) == Normal(m)
  {
    var m := JNum(if inMap then n + 1 else n);
    ContextInitValue(None, map["__context__" := m]);
    ContextInitValue(Some(props), map[props := JObject(map["__context__" := m])]);
  }

  /**
   * The first block's prologue: replace declarations are unshifted, then list
   * declarations, then the context declaration, so the block reads: context
   * declaration, list declarations reversed, replace declarations reversed,
   * original statements.
   */
  function InitBlock(t: Tables, propsName: Option<string>, body: seq<Node>, toTag: ListRules.ToTag): (r: Result<(seq<Node>, ListRules.ToTag)>)
    ensures r.Ok? <==> ListRules.BuiltDeclarations(t.list, t.list.raw, t.context).Ok? && ListRules.AllWrites(t.list.raw).Ok?
    ensures r.Ok? ==>
      var ls := ListRules.BuiltDeclarations(t.list, t.list.raw, t.context).value;
      var rs := ReplaceRules.Declarations(ReplaceRules.Embedded, t.replace, t.replace.raw, t.context);
      Prologue(r.value.0, ContextDeclaration(t.context, propsName), ls, rs, body) &&
      r.value.1 == ListRules.ApplyWrites(toTag, ListRules.AllWrites(t.list.raw).value)
  {
    var withReplace := ReplaceRules.InitVars(ReplaceRules.Embedded, t.replace, t.context, body);
    match ListRules.InitVars(t.list, t.context, withReplace, toTag)
    case Err(x) => Err(x)
    case Ok((withList, toTag')) =>
      PrologueLayout(ContextDeclaration(t.context, propsName),
        ListRules.BuiltDeclarations(t.list, t.list.raw, t.context).value,
        ReplaceRules.Declarations(ReplaceRules.Embedded, t.replace, t.replace.raw, t.context),
        body, withList, withReplace);
      Ok(([ContextDeclaration(t.context, propsName)] + withList, toTag'))
  }

  /** Block `b` reads: declaration `c`, then `ls` reversed, then `rs` reversed, then `body`. */
  predicate Prologue(b: seq<Node>, c: Node, ls: seq<Node>, rs: seq<Node>, body: seq<Node>)
  {
    && |b| == 1 + |ls| + |rs| + |body| && b[0] == c
    && b[1..1 + |ls|] == Reverse(ls) && b[1 + |ls|..1 + |ls| + |rs|] == Reverse(rs) && b[1 + |ls| + |rs|..] == body
  }

  /** Unshifting in three rounds lays the block out round by round, the last round first. */
  lemma PrologueLayout(c: Node, ls: seq<Node>, rs: seq<Node>, body: seq<Node>, wl: seq<Node>, wr: seq<Node>)
    requires |wr| == |rs| + |body| && wr[..|rs|] == Reverse(rs) && wr[|rs|..] == body
    requires |wl| == |ls| + |wr| && wl[..|ls|] == Reverse(ls) && wl[|ls|..] == wr
    ensures Prologue([c] + wl, c, ls, rs, body)
  {
    var b := [c] + wl;
    assert b[1..] == wl;
    assert b[1..1 + |ls|] == wl[..|ls|];
    assert b[1 + |ls|..] == wr;
    assert b[1 + |ls|..1 + |ls| + |rs|] == wr[..|rs|];
    assert b[1 + |ls| + |rs|..] == wr[|rs|..];
  }

  /**
   * The `BlockStatement` visitor: only the first block visited (in traversal
   * order) receives the prologue; every later block is left as it is.
   */
  function VisitBlocks(t: Tables, propsName: Option<string>, blocks: seq<seq<Node>>, toTag: ListRules.ToTag): (r: Result<(seq<seq<Node>>, ListRules.ToTag)>)
    ensures |blocks| == 0 ==> r == Ok((blocks, toTag))
    ensures |blocks| > 0 ==> (r.Ok? <==> InitBlock(t, propsName, blocks[0], toTag).Ok?)
    ensures r.Ok? && |blocks| > 0 ==>
      |r.value.0| == |blocks| && r.value.0[0] == InitBlock(t, propsName, blocks[0], toTag).value.0 &&
      r.value.0[1..] == blocks[1..]
  {
    if |blocks| == 0 then Ok((blocks, toTag))
    else
      match InitBlock(t, propsName, blocks[0], toTag)
      case Err(x) => Err(x)
      case Ok((b, toTag')) => Ok(([b] + blocks[1..], toTag'))
  }

  /** `attributes.find( attr => attr?.name?.name === 'value' )`: the first plain attribute named `value`. */
  function FirstValueAttribute(attrs: seq<Node>): (r: Option<Node>)
    ensures r.Some? <==> exists i :: 0 <= i < |attrs| && attrs[i].JSXAttribute? && attrs[i].attrName == "value"
    ensures r.Some? ==> exists i :: (0 <= i < |attrs| && attrs[i] == r.value && r.value.JSXAttribute? &&
      r.value.attrName == "value" && forall j :: 0 <= j < i ==> !(attrs[j].JSXAttribute? && attrs[j].attrName == "value"))
  {
    if |attrs| == 0 then None
    else if attrs[0].JSXAttribute? && attrs[0].attrName == "value" then Some(attrs[0])
    else
      var r := FirstValueAttribute(attrs[1..]);
      assert forall i :: 1 <= i < |attrs| ==> attrs[1..][i - 1] == attrs[i];
      if r.Some? then
        var k :| 0 <= k < |attrs[1..]| && attrs[1..][k] == r.value && r.value.JSXAttribute? && r.value.attrName == "value" &&
          forall j :: 0 <= j < k ==> !(attrs[1..][j].JSXAttribute? && attrs[1..][j].attrName == "value");
        assert attrs[k + 1] == r.value;
        r
      else r
  }

  /**
   * The `JSXElement` visitor: a component gets one `__context__` attribute
   * appended; a text input with a `value` attribute gets a `jsxtv_value`
   * attribute appended carrying the same value. Existing attributes, the tag
   * and the children are kept.
   */
  function VisitJSXElement(el: Node, isComponent: bool, isTextInput: bool, inMap: bool, ctx: string): (r: Node)
    requires el.JSXElement?
    ensures r.JSXElement? && r.tag == el.tag && r.children == el.children
    ensures |r.attributes| == |el.attributes| + (if isComponent then 1 else 0) +
      (if isTextInput && FirstValueAttribute(el.attributes).Some? then 1 else 0)
    ensures r.attributes[..|el.attributes|] == el.attributes
    ensures isComponent ==> r.attributes[|el.attributes|] == ContextAttribute(inMap, ctx)
    ensures isTextInput && FirstValueAttribute(el.attributes).Some? ==>
      r.attributes[|r.attributes| - 1] == JSXAttribute("jsxtv_value", FirstValueAttribute(el.attributes).value.attrValue)
  {
    var withContext := if isComponent then el.attributes + [ContextAttribute(inMap, ctx)] else el.attributes;
    assert FirstValueAttribute(withContext) == FirstValueAttribute(el.attributes) by {
      if isComponent {
        FirstValueIgnoresAppended(el.attributes, ContextAttribute(inMap, ctx));
      }
    }
    var value := if isTextInput then FirstValueAttribute(withContext) else None;
    var attrs := if value.Some? then withContext + [JSXAttribute("jsxtv_value", value.value.attrValue)] else withContext;
    assert attrs[..|el.attributes|] == el.attributes;
    JSXElement(el.tag, attrs, el.children)
  }

  lemma {:induction false} FirstValueIgnoresAppended(attrs: seq<Node>, extra: Node)
    requires !(extra.JSXAttribute? && extra.attrName == "value")
    ensures FirstValueAttribute(attrs + [extra]) == FirstValueAttribute(attrs)
  {
    if |attrs| > 0 {
      assert (attrs + [extra])[1..] == attrs[1..] + [extra];
      FirstValueIgnoresAppended(attrs[1..], extra);
    } else {
      assert [extra][1..] == [];
    }
  }

  /** parentPathHasMap: whether some ancestor is a `.map( ... )` call. */
  method ParentPathHasMap(ancestors: seq<Node>) returns (found: bool)
    ensures found <==> exists i :: 0 <= i < |ancestors| && IsMapCall(ancestors[i])
  {
    var i := 0;
    while i < |ancestors|
      invariant 0 <= i <= |ancestors|
      invariant forall j :: 0 <= j < i ==> !IsMapCall(ancestors[j])
    {
      var n := ancestors[i];
      if n.CallExpression? && n.callee.MemberExpression? {
        if n.callee.property.Identifier? && n.callee.property.name == "map" {
          return true;
        }
      }
      i := i + 1;
    }
    return false;
  }

  /**
   * The `JSXExpressionContainer` visitor: the control rewrite runs first;
   * the list bracketing then sees the original expression, so at most one of
   * them changes the children.
   */
  function VisitContainer(t: Tables, toTag: ListRules.ToTag, argsOf: Node -> seq<Arg>,
                          children: seq<Node>, i: nat): (r: seq<Node>)
    requires i < |children| && children[i].JSXExpressionContainer?
    ensures ControlRules.ControlGroup(t.control.names, toTag, argsOf, children[i].expression, t.context).Some? ==>
      r == ControlRules.UpdateJSXExpressions(t.control.names, toTag, argsOf, children, i, t.context) &&
      ListRules.ListBracketOrigin(toTag, children[i].expression).None?
    ensures ControlRules.ControlGroup(t.control.names, toTag, argsOf, children[i].expression, t.context).None? ==>
      r == ListRules.UpdateJSXListExpressions(toTag, children, i, t.context)
  {
    var e := children[i].expression;
    ControlRules.AtMostOneRuleFires(t.control.names, toTag, argsOf, e, t.context);
    if ControlRules.ControlGroup(t.control.names, toTag, argsOf, e, t.context).Some? then
      ControlRules.UpdateJSXExpressions(t.control.names, toTag, argsOf, children, i, t.context)
    else
      ListRules.UpdateJSXListExpressions(toTag, children, i, t.context)
  }

  /** Whichever rule fires, the container's siblings stay balanced exactly when they were. */
  lemma VisitContainerBalanced(t: Tables, toTag: ListRules.ToTag, argsOf: Node -> seq<Arg>, children: seq<Node>, i: nat)
    requires i < |children| && children[i].JSXExpressionContainer?
    requires children[i].expression.LogicalExpression? ==> MarkerOf(children[i].expression.right).None?
    ensures Balanced(VisitContainer(t, toTag, argsOf, children, i)) <==> Balanced(children)
  {
    ControlRules.ControlGroupBalanced(t.control.names, toTag, argsOf, children, i, t.context);
    ListRules.ListBracketsBalanced(toTag, children, i, t.context);
  }

  /** One visit of an identifier: a possible ternary rewrite, the replace edit, and the list edit. */
  datatype IdentifierVisit = IdentifierVisit(ternary: Option<(nat, Node)>, replace: ReplaceRules.Rename, list: ListRules.ListRename)

  /**
   * The `Identifier` visitor: the ternary rewrite first, then the replace
   * renaming, then the list renaming, which sees the name the replace
   * renaming left behind.
   */
  function VisitIdentifier(t: Tables, argsOf: Node -> seq<Arg>, name: string, ancestors: seq<Node>): (r: IdentifierVisit)
    requires |ancestors| >= 2
    ensures r.ternary == ControlRules.UpdateTernaryConditions(t.control.names, argsOf, name, ancestors, t.context)
    ensures r.replace == ReplaceRules.UpdateIdentifierNames(t.replace, name, ancestors[0])
    ensures r.replace.self.None? ==> r.list == ListRules.UpdateIdentifierNames(t.list, name, ancestors)
    ensures r.replace.self.Some? && !Registered(t.list.names, r.replace.self.value) ==> r.list == ListRules.ListRename(None, None)
  {
    var rep := ReplaceRules.UpdateIdentifierNames(t.replace, name, ancestors[0]);
    var current := if rep.self.Some? then rep.self.value else name;
    IdentifierVisit(ControlRules.UpdateTernaryConditions(t.control.names, argsOf, name, ancestors, t.context),
                    rep, ListRules.UpdateIdentifierNames(t.list, current, ancestors))
  }
}
