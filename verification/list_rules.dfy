/**
 * The list controller (controllers/list.js, and the identical copy embedded
 * in controller.js:73-218): placeholder declarations for list variables, the
 * alias map `toTag` from a name seen in JSX to the list it stands for, the
 * renaming of list identifiers, and the bracketing of list output with
 * `open`/`close` markers.
 */
module ListRules {
  import opened Js
  import opened Ast
  import opened ConfigDecode
  import opened TemplateVars
  import opened Registry
  import opened Markers

  /** `toTag`: a name that may appear in JSX, mapped to the list variable it comes from. */
  type ToTag = map<string, string>

  /** `if ( toTag[ x ] )`: the origin name, when present and non-empty. */
  function TagOf(t: ToTag, x: string): (r: Option<string>)
    ensures r.Some? <==> x in t && t[x] != ""
    ensures r.Some? ==> r.value == t[x]
  {
    if x in t && t[x] != "" then Some(t[x]) else None
  }

  const PrimitiveChild: Value := VObj(map["type" := VStr("primitive")])

  /**
   * normaliseListVar, as seen through `normalisedConfig.child`: a missing
   * config, or one without a truthy `child`, gets `{ type: 'primitive' }`; a
   * present child is kept. A truthy primitive config cannot take the
   * assignment, which throws in the class's strict-mode code (`None`).
   */
  function NormaliseListVar(config: Option<Value>): (child: Option<Value>)
    ensures config.None? || !Truthy(config.value) ==> child == Some(PrimitiveChild)
    ensures config.Some? && config.value.VObj? && "child" in config.value.fields && Truthy(config.value.fields["child"]) ==>
      child == Some(config.value.fields["child"])
    ensures config.Some? && config.value.VObj? && !("child" in config.value.fields && Truthy(config.value.fields["child"])) ==>
      child == Some(PrimitiveChild)
    ensures child.None? <==> config.Some? && Truthy(config.value) && (config.value.VStr? || config.value.VNum? || config.value.VBool?)
  {
    match config
    case None => Some(PrimitiveChild)
    case Some(c) =>
      if !Truthy(c) then Some(PrimitiveChild)
      else if c.VObj? then
        var ch := Field(c, "child");
        if ch.Some? && Truthy(ch.value) then ch else Some(PrimitiveChild)
      else if c.VArr? then Some(PrimitiveChild)
      else None
  }

  /** `getLanguageList( 'primitive', null, ctx )`. */
  function PrimitiveCall(ctx: string): Node
  {
    CallExpression(Identifier("getLanguageList"), [StringLiteral("primitive"), NullLiteral, Identifier(ctx)])
  }

  /** `{ p: getLanguageList( 'objectProperty', { type: 'identifier', value: p }, ctx ) }` for each prop. */
  function PropEntries(props: seq<string>, ctx: string): (r: seq<Node>)
    ensures |r| == |props|
    ensures forall i :: 0 <= i < |props| ==>
      r[i] == ObjectProperty(Identifier(props[i]), ListCall("objectProperty", props[i], ctx), false)
  {
    if |props| == 0 then []
    else [ObjectProperty(Identifier(props[0]), ListCall("objectProperty", props[0], ctx), false)] + PropEntries(props[1..], ctx)
  }

  /** The string items of `props`; any other item makes `types.identifier` throw. */
  function PropNames(items: seq<Value>): (r: Option<seq<string>>)
    ensures r.Some? <==> forall i :: 0 <= i < |items| ==> items[i].VStr?
    ensures r.Some? ==> |r.value| == |items| && forall i :: 0 <= i < |items| ==> items[i] == VStr(r.value[i])
  {
    if |items| == 0 then Some([])
    else if !items[0].VStr? then None
    else
      var rest := PropNames(items[1..]);
      if rest.None? then
        assert !items[1..][0].VStr? || exists i :: 0 <= i < |items[1..]| && !items[1..][i].VStr?;
        None
      else Some([items[0].s] + rest.value)
  }

  /** The `child` of a list entry after normalisation, and what it declares. */
  datatype ChildShape = ObjectChild(props: seq<string>) | PrimitiveChildShape | NoChild

  /** The shape `buildDeclaration` reads from a normalised child: `{ type, props }`. */
  function ShapeOf(child: Value): Result<ChildShape>
  {
    var t := Field(child, "type");
    if t == Some(VStr("object")) then
      match Field(child, "props")
      case None => Err(TypeError("Cannot read properties of undefined (reading 'forEach')"))
      case Some(ps) =>
        if !ps.VArr? then Err(TypeError("props.forEach is not a function"))
        else
          match PropNames(ps.items)
          case None => Err(TypeError("identifier name must be a string"))
          case Some(names) => Ok(ObjectChild(names))
    else if t == Some(VStr("primitive")) then Ok(PrimitiveChildShape)
    else Ok(NoChild)
  }

  /** `{ p: <objectProperty marker>, ... }`: one key per prop, in order, each value naming its prop. */
  function ObjectTemplate(props: seq<string>, ctx: string): (element: Node)
    ensures element.ObjectExpression? && |element.properties| == |props|
    ensures forall i :: 0 <= i < |props| ==> (
      element.properties[i].ObjectProperty? && element.properties[i].key == Identifier(props[i]) &&
      MarkerOf(element.properties[i].value).None? && element.properties[i].value.CallExpression? &&
      |element.properties[i].value.arguments| == 3 && NameOf(element.properties[i].value.arguments[1]) == Some(props[i]))
  {
    var ps := PropEntries(props, ctx);
    assert forall i :: 0 <= i < |props| ==>
      MarkerOf(ps[i].value).None? && NameOf(ps[i].value.arguments[1]) == Some(props[i]) by {
      forall i | 0 <= i < |props|
        ensures MarkerOf(ps[i].value).None? && NameOf(ps[i].value.arguments[1]) == Some(props[i])
      {
        PropertyCallPlain(props[i], ctx);
      }
    }
    ObjectExpression(ps)
  }

  /** An `objectProperty` call is no marker, and names its prop. */
  lemma PropertyCallPlain(p: string, ctx: string)
    ensures MarkerOf(ListCall("objectProperty", p, ctx)).None?
    ensures NameOf(ListCall("objectProperty", p, ctx).arguments[1]) == Some(p)
  {
  }

  /**
   * buildDeclaration: `let uid = [ <template> ];` with a one-element array,
   * the element an object with one key per declared prop (object child) or
   * a single `primitive` call (primitive child); any other child type
   * declares nothing.
   */
  function BuildDeclaration(uid: string, config: Option<Value>, ctx: string): (r: Result<Option<Node>>)
    ensures NormaliseListVar(config).None? ==> r.Err?
    ensures r.Ok? && r.value.Some? ==>
      var d := r.value.value;
      DeclaredName(d) == Some(uid) && d.declarations[0].init.Some? &&
      d.declarations[0].init.value.ArrayExpression? && |d.declarations[0].init.value.elements| == 1
    ensures NormaliseListVar(config).Some? ==>
      match ShapeOf(NormaliseListVar(config).value)
      case Err(_) => r.Err?
      case Ok(NoChild) => r == Ok(None)
      case Ok(PrimitiveChildShape) => r == Ok(Some(LetDeclaration(uid, ArrayExpression([PrimitiveCall(ctx)]))))
      case Ok(ObjectChild(props)) => r == Ok(Some(LetDeclaration(uid, ArrayExpression([ObjectTemplate(props, ctx)]))))
  {
    match NormaliseListVar(config)
    case None => Err(TypeError("Cannot destructure property 'type' of undefined"))
    case Some(child) =>
      match ShapeOf(child)
      case Err(x) => Err(x)
      case Ok(NoChild) => Ok(None)
      case Ok(PrimitiveChildShape) => Ok(Some(LetDeclaration(uid, ArrayExpression([PrimitiveCall(ctx)]))))
      case Ok(ObjectChild(props)) => Ok(Some(LetDeclaration(uid, ArrayExpression([ObjectTemplate(props, ctx)]))))
  }

  /** The declarations built for the entries, in entry order, skipping the ones that build nothing. */
  function BuiltDeclarations(v: Vars, entries: seq<Prop>, ctx: string): (r: Result<seq<Node>>)
    ensures r.Ok? ==> |r.value| <= |entries|
    ensures r.Ok? ==> forall d :: d in r.value ==> d.VariableDeclaration?
  {
    if |entries| == 0 then Ok([])
    else
      var name := NameKeyOf(EntryName(entries[0]));
      match BuildDeclaration(Lookup(v.mapped, name), PropConfig(entries[0]), ctx)
      case Err(x) => Err(x)
      case Ok(d) =>
        match BuiltDeclarations(v, entries[1..], ctx)
        case Err(x) => Err(x)
        case Ok(rest) => Ok((if d.Some? then [d.value] else []) + rest)
  }

  /** One write `toTag[ key ] = origin`. */
  datatype Write = Write(key: string, origin: String)

  type String = string

  /** The aliases a config declares: `varConfig.aliases`, when truthy, must be an array. */
  function Aliases(config: Option<Value>): Result<seq<string>>
  {
    match config
    case None => Err(TypeError("Cannot read properties of undefined (reading 'aliases')"))
    case Some(c) =>
      match Field(c, "aliases")
      case None => Ok([])
      case Some(a) =>
        if !Truthy(a) then Ok([])
        else if a.VArr? then Ok(AliasKeys(a.items))
        else Err(TypeError("varConfig.aliases.forEach is not a function"))
  }

  function AliasKeys(items: seq<Value>): (r: seq<string>)
    ensures |r| == |items|
    ensures forall i :: 0 <= i < |items| ==> r[i] == KeyString(items[i])
  {
    if |items| == 0 then [] else [KeyString(items[0])] + AliasKeys(items[1..])
  }

  /** The writes one entry makes: its own name first, then each alias, all pointing at the name. */
  function EntryWrites(p: Prop): Result<seq<Write>>
  {
    var name := NameKeyOf(EntryName(p));
    match Aliases(PropConfig(p))
    case Err(x) => Err(x)
    case Ok(aliases) => Ok([Write(name, name)] + AliasWrites(aliases, name))
  }

  function AliasWrites(aliases: seq<string>, origin: string): (r: seq<Write>)
    ensures |r| == |aliases|
    ensures forall i :: 0 <= i < |aliases| ==> r[i] == Write(aliases[i], origin)
  {
    if |aliases| == 0 then [] else [Write(aliases[0], origin)] + AliasWrites(aliases[1..], origin)
  }

  function AllWrites(entries: seq<Prop>): Result<seq<Write>>
  {
    if |entries| == 0 then Ok([])
    else
      match EntryWrites(entries[0])
      case Err(x) => Err(x)
      case Ok(w) =>
        match AllWrites(entries[1..])
        case Err(x) => Err(x)
        case Ok(rest) => Ok(w + rest)
  }

  /** Performs the writes in order. */
  function ApplyWrites(t: ToTag, ws: seq<Write>): ToTag
    decreases |ws|
  {
    if |ws| == 0 then t else ApplyWrites(t[ws[0].key := ws[0].origin], ws[1..])
  }

  /**
   * After the writes, a key holds the origin of the last write to it; keys
   * nobody wrote keep their value, and no other key appears.
   */
  lemma ApplyWritesLastWins(t: ToTag, ws: seq<Write>, k: string)
    ensures k in ApplyWrites(t, ws) <==> k in t || exists i :: 0 <= i < |ws| && ws[i].key == k
    ensures (forall i :: 0 <= i < |ws| ==> ws[i].key != k) && k in t ==> ApplyWrites(t, ws)[k] == t[k]
    ensures forall i :: 0 <= i < |ws| && ws[i].key == k && (forall j :: i < j < |ws| ==> ws[j].key != k) ==>
      k in ApplyWrites(t, ws) && ApplyWrites(t, ws)[k] == ws[i].origin
  {
    ApplyWritesDomain(t, ws, k);
    if (forall i :: 0 <= i < |ws| ==> ws[i].key != k) && k in t {
      ApplyWritesUntouched(t, ws, k);
    }
    forall i | 0 <= i < |ws| && ws[i].key == k && (forall j :: i < j < |ws| ==> ws[j].key != k)
      ensures k in ApplyWrites(t, ws) && ApplyWrites(t, ws)[k] == ws[i].origin
    {
      ApplyWritesLast(t, ws, k, i);
    }
  }

  lemma {:induction false} ApplyWritesDomain(t: ToTag, ws: seq<Write>, k: string)
    ensures k in ApplyWrites(t, ws) <==> k in t || exists i :: 0 <= i < |ws| && ws[i].key == k
    decreases |ws|
  {
    if |ws| > 0 {
      var t' := t[ws[0].key := ws[0].origin];
      ApplyWritesDomain(t', ws[1..], k);
      if exists i :: 0 <= i < |ws| && ws[i].key == k {
        var i :| 0 <= i < |ws| && ws[i].key == k;
        if i > 0 {
          assert ws[1..][i - 1].key == k;
        }
      }
      if exists i :: 0 <= i < |ws[1..]| && ws[1..][i].key == k {
        var i :| 0 <= i < |ws[1..]| && ws[1..][i].key == k;
        assert ws[i + 1].key == k;
      }
    }
  }

  lemma {:induction false} ApplyWritesUntouched(t: ToTag, ws: seq<Write>, k: string)
    requires forall i :: 0 <= i < |ws| ==> ws[i].key != k
    requires k in t
    ensures k in ApplyWrites(t, ws) && ApplyWrites(t, ws)[k] == t[k]
    decreases |ws|
  {
    if |ws| > 0 {
      var t' := t[ws[0].key := ws[0].origin];
      forall j | 0 <= j < |ws[1..]|
        ensures ws[1..][j].key != k
      {
        assert ws[1..][j] == ws[j + 1];
      }
      ApplyWritesUntouched(t', ws[1..], k);
    }
  }

  lemma {:induction false} ApplyWritesLast(t: ToTag, ws: seq<Write>, k: string, i: nat)
    requires i < |ws| && ws[i].key == k
    requires forall j :: i < j < |ws| ==> ws[j].key != k
    ensures k in ApplyWrites(t, ws) && ApplyWrites(t, ws)[k] == ws[i].origin
    decreases |ws|
  {
    var t' := t[ws[0].key := ws[0].origin];
    if i > 0 {
      assert ws[1..][i - 1] == ws[i];
      forall j | i - 1 < j < |ws[1..]|
        ensures ws[1..][j].key != k
      {
        assert ws[1..][j] == ws[j + 1];
      }
      ApplyWritesLast(t', ws[1..], k, i - 1);
    } else {
      forall j | 0 <= j < |ws[1..]|
        ensures ws[1..][j].key != k
      {
        assert ws[1..][j] == ws[j + 1];
      }
      ApplyWritesUntouched(t', ws[1..], k);
    }
  }

  /**
   * initVars: every entry's declaration is unshifted (when one is built), so
   * the built declarations precede the block in reverse order; `toTag` gets
   * `name -> name` and `alias -> name` for every entry, later writes winning.
   */
  function InitVars(v: Vars, ctx: string, body: seq<Node>, t: ToTag): (r: Result<(seq<Node>, ToTag)>)
    ensures r.Ok? <==> BuiltDeclarations(v, v.raw, ctx).Ok? && AllWrites(v.raw).Ok?
    ensures r.Ok? ==>
      var decls := BuiltDeclarations(v, v.raw, ctx).value;
      |r.value.0| == |decls| + |body| && r.value.0[|decls|..] == body &&
      r.value.0[..|decls|] == Reverse(decls) &&
      (forall i :: 0 <= i < |decls| ==> r.value.0[i] == decls[|decls| - 1 - i]) &&
      r.value.1 == ApplyWrites(t, AllWrites(v.raw).value)
  {
    match BuiltDeclarations(v, v.raw, ctx)
    case Err(x) => Err(x)
    case Ok(decls) =>
      match AllWrites(v.raw)
      case Err(x) => Err(x)
      case Ok(ws) =>
        var b := UnshiftAll(body, decls);
        assert b == Reverse(decls) + body;
        Ok((b, ApplyWrites(t, ws)))
  }

  /** Every list variable tags itself: after `initVars` its own name leads to itself unless a later alias took the name. */
  lemma InitVarsTagsOwnName(v: Vars, t: ToTag, i: nat)
    requires i < |v.raw|
    requires EntryWrites(v.raw[i]).Ok? && AllWrites(v.raw).Ok?
    ensures NameKeyOf(EntryName(v.raw[i])) in ApplyWrites(t, AllWrites(v.raw).value)
  {
    var k := NameKeyOf(EntryName(v.raw[i]));
    var ws := AllWrites(v.raw).value;
    WritesContainEntry(v.raw, i);
    ApplyWritesLastWins(t, ws, k);
  }

  lemma WritesContainEntry(entries: seq<Prop>, i: nat)
    requires i < |entries| && AllWrites(entries).Ok?
    ensures exists j :: (0 <= j < |AllWrites(entries).value| &&
      AllWrites(entries).value[j].key == NameKeyOf(EntryName(entries[i])))
  {
    var j := WriteOfEntry(entries, i);
  }

  lemma {:induction false} WriteOfEntry(entries: seq<Prop>, i: nat) returns (j: nat)
    requires i < |entries| && AllWrites(entries).Ok?
    ensures j < |AllWrites(entries).value| && AllWrites(entries).value[j].key == NameKeyOf(EntryName(entries[i]))
    decreases |entries|
  {
    var w := EntryWrites(entries[0]).value;
    var rest := AllWrites(entries[1..]).value;
    assert AllWrites(entries).value == w + rest;
    if i == 0 {
      j := 0;
    } else {
      var j' := WriteOfEntry(entries[1..], i - 1);
      assert entries[1..][i - 1] == entries[i];
      j := |w| + j';
      assert (w + rest)[j] == rest[j'];
    }
  }

  /** What one visit of a list identifier changes: its new name, and a new `toTag` entry. */
  datatype ListRename = ListRename(self: Option<string>, tag: Option<Write>)

  /** Parent node types under which a list identifier keeps its name (controllers/list.js:86). */
  const ListExcludedTypes: seq<string> := ["ObjectProperty", "VariableDeclarator", "ArrayPattern"]

  /** `const x = <ident>.map( ... )`: the grandparent is a call and the great-grandparent a declarator of an identifier. */
  function MapBinding(ancestors: seq<Node>): Option<string>
  {
    if |ancestors| >= 3 && ancestors[1].CallExpression? && ancestors[2].VariableDeclarator? && ancestors[2].id.Identifier?
    then Some(ancestors[2].id.name)
    else None
  }

  /**
   * updateIdentifierNames (list) for an identifier `name` with its ancestors,
   * parent first. A registered name is renamed to its uid unless the parent
   * is excluded; as the base of `.map` it is renamed only when its uid is
   * non-empty, and when that `.map` call initialises `const x` the binding
   * `x` is tagged with the original list name.
   */
  function UpdateIdentifierNames(v: Vars, name: string, ancestors: seq<Node>): (r: ListRename)
    requires |ancestors| >= 1
    ensures !Registered(v.names, name) ==> r == ListRename(None, None)
    ensures Type(ancestors[0]) in ListExcludedTypes ==> r == ListRename(None, None)
    ensures r.self.Some? ==> r.self.value == Lookup(v.mapped, name)
    ensures Registered(v.names, name) && !ancestors[0].MemberExpression? && Type(ancestors[0]) !in ListExcludedTypes ==>
      r == ListRename(Some(Lookup(v.mapped, name)), None)
    ensures Registered(v.names, name) && ancestors[0].MemberExpression? && !IsIdentifierNamed(ancestors[0].property, "map") ==>
      r == ListRename(Some(Lookup(v.mapped, name)), None)
    ensures r.tag.Some? <==>
      Registered(v.names, name) && ancestors[0].MemberExpression? && IsIdentifierNamed(ancestors[0].property, "map") &&
      name in v.mapped && v.mapped[name] != "" && MapBinding(ancestors).Some?
    ensures r.tag.Some? ==> r.tag.value == Write(MapBinding(ancestors).value, name) && r.self.Some?
  {
    var parent := ancestors[0];
    if !Registered(v.names, name) || Type(parent) in ListExcludedTypes then ListRename(None, None)
    else if parent.MemberExpression? then
      if IsIdentifierNamed(parent.property, "map") then
        if name in v.mapped && v.mapped[name] != "" then
          var binding := MapBinding(ancestors);
          ListRename(Some(v.mapped[name]), if binding.Some? then Some(Write(binding.value, name)) else None)
        else ListRename(None, None)
      else ListRename(Some(Lookup(v.mapped, name)), None)
    else ListRename(Some(Lookup(v.mapped, name)), None)
  }

  /**
   * updateJSXListExpressions: the origin to bracket a container with. An
   * identifier in `toTag`, or a `.map` call whose object is in `toTag`,
   * brackets with the origin name; anything else does not.
   */
  function ListBracketOrigin(t: ToTag, expr: Node): (r: Option<string>)
    ensures expr.Identifier? ==> r == TagOf(t, expr.name)
    ensures IsMapCall(expr) ==> r == TagOf(t, NameKey(expr.callee.obj))
    ensures !expr.Identifier? && !IsMapCall(expr) ==> r.None?
  {
    if expr.Identifier? then TagOf(t, expr.name)
    else if IsMapCall(expr) then TagOf(t, NameKey(expr.callee.obj))
    else None
  }

  /** The container at `children[i]` bracketed by list markers when its expression is tagged. */
  function UpdateJSXListExpressions(t: ToTag, children: seq<Node>, i: nat, ctx: string): (r: seq<Node>)
    requires i < |children| && children[i].JSXExpressionContainer?
    ensures ListBracketOrigin(t, children[i].expression).None? ==> r == children
    ensures ListBracketOrigin(t, children[i].expression).Some? ==>
      var o := ListBracketOrigin(t, children[i].expression).value;
      |r| == |children| + 2 && r[i + 1] == children[i] &&
      MarkerOf(r[i]) == Some(Open(ListKey(o))) && MarkerOf(r[i + 2]) == Some(Close(ListKey(o)))
  {
    match ListBracketOrigin(t, children[i].expression)
    case None => children
    case Some(o) =>
      ListCallRoundTrip(o, ctx);
      var w := [ListCall("open", o, ctx), children[i], ListCall("close", o, ctx)];
      var r := Splice(children, i, w);
      assert r[i..i + 3] == w;
      assert r[i] == w[0] && r[i + 1] == w[1] && r[i + 2] == w[2];
      r
  }

  /** Bracketing a list keeps the children balanced, both ways, and adds nothing but markers. */
  lemma ListBracketsBalanced(t: ToTag, children: seq<Node>, i: nat, ctx: string)
    requires i < |children| && children[i].JSXExpressionContainer?
    ensures Balanced(UpdateJSXListExpressions(t, children, i, ctx)) <==> Balanced(children)
    ensures Plain(UpdateJSXListExpressions(t, children, i, ctx)) == Plain(children)
  {
    var o := ListBracketOrigin(t, children[i].expression);
    if o.Some? {
      var open := ListCall("open", o.value, ctx);
      var close := ListCall("close", o.value, ctx);
      ListCallRoundTrip(o.value, ctx);
      PairSelfContained(ListKey(o.value), open, children[i], close);
      assert UpdateJSXListExpressions(t, children, i, ctx) == Splice(children, i, [open, children[i], close]);
      SpliceBalanced(children, i, [open, children[i], close]);
      SpliceBracketedPlain(children, i, open, close);
    }
  }

  /**
   * A `.map` binding is keyed to its origin: once `const x = items.map(...)`
   * has tagged `x`, a later `{ x }` container is bracketed with `items`.
   */
  lemma MapBindingBracketsOrigin(v: Vars, t: ToTag, name: string, ancestors: seq<Node>)
    requires |ancestors| >= 1 && name != ""
    requires UpdateIdentifierNames(v, name, ancestors).tag.Some?
    ensures var w := UpdateIdentifierNames(v, name, ancestors).tag.value;
      ListBracketOrigin(t[w.key := w.origin], Identifier(w.key)) == Some(name)
  {
  }

  /** A list name seeded by `initVars` brackets its own `{ name }` container with itself. */
  lemma SeededNameBracketsItself(t: ToTag, name: string)
    requires name != ""
    ensures ListBracketOrigin(ApplyWrites(t, [Write(name, name)]), Identifier(name)) == Some(name)
  {
  }
}
