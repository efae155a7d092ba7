/**
 * The visitor front end (visitor.js): recognising `Component.templateVars = [ ... ]`,
 * normalising each entry to `[ name, config ]`, sorting the entries into the
 * replace, control and list buckets, and locating the component declaration.
 */
module TemplateVars {
  import opened Js
  import opened Ast
  import opened ConfigDecode

  /** A normalised entry: the JavaScript array `[ name, config, ... ]`. */
  type Prop = seq<Value>

  /** `const [ varName ] = prop`: `undefined` is `None`. */
  function PropName(p: Prop): Option<Value>
  {
    if |p| >= 1 then Some(p[0]) else None
  }

  /** `const [ , varConfig ] = prop`: `undefined` is `None`. */
  function PropConfig(p: Prop): Option<Value>
  {
    if |p| >= 2 then Some(p[1]) else None
  }

  /**
   * normaliseConfigProp: a bare entry becomes `[ entry, {} ]`; an array entry
   * is kept as it is, so `[ 'title' ]` stays without a config object.
   */
  function NormaliseConfigProp(p: Value): (r: Prop)
    ensures !p.VArr? ==> PropName(r) == Some(p) && PropConfig(r) == Some(VObj(map[])) && |r| == 2
    ensures p.VArr? ==> r == p.items
    ensures p.VArr? && |p.items| == 1 ==> PropName(r) == Some(p.items[0]) && PropConfig(r).None?
  {
    if p.VArr? then p.items else [p, VObj(map[])]
  }

  datatype Kind = ReplaceKind | ControlKind | ListKind

  /**
   * The bucket an entry goes to (visitor.js:111-118): no `type` or `replace`
   * is replace, `control` and `list` name their bucket, anything else is
   * dropped (`None`). Reading `.type` of an undefined config throws.
   */
  function KindOf(p: Prop): (r: Result<Option<Kind>>)
    ensures r.Err? <==> PropConfig(p).None?
    ensures r.Ok? ==>
      var t := Field(PropConfig(p).value, "type");
      (r.value == Some(ReplaceKind) <==> t.None? || !Truthy(t.value) || t.value == VStr("replace")) &&
      (r.value == Some(ControlKind) <==> t == Some(VStr("control"))) &&
      (r.value == Some(ListKind) <==> t == Some(VStr("list")))
  {
    match PropConfig(p)
    case None => Err(TypeError("Cannot read properties of undefined (reading 'type')"))
    case Some(config) =>
      var t := Field(config, "type");
      if t == Some(VStr("replace")) || t.None? || !Truthy(t.value) then Ok(Some(ReplaceKind))
      else if t == Some(VStr("control")) then Ok(Some(ControlKind))
      else if t == Some(VStr("list")) then Ok(Some(ListKind))
      else Ok(None)
  }

  datatype Buckets = Buckets(replace: seq<Prop>, control: seq<Prop>, list: seq<Prop>)

  /** The normalised entries of kind `k`, in declaration order: the reference each bucket meets. */
  function OfKind(props: seq<Prop>, k: Kind): (r: seq<Prop>)
    ensures |r| <= |props|
  {
    if |props| == 0 then []
    else if KindOf(props[0]) == Ok(Some(k)) then [props[0]] + OfKind(props[1..], k)
    else OfKind(props[1..], k)
  }

  predicate AllClassify(props: seq<Prop>)
  {
    forall i :: 0 <= i < |props| ==> KindOf(props[i]).Ok?
  }

  function Normalised(entries: seq<Value>): (r: seq<Prop>)
    ensures |r| == |entries|
    ensures forall i :: 0 <= i < |entries| ==> r[i] == NormaliseConfigProp(entries[i])
  {
    if |entries| == 0 then [] else [NormaliseConfigProp(entries[0])] + Normalised(entries[1..])
  }

  /** One step of the `forEach` of visitor.js:107-120: push the entry onto its bucket. */
  function Push(b: Buckets, p: Prop): Result<Buckets>
  {
    match KindOf(p)
    case Err(x) => Err(x)
    case Ok(None) => Ok(b)
    case Ok(Some(ReplaceKind)) => Ok(b.(replace := b.replace + [p]))
    case Ok(Some(ControlKind)) => Ok(b.(control := b.control + [p]))
    case Ok(Some(ListKind)) => Ok(b.(list := b.list + [p]))
  }

  /** The `forEach` itself, from the buckets built so far. */
  function PushAll(b: Buckets, props: seq<Prop>): Result<Buckets>
    decreases |props|
  {
    if |props| == 0 then Ok(b)
    else
      match Push(b, props[0])
      case Err(x) => Err(x)
      case Ok(b') => PushAll(b', props[1..])
  }

  /** Pushing keeps every bucket equal to the filter of the entries of its kind. */
  lemma {:induction false} PushAllFilters(b: Buckets, props: seq<Prop>)
    ensures PushAll(b, props).Ok? <==> AllClassify(props)
    ensures PushAll(b, props).Ok? ==>
      PushAll(b, props).value ==
        Buckets(b.replace + OfKind(props, ReplaceKind),
                b.control + OfKind(props, ControlKind),
                b.list + OfKind(props, ListKind))
    decreases |props|
  {
    if |props| > 0 {
      var p := props[0];
      assert forall i :: 1 <= i < |props| ==> props[1..][i - 1] == props[i];
      match Push(b, p)
      case Err(_) =>
      case Ok(b') =>
        PushAllFilters(b', props[1..]);
        if PushAll(b, props).Ok? {
          assert b.replace + [p] + OfKind(props[1..], ReplaceKind) == b.replace + ([p] + OfKind(props[1..], ReplaceKind));
          assert b.control + [p] + OfKind(props[1..], ControlKind) == b.control + ([p] + OfKind(props[1..], ControlKind));
          assert b.list + [p] + OfKind(props[1..], ListKind) == b.list + ([p] + OfKind(props[1..], ListKind));
        }
    }
  }

  /**
   * The classification of visitor.js:100-120: every bucket holds the entries
   * of its kind in declaration order, and one entry without a config throws.
   */
  function Classify(entries: seq<Value>): (r: Result<Buckets>)
    ensures r.Ok? <==> AllClassify(Normalised(entries))
    ensures r.Ok? ==>
      var props := Normalised(entries);
      r.value == Buckets(OfKind(props, ReplaceKind), OfKind(props, ControlKind), OfKind(props, ListKind))
  {
    PushAllFilters(Buckets([], [], []), Normalised(entries));
    PushAll(Buckets([], [], []), Normalised(entries))
  }

  /** Each entry lands in at most one bucket; entries of other types are dropped. */
  lemma {:induction false} BucketsPartition(props: seq<Prop>)
    ensures |OfKind(props, ReplaceKind)| + |OfKind(props, ControlKind)| + |OfKind(props, ListKind)| <= |props|
  {
    if |props| > 0 {
      BucketsPartition(props[1..]);
    }
  }

  /** A one-element entry such as `[ 'title' ]` carries no config, and reading its type throws. */
  lemma OneElementEntryThrows()
    ensures Classify([VArr([VStr("title")])]).Err?
  {
    var props := Normalised([VArr([VStr("title")])]);
    assert props[0] == [VStr("title")];
    assert !AllClassify(props);
  }

  /**
   * getTemplateVarsFromExpression: a node with both sides, whatever its
   * operator, whose left is `X.templateVars` with identifier object and
   * property is recognised (`Some`), anything else is not (`None`); a right
   * side that is not an array literal yields empty buckets.
   */
  function GetTemplateVarsFromExpression(e: Node): (r: Result<Option<Buckets>>)
    ensures !IsTemplateVarsAssignment(e) ==> r == Ok(None)
    ensures IsTemplateVarsAssignment(e) && !e.right.ArrayExpression? ==> r == Ok(Some(Buckets([], [], [])))
    ensures IsTemplateVarsAssignment(e) && e.right.ArrayExpression? ==>
      (r.Ok? <==> (DecodeArray(Some(e.right)).Ok? && Classify(DecodeArray(Some(e.right)).value).Ok?))
    ensures r.Ok? && r.value.Some? ==> IsTemplateVarsAssignment(e)
  {
    if !IsTemplateVarsAssignment(e) then Ok(None)
    else
      var decoded := if e.right.ArrayExpression? then DecodeArray(Some(e.right)) else Ok([]);
      match decoded
      case Err(x) => Err(x)
      case Ok(entries) =>
        match Classify(entries)
        case Err(x) => Err(x)
        case Ok(b) => Ok(Some(b))
  }

  /** An entry as a template author writes it: `'name'`, or `[ 'name', { type: 't' } ]`. */
  datatype Entry = Bare(name: string) | Typed(name: string, typeName: string)

  function PrintEntry(en: Entry): Node
  {
    match en
    case Bare(n) => StringLiteral(n)
    case Typed(n, t) =>
      ArrayExpression([StringLiteral(n), ObjectExpression([ObjectProperty(Identifier("type"), StringLiteral(t), false)])])
  }

  function PrintEntries(es: seq<Entry>): (r: seq<Node>)
    ensures |r| == |es|
  {
    if |es| == 0 then [] else [PrintEntry(es[0])] + PrintEntries(es[1..])
  }

  /** `Component.templateVars = [ ... ]` with the given entries. */
  function TemplateVarsStatement(component: string, es: seq<Entry>): Node
  {
    AssignmentExpression("=", MemberExpression(Identifier(component), Identifier("templateVars")),
                         ArrayExpression(PrintEntries(es)))
  }

  /** The normalised entry the author meant; an empty `type` is falsy and not stored. */
  function EntryProp(en: Entry): Prop
  {
    [VStr(en.name), if en.Typed? && en.typeName != "" then VObj(map["type" := VStr(en.typeName)]) else VObj(map[])]
  }

  /** The bucket the author meant: none or `replace`, `control`, `list`, or no bucket for any other type. */
  function EntryKind(en: Entry): Option<Kind>
  {
    if en.Bare? || en.typeName == "" || en.typeName == "replace" then Some(ReplaceKind)
    else if en.typeName == "control" then Some(ControlKind)
    else if en.typeName == "list" then Some(ListKind)
    else None
  }

  /** The meant entries of kind `k`, in the order written. */
  function EntriesOfKind(es: seq<Entry>, k: Kind): seq<Prop>
  {
    if |es| == 0 then []
    else (if EntryKind(es[0]) == Some(k) then [EntryProp(es[0])] else []) + EntriesOfKind(es[1..], k)
  }

  /** What the decoder makes of one written entry. */
  function EntryValue(en: Entry): Value
  {
    if en.Bare? then VStr(en.name) else VArr(EntryProp(en))
  }

  function EntryValues(es: seq<Entry>): (r: seq<Value>)
    ensures |r| == |es|
  {
    if |es| == 0 then [] else [EntryValue(es[0])] + EntryValues(es[1..])
  }

  lemma DecodeEntry(en: Entry)
    ensures DecodeElement(PrintEntry(en)) == Ok(Some(EntryValue(en)))
  {
    if en.Typed? {
      var prop := ObjectProperty(Identifier("type"), StringLiteral(en.typeName), false);
      assert DecodeProperties([prop], map[]) == Ok(EntryProp(en)[1].fields) by {
        assert [prop][1..] == [];
      }
      var obj := ObjectExpression([prop]);
      assert DecodeElement(obj) == Ok(Some(EntryProp(en)[1]));
      assert DecodeElements([obj]) == Ok([EntryProp(en)[1]]) by {
        assert [obj][1..] == [];
        assert DecodeElements([obj][1..]) == Ok([]);
        assert [EntryProp(en)[1]] + [] == [EntryProp(en)[1]];
      }
      var elems := [StringLiteral(en.name), obj];
      assert elems[1..] == [obj];
      assert DecodeElements(elems) == Ok([VStr(en.name)] + [EntryProp(en)[1]]);
      assert [VStr(en.name)] + [EntryProp(en)[1]] == EntryProp(en);
    }
  }

  lemma {:induction false} DecodeEntries(es: seq<Entry>)
    ensures DecodeElements(PrintEntries(es)) == Ok(EntryValues(es))
  {
    if |es| > 0 {
      DecodeEntry(es[0]);
      DecodeEntries(es[1..]);
      assert PrintEntries(es)[1..] == PrintEntries(es[1..]);
    }
  }

  /** Each written entry normalises to the entry meant, and its bucket is the one meant. */
  lemma {:induction false} EntriesClassify(es: seq<Entry>, k: Kind)
    ensures AllClassify(Normalised(EntryValues(es)))
    ensures OfKind(Normalised(EntryValues(es)), k) == EntriesOfKind(es, k)
  {
    if |es| > 0 {
      var props := Normalised(EntryValues(es));
      EntriesClassify(es[1..], k);
      assert props[0] == EntryProp(es[0]);
      assert props[1..] == Normalised(EntryValues(es[1..]));
      assert KindOf(props[0]) == Ok(EntryKind(es[0]));
    }
  }

  /**
   * Reading back a written `templateVars` assignment gives each bucket the
   * entries the author meant for it, in the order written.
   */
  lemma PrintedTemplateVars(component: string, es: seq<Entry>)
    ensures GetTemplateVarsFromExpression(TemplateVarsStatement(component, es)) ==
      Ok(Some(Buckets(EntriesOfKind(es, ReplaceKind), EntriesOfKind(es, ControlKind), EntriesOfKind(es, ListKind))))
  {
    DecodeEntries(es);
    EntriesClassify(es, ReplaceKind);
    EntriesClassify(es, ControlKind);
    EntriesClassify(es, ListKind);
  }

  /** `left` and `right` exist, `left.object` and `left.property` are identifiers, the property is `templateVars`. */
  predicate IsTemplateVarsAssignment(e: Node)
  {
    HasLeftRight(e) && e.left.MemberExpression? &&
    e.left.obj.Identifier? && IsIdentifierNamed(e.left.property, "templateVars")
  }

  /** The nodes `traverse` visits below `n`, in Babel's visiting order. */
  function Children(n: Node): (r: seq<Node>)
    ensures forall c :: c in r ==> c < n
  {
    match n
    case ArrayExpression(es) => es
    case ObjectExpression(ps) => ps
    case ObjectProperty(k, v, _) => [k, v]
    case SpreadElement(a) => [a]
    case ObjectPattern(ps) => ps
    case ArrayPattern(es) => es
    case MemberExpression(o, p) => [o, p]
    case CallExpression(c, args) => [c] + args
    case UnaryExpression(_, a) => [a]
    case BinaryExpression(_, l, r) => [l, r]
    case LogicalExpression(_, l, r) => [l, r]
    case AssignmentExpression(_, l, r) => [l, r]
    case ConditionalExpression(t, c, a) => [t, c, a]
    case ArrowFunctionExpression(ps, b) => ps + [b]
    case FunctionExpression(ps, b) => ps + [b]
    case VariableDeclarator(id, init) => [id] + (if init.Some? then [init.value] else [])
    case VariableDeclaration(_, ds) => ds
    case BlockStatement(body) => body
    case ExpressionStatement(e) => [e]
    case ReturnStatement(a) => if a.Some? then [a.value] else []
    case JSXElement(_, attrs, kids) => attrs + kids
    case JSXAttribute(_, v) => if v.Some? then [v.value] else []
    case JSXNamespacedAttribute(_, _, v) => if v.Some? then [v.value] else []
    case JSXSpreadAttribute(a) => [a]
    case JSXExpressionContainer(e) => [e]
    case Other(_, parts) => parts
    case _ => []
  }

  /**
   * The `VariableDeclaration` nodes a traversal from `n` visits when it
   * skips the inside of every declaration it meets, in visiting order.
   */
  function DeclarationsFrom(n: Node): (r: seq<Node>)
    ensures forall d :: d in r ==> d.VariableDeclaration?
    decreases n, 1
  {
    if n.VariableDeclaration? then [n] else DeclarationsAmong(Children(n), n)
  }

  function DeclarationsAmong(cs: seq<Node>, ghost parent: Node): (r: seq<Node>)
    requires forall c :: c in cs ==> c < parent
    ensures forall d :: d in r ==> d.VariableDeclaration?
    decreases parent, 0, |cs|
  {
    if |cs| == 0 then []
    else
      assert cs[0] in cs;
      assert forall c :: c in cs[1..] ==> c in cs;
      DeclarationsFrom(cs[0]) + DeclarationsAmong(cs[1..], parent)
  }

  /** `declarations[0].id.name`, when the first declarator binds an identifier. */
  function DeclaredName(d: Node): Option<string>
  {
    if d.VariableDeclaration? && |d.declarations| > 0 && d.declarations[0].VariableDeclarator? &&
       d.declarations[0].id.Identifier?
    then Some(d.declarations[0].id.name)
    else None
  }

  /** The last of `ds` whose first declarator binds `name`. */
  function LastNamed(ds: seq<Node>, name: string): (r: Option<Node>)
    ensures r.Some? <==> exists i :: 0 <= i < |ds| && DeclaredName(ds[i]) == Some(name)
    ensures r.Some? ==>
      exists i :: (0 <= i < |ds| && ds[i] == r.value && DeclaredName(ds[i]) == Some(name) &&
                   forall j :: i < j < |ds| ==> DeclaredName(ds[j]) != Some(name))
  {
    if |ds| == 0 then None
    else
      var last := ds[|ds| - 1];
      if DeclaredName(last) == Some(name) then Some(last)
      else
        var r := LastNamed(ds[..|ds| - 1], name);
        assert forall i :: 0 <= i < |ds| - 1 ==> ds[..|ds| - 1][i] == ds[i];
        r
  }

  /**
   * getComponentPath: the last declaration visited below `scope` (never
   * inside another declaration) whose first declarator is named `name`.
   */
  function GetComponentPath(scope: Node, name: string): (r: Option<Node>)
    ensures r.Some? <==> exists d :: d in DeclarationsAmong(Children(scope), scope) && DeclaredName(d) == Some(name)
    ensures r.Some? ==> r.value.VariableDeclaration? && DeclaredName(r.value) == Some(name)
  {
    var ds := DeclarationsAmong(Children(scope), scope);
    var r := LastNamed(ds, name);
    assert r.Some? ==> r.value in ds;
    r
  }

  /**
   * A declaration wrapped in a node the rules do not otherwise read, as in
   * `export const Card = ...`, is still found: the traversal enters it.
   */
  lemma WrappedDeclarationFound(program: string, wrapper: string, d: Node, name: string)
    requires d.VariableDeclaration? && DeclaredName(d) == Some(name)
    ensures GetComponentPath(Other(program, [Other(wrapper, [d])]), name) == Some(d)
  {
    var w := Other(wrapper, [d]);
    var scope := Other(program, [w]);
    assert [d][1..] == [] && [w][1..] == [];
    assert DeclarationsAmong(Children(w), w) == [d];
    assert DeclarationsAmong(Children(scope), scope) == [d];
  }

  /** What the `ExpressionStatement` visitor does with one statement. */
  datatype StatementOutcome =
    | Untouched
    | Removed
    | RemovedAndInit(vars: Buckets, component: Node)

  /**
   * The `ExpressionStatement` visitor (visitor.js:141-173). A recognised
   * statement is always removed; the controller runs only when `tidyOnly`
   * is off and the component declaration was found.
   */
  function VisitExpressionStatement(e: Node, scope: Node, tidyOnly: bool): (r: Result<StatementOutcome>)
    ensures r.Ok? && r.value.Untouched? <==> GetTemplateVarsFromExpression(e) == Ok(None)
    ensures GetTemplateVarsFromExpression(e).Ok? && GetTemplateVarsFromExpression(e).value.Some? ==>
      r.Ok? && !r.value.Untouched?
    ensures r.Ok? && r.value.RemovedAndInit? <==>
      GetTemplateVarsFromExpression(e).Ok? && GetTemplateVarsFromExpression(e).value.Some? &&
      !tidyOnly && GetComponentPath(scope, e.left.obj.name).Some?
    ensures r.Ok? && r.value.RemovedAndInit? ==>
      r.value.vars == GetTemplateVarsFromExpression(e).value.value &&
      DeclaredName(r.value.component) == Some(e.left.obj.name)
  {
    match GetTemplateVarsFromExpression(e)
    case Err(x) => Err(x)
    case Ok(None) => Ok(Untouched)
    case Ok(Some(vars)) =>
      var component := GetComponentPath(scope, e.left.obj.name);
      if tidyOnly then Ok(Removed)
      else if component.None? then Ok(Removed)
      else Ok(RemovedAndInit(vars, component.value))
  }

  /** The plugin options as given: `None` where unset. */
  datatype PluginOptions = PluginOptions(tidyOnly: Option<bool>, language: Option<string>)

  datatype Settings = Settings(tidyOnly: bool, language: string)

  const DefaultLanguage: string := "handlebars"

  /** `config.tidyOnly ?? false` and `config.language ?? defaultLanguage`. */
  function ReadSettings(o: PluginOptions): (r: Settings)
    ensures o.tidyOnly.None? ==> !r.tidyOnly
    ensures o.language.None? ==> r.language == "handlebars"
    ensures o.tidyOnly.Some? ==> r.tidyOnly == o.tidyOnly.value
    ensures o.language.Some? ==> r.language == o.language.value
  {
    Settings(if o.tidyOnly.Some? then o.tidyOnly.value else false,
             if o.language.Some? then o.language.value else DefaultLanguage)
  }

  /** The options that set both settings explicitly. */
  function SettingsOptions(st: Settings): PluginOptions
  {
    PluginOptions(Some(st.tidyOnly), Some(st.language))
  }

  /**
   * Explicit options are read back as given, and writing out the settings
   * read from any options, defaults included, changes nothing.
   */
  lemma ReadSettingsRoundTrip(st: Settings, o: PluginOptions)
    ensures ReadSettings(SettingsOptions(st)) == st
    ensures ReadSettings(SettingsOptions(ReadSettings(o))) == ReadSettings(o)
    ensures ReadSettings(PluginOptions(None, None)) == Settings(false, DefaultLanguage)
  {
  }
}
