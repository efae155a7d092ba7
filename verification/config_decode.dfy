/**
 * Decoding of the `templateVars` literal into plain values (utils.js), and
 * the two name extractors utils.js offers for guard expressions.
 */
module ConfigDecode {
  import opened Js
  import opened Ast

  /** A plain JavaScript value as the decoder produces it. */
  datatype Value =
    | VStr(s: string)
    | VNum(n: nat)
    | VBool(b: bool)
    | VArr(items: seq<Value>)
    | VObj(fields: map<string, Value>)

  /** JavaScript truthiness of a decoded value. */
  predicate Truthy(v: Value)
  {
    match v
    case VStr(s) => s != ""
    case VNum(n) => n != 0
    case VBool(b) => b
    case VArr(_) => true
    case VObj(_) => true
  }

  /**
   * `v.key` for the configuration keys the transform reads (`type`, `child`,
   * `props`, `aliases`): only objects carry them; `undefined` is `None`.
   */
  function Field(v: Value, key: string): (r: Option<Value>)
    ensures r.Some? <==> v.VObj? && key in v.fields
  {
    if v.VObj? && key in v.fields then Some(v.fields[key]) else None
  }

  /** `String(v)`, as JavaScript converts a value used as an object key. */
  function KeyString(v: Value): string
  {
    match v
    case VStr(s) => s
    case VNum(n) => NatToString(n)
    case VBool(b) => if b then "true" else "false"
    case VArr(items) => JoinKeys(items)
    case VObj(_) => "[object Object]"
  }

  /** `items.join(',')` over the string forms of the items. */
  function JoinKeys(items: seq<Value>): string
    decreases items
  {
    if |items| == 0 then ""
    else if |items| == 1 then KeyString(items[0])
    else KeyString(items[0]) + "," + JoinKeys(items[1..])
  }

  /** `node.value` when it is a truthy literal value. */
  function TruthyLiteral(n: Node): (r: Option<Value>)
    ensures r.Some? ==> Truthy(r.value)
  {
    match n
    case StringLiteral(s) => if s != "" then Some(VStr(s)) else None
    case NumericLiteral(k) => if k != 0 then Some(VNum(k)) else None
    case BooleanLiteral(b) => if b then Some(VBool(true)) else None
    case _ => None
  }

  /** Nodes with a defined `.elements`. */
  predicate HasElements(n: Node)
  {
    n.ArrayExpression? || n.ArrayPattern?
  }

  /** Nodes with a defined `.properties`. */
  predicate HasProperties(n: Node)
  {
    n.ObjectExpression? || n.ObjectPattern?
  }

  /** An array element that `getArrayFromExpression` keeps. */
  predicate Contributes(n: Node)
  {
    n.StringLiteral? || n.ArrayExpression? || n.ObjectExpression?
  }

  /** The contributing elements of `es`, in order. */
  function Contributing(es: seq<Node>): (r: seq<Node>)
    ensures |r| <= |es|
    ensures forall k :: 0 <= k < |r| ==> Contributes(r[k])
  {
    if |es| == 0 then []
    else if Contributes(es[0]) then [es[0]] + Contributing(es[1..])
    else Contributing(es[1..])
  }

  /** How a kept element and its decoded value correspond. */
  predicate ElementDecodes(n: Node, v: Value)
  {
    match n
    case StringLiteral(s) => v == VStr(s)
    case ArrayExpression(_) => v.VArr?
    case ObjectExpression(_) => v.VObj?
    case _ => false
  }

  /** An object member that `getObjectFromExpression` stores. */
  predicate Stored(p: Node)
  {
    p.ObjectProperty? &&
    (TruthyLiteral(p.value).Some? || HasElements(p.value) || HasProperties(p.value))
  }

  /** getArrayFromExpression: a missing expression or one without `elements` gives []. */
  function DecodeArray(e: Option<Node>): (r: Result<seq<Value>>)
    ensures e.None? || !HasElements(e.value) ==> r == Ok([])
    ensures e.Some? && HasElements(e.value) && r.Ok? ==>
      var kept := Contributing(e.value.elements);
      |r.value| == |kept| &&
      forall k :: 0 <= k < |kept| ==> ElementDecodes(kept[k], r.value[k])
  {
    if e.Some? && HasElements(e.value) then DecodeElements(e.value.elements) else Ok([])
  }

  /** One array element: a string, a nested array, an object, or nothing. */
  function DecodeElement(n: Node): (r: Result<Option<Value>>)
    ensures r.Ok? ==> (r.value.Some? <==> Contributes(n))
    ensures r.Ok? && r.value.Some? ==> ElementDecodes(n, r.value.value)
    decreases n
  {
    match n
    case StringLiteral(s) => Ok(Some(VStr(s)))
    case ArrayExpression(inner) =>
      (match DecodeElements(inner)
       case Ok(vs) => Ok(Some(VArr(vs)))
       case Err(x) => Err(x))
    case ObjectExpression(ps) =>
      (match DecodeProperties(ps, map[])
       case Ok(m) => Ok(Some(VObj(m)))
       case Err(x) => Err(x))
    case _ => Ok(None)
  }

  /** The `forEach` over array elements: strings, nested arrays and objects, in order. */
  function DecodeElements(es: seq<Node>): (r: Result<seq<Value>>)
    ensures r.Ok? ==>
      var kept := Contributing(es);
      |r.value| == |kept| &&
      forall k :: 0 <= k < |kept| ==> ElementDecodes(kept[k], r.value[k])
    decreases es
  {
    if |es| == 0 then Ok([])
    else
      match DecodeElement(es[0])
      case Err(x) => Err(x)
      case Ok(h) =>
        match DecodeElements(es[1..])
        case Err(x) => Err(x)
        case Ok(rest) => Ok((if h.Some? then [h.value] else []) + rest)
  }

  /** The value one plain property stores, if any: a truthy literal, an array or an object. */
  function DecodePropertyValue(p: Node): (r: Result<Option<Value>>)
    requires p.ObjectProperty?
    ensures r.Ok? ==> (r.value.Some? <==> Stored(p))
    decreases p
  {
    var lit := TruthyLiteral(p.value);
    if lit.Some? then Ok(lit)
    else if HasElements(p.value) then
      match DecodeElements(p.value.elements)
      case Ok(vs) => Ok(Some(VArr(vs)))
      case Err(x) => Err(x)
    else if HasProperties(p.value) then
      match DecodeProperties(p.value.properties, map[])
      case Ok(m) => Ok(Some(VObj(m)))
      case Err(x) => Err(x)
    else Ok(None)
  }

  /**
   * getObjectFromExpression: the `forEach` over the members, writing into
   * `acc` in order under `key.name`. Members other than plain properties
   * have no `.value` and throw.
   */
  function DecodeProperties(ps: seq<Node>, acc: map<string, Value>): (r: Result<map<string, Value>>)
    ensures r.Ok? ==> forall k :: k in r.value <==>
      (k in acc || exists i :: 0 <= i < |ps| && Stored(ps[i]) && NameKey(ps[i].key) == k)
    ensures (exists i :: 0 <= i < |ps| && !ps[i].ObjectProperty?) ==> r.Err?
    decreases ps
  {
    if |ps| == 0 then Ok(acc)
    else if !ps[0].ObjectProperty? then Err(TypeError("property.value is undefined"))
    else
      match DecodePropertyValue(ps[0])
      case Err(x) => Err(x)
      case Ok(s) =>
        var acc' := if s.Some? then acc[NameKey(ps[0].key) := s.value] else acc;
        DecodeProperties(ps[1..], acc')
  }

  /** A later duplicate key overwrites the earlier one. */
  lemma DuplicateKeyOverwrites()
    ensures DecodeProperties([
      ObjectProperty(Identifier("type"), StringLiteral("control"), false),
      ObjectProperty(Identifier("type"), StringLiteral("list"), false)], map[])
      == Ok(map["type" := VStr("list")])
  {
    var first := ObjectProperty(Identifier("type"), StringLiteral("control"), false);
    var second := ObjectProperty(Identifier("type"), StringLiteral("list"), false);
    assert DecodePropertyValue(first) == Ok(Some(VStr("control")));
    assert DecodePropertyValue(second) == Ok(Some(VStr("list")));
    assert [first, second][1..] == [second];
    var m1 := map["type" := VStr("control")];
    assert DecodeProperties([second], m1) == Ok(m1["type" := VStr("list")]);
    assert m1["type" := VStr("list")] == map["type" := VStr("list")];
  }

  /** `''`, `0` and `false` are falsy literal values and are not stored. */
  lemma FalsyLiteralsDropped()
    ensures DecodeProperties([
      ObjectProperty(Identifier("a"), StringLiteral(""), false),
      ObjectProperty(Identifier("b"), NumericLiteral(0), false),
      ObjectProperty(Identifier("c"), BooleanLiteral(false), false)], map[])
      == Ok(map[])
  {
    var a := ObjectProperty(Identifier("a"), StringLiteral(""), false);
    var b := ObjectProperty(Identifier("b"), NumericLiteral(0), false);
    var c := ObjectProperty(Identifier("c"), BooleanLiteral(false), false);
    assert DecodePropertyValue(a) == Ok(None);
    assert DecodePropertyValue(b) == Ok(None);
    assert DecodePropertyValue(c) == Ok(None);
    assert [a, b, c][1..] == [b, c];
    assert [b, c][1..] == [c];
    assert [c][1..] == [];
  }

  /** getNameFromNode: `false` is `None`. */
  function GetNameFromNode(n: Node): (r: Option<string>)
    ensures n.Identifier? ==> r == Some(n.name)
    ensures n.MemberExpression? ==> r == Some(NameKey(n.obj) + "." + NameKey(n.property))
    ensures !n.Identifier? && !n.MemberExpression? ==> r.None?
  {
    match n
    case Identifier(name) => Some(name)
    case MemberExpression(o, p) => Some(NameKey(o) + "." + NameKey(p))
    case _ => None
  }

  /** The node a name is written as: `obj`, or `obj.prop` with identifier parts. */
  function NameNode(obj: string, prop: Option<string>): Node
  {
    if prop.Some? then MemberExpression(Identifier(obj), Identifier(prop.value)) else Identifier(obj)
  }

  /** A name split at its first `.`: the object, and the property when there is one. */
  function SplitName(s: string): (string, Option<string>)
  {
    if |s| == 0 then ("", None)
    else if s[0] == '.' then ("", Some(s[1..]))
    else
      var (o, p) := SplitName(s[1..]);
      ([s[0]] + o, p)
  }

  /** Splitting finds the first `.`, so an object name without one comes back whole. */
  lemma {:induction false} SplitNameAt(obj: string, rest: Option<string>)
    requires '.' !in obj
    ensures SplitName(obj + (if rest.Some? then "." + rest.value else "")) == (obj, rest)
  {
    var s := obj + (if rest.Some? then "." + rest.value else "");
    if |obj| > 0 {
      assert s[0] == obj[0] && s[1..] == obj[1..] + (if rest.Some? then "." + rest.value else "");
      SplitNameAt(obj[1..], rest);
      assert [obj[0]] + obj[1..] == obj;
    } else if rest.Some? {
      assert s[0] == '.' && s[1..] == rest.value;
    }
  }

  /**
   * getNameFromNode gives back what the name node was written from: split
   * at its first `.`, the name is the object and the property. JavaScript
   * identifiers hold no `.`, so two such names are equal only when written
   * alike.
   */
  lemma NameNodeRoundTrip(obj: string, prop: Option<string>)
    requires '.' !in obj
    ensures GetNameFromNode(NameNode(obj, prop)).Some?
    ensures SplitName(GetNameFromNode(NameNode(obj, prop)).value) == (obj, prop)
  {
    SplitNameAt(obj, prop);
    if prop.Some? {
      assert GetNameFromNode(NameNode(obj, prop)).value == obj + ("." + prop.value);
    } else {
      assert obj + "" == obj;
    }
  }

  lemma NameNodeInjective(obj: string, prop: Option<string>, obj': string, prop': Option<string>)
    requires '.' !in obj && '.' !in obj'
    ensures GetNameFromNode(NameNode(obj, prop)) == GetNameFromNode(NameNode(obj', prop')) <==>
      obj == obj' && prop == prop'
  {
    NameNodeRoundTrip(obj, prop);
    NameNodeRoundTrip(obj', prop');
  }

  /** getExpressionSubject's result: a name, `false`, or `null`. */
  datatype Subject = Named(name: string) | NotNamed | NoSubject

  function FromName(n: Option<string>): Subject
  {
    if n.Some? then Named(n.value) else NotNamed
  }

  /**
   * getExpressionSubject: the name on the left of a guard. A binary left side
   * whose own left is a negation recurses, so `!a === 'yes' && b` yields `a`.
   */
  function GetExpressionSubject(e: Node): (r: Subject)
    requires HasLeftRight(e)
    ensures e.left.Identifier? ==> r == Named(e.left.name)
    ensures e.left.MemberExpression? ==> r == Named(NameKey(e.left.obj) + "." + NameKey(e.left.property))
    ensures e.left.UnaryExpression? ==> r == FromName(GetNameFromNode(e.left.argument))
    ensures e.left.BinaryExpression? && !e.left.left.UnaryExpression? ==>
      r == FromName(GetNameFromNode(e.left.left))
    ensures e.left.BinaryExpression? && e.left.left.UnaryExpression? ==>
      r == FromName(GetNameFromNode(e.left.left.argument))
    ensures (!e.left.Identifier? && !e.left.MemberExpression? && !e.left.UnaryExpression? &&
             !e.left.BinaryExpression?) ==> r == NoSubject
    decreases e
  {
    var l := e.left;
    if l.MemberExpression? || l.Identifier? then FromName(GetNameFromNode(l))
    else if l.UnaryExpression? then FromName(GetNameFromNode(l.argument))
    else if l.BinaryExpression? then
      if l.left.UnaryExpression? then GetExpressionSubject(l) else FromName(GetNameFromNode(l.left))
    else NoSubject
  }
}
