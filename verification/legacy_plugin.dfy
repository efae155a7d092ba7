/**
 * The earlier, single-file version of the transform (index.js): it
 * recognises `Component.templateProps = [ ... ]`, sorts the entries into the
 * same three buckets as the visitor front end, declares a
 * `let _uid = '{{name}}'` for every replace variable at the top of every
 * block of the component, and renames the variable's uses.
 *
 * Its copies of the literal decoder (index.js:43-78) and of the two name
 * extractors (index.js:170-203) are the same code as utils.js and are
 * modelled once, in ConfigDecode.
 */
module LegacyPlugin {
  import opened Js
  import opened Ast
  import opened ConfigDecode
  import opened TemplateVars
  import opened Registry
  import ReplaceRules
  import ComponentInit
  import ListRules

  /** The Mustache tag a template variable stands for: `{{name}}`. */
  function MustacheTag(name: string): string
  {
    "{{" + name + "}}"
  }

  /**
   * getConfigPropName: the first element of a two-element array entry, and
   * any other entry (bare or of another length) as it is.
   */
  function GetConfigPropName(p: Value): Value
  {
    if p.VArr? && |p.items| == 2 then p.items[0] else p
  }

  /**
   * getConfigPropName agrees with the name normaliseConfigProp exposes for
   * bare entries and `[ name, config ]` pairs, and disagrees for an array of
   * any other non-zero length, where it yields the whole array.
   */
  lemma ConfigPropNameAgrees(p: Value)
    ensures !p.VArr? || |p.items| == 2 ==> PropName(NormaliseConfigProp(p)) == Some(GetConfigPropName(p))
    ensures p.VArr? && |p.items| != 2 && |p.items| >= 1 ==>
      GetConfigPropName(p) == p && PropName(NormaliseConfigProp(p)) != Some(GetConfigPropName(p))
  {
    if p.VArr? && |p.items| != 2 && |p.items| >= 1 {
      assert p.items[0] in p.items;
      assert p.items[0] < p;
    }
  }

  /* createPropValue */

  /** `! config || ! config.type || config.type === 'string'`. */
  predicate IsStringConfig(config: Option<Value>)
  {
    config.None? || !Truthy(config.value) ||
    var t := Field(config.value, "type");
    t.None? || !Truthy(t.value) || t.value == VStr("string")
  }

  /** `t.objectProperty( t.identifier( p ), t.stringLiteral( '{{p}}' ) )`. */
  function TagProperty(p: string): Node
  {
    ObjectProperty(Identifier(p), StringLiteral(MustacheTag(p)), false)
  }

  /**
   * The `props.forEach` of createPropValue: one property per child prop
   * name, in order. Babel's identifier builder rejects a name that is not a
   * string.
   */
  function TagProperties(props: seq<Value>): (r: Result<seq<Node>>)
    ensures r.Ok? <==> forall i :: 0 <= i < |props| ==> props[i].VStr?
    ensures r.Ok? ==> (|r.value| == |props| &&
      forall i :: 0 <= i < |props| ==> r.value[i] == TagProperty(props[i].s))
  {
    if |props| == 0 then Ok([])
    else if !props[0].VStr? then Err(TypeError("Property name expected type of string"))
    else
      match TagProperties(props[1..])
      case Err(x) => Err(x)
      case Ok(rest) => Ok([TagProperty(props[0].s)] + rest)
  }

  /** The child configuration of an `array` entry: `{ type: 'object', props: [ ... ] }`. */
  predicate IsObjectChild(config: Value)
  {
    var child := Field(config, "child");
    child.Some? && Field(child.value, "type") == Some(VStr("object"))
  }

  /**
   * createPropValue (index.js:80-101): the initial value of a replace
   * variable. A string variable becomes the tag `{{name}}`; an array of
   * objects becomes a one-element array holding an object whose every
   * property is the tag of its own name; anything else is `undefined`
   * (`None`). A missing `child`, or `props` that is not an array of
   * strings, throws.
   */
  function CreatePropValue(name: Value, config: Option<Value>): (r: Result<Option<Node>>)
    ensures IsStringConfig(config) ==> r == Ok(Some(StringLiteral(MustacheTag(KeyString(name)))))
    ensures !IsStringConfig(config) && Field(config.value, "type") != Some(VStr("array")) ==> r == Ok(None)
    ensures !IsStringConfig(config) && Field(config.value, "type") == Some(VStr("array")) ==>
      (r.Err? <==> Field(config.value, "child").None? ||
                   (IsObjectChild(config.value) &&
                    (var props := Field(Field(config.value, "child").value, "props");
                     props.None? || !props.value.VArr? || exists i :: 0 <= i < |props.value.items| && !props.value.items[i].VStr?)))
    ensures r.Ok? && r.value.Some? && !r.value.value.StringLiteral? ==>
      !IsStringConfig(config) && IsObjectChild(config.value) &&
      var props := Field(Field(config.value, "child").value, "props").value.items;
      r.value.value.ArrayExpression? && |r.value.value.elements| == 1 &&
      r.value.value.elements[0].ObjectExpression? &&
      |r.value.value.elements[0].properties| == |props| &&
      forall i :: 0 <= i < |props| ==> r.value.value.elements[0].properties[i] == TagProperty(props[i].s)
  {
    if IsStringConfig(config) then Ok(Some(StringLiteral(MustacheTag(KeyString(name)))))
    else if Field(config.value, "type") != Some(VStr("array")) then Ok(None)
    else
      var child := Field(config.value, "child");
      if child.None? then Err(TypeError("Cannot destructure property 'type' of 'config.child' as it is undefined."))
      else if Field(child.value, "type") != Some(VStr("object")) then Ok(None)
      else
        var props := Field(child.value, "props");
        if props.None? || !props.value.VArr? then Err(TypeError("props.forEach is not a function"))
        else
          match TagProperties(props.value.items)
          case Err(x) => Err(x)
          case Ok(ps) => Ok(Some(ArrayExpression([ObjectExpression(ps)])))
  }

  /** What getObjectFromExpression reads back from the properties of `names`, on top of `acc`. */
  function TagTable(names: seq<string>, acc: map<string, Value>): (m: map<string, Value>)
    decreases |names|
  {
    if |names| == 0 then acc else TagTable(names[1..], acc[names[0] := VStr(MustacheTag(names[0]))])
  }

  lemma {:induction false} TagTableContents(names: seq<string>, acc: map<string, Value>)
    ensures forall k :: k in TagTable(names, acc) <==> k in acc || k in names
    ensures forall k :: k in names ==> TagTable(names, acc)[k] == VStr(MustacheTag(k))
    ensures forall k :: k in acc && k !in names ==> TagTable(names, acc)[k] == acc[k]
    decreases |names|
  {
    if |names| > 0 {
      TagTableContents(names[1..], acc[names[0] := VStr(MustacheTag(names[0]))]);
      assert forall k :: k in names <==> k == names[0] || k in names[1..];
    }
  }

  function Strings(props: seq<Value>): (r: seq<string>)
    requires forall i :: 0 <= i < |props| ==> props[i].VStr?
    ensures |r| == |props| && forall i :: 0 <= i < |props| ==> r[i] == props[i].s
  {
    if |props| == 0 then [] else [props[0].s] + Strings(props[1..])
  }

  lemma {:induction false} TagPropertiesDecode(names: seq<string>, ps: seq<Node>, acc: map<string, Value>)
    requires |ps| == |names| && forall i :: 0 <= i < |names| ==> ps[i] == TagProperty(names[i])
    ensures DecodeProperties(ps, acc) == Ok(TagTable(names, acc))
    decreases |names|
  {
    if |names| > 0 {
      var p := ps[0];
      assert p == TagProperty(names[0]);
      assert TruthyLiteral(p.value) == Some(VStr(MustacheTag(names[0])));
      assert DecodePropertyValue(p) == Ok(Some(VStr(MustacheTag(names[0]))));
      assert NameKey(p.key) == names[0];
      TagPropertiesDecode(names[1..], ps[1..], acc[names[0] := VStr(MustacheTag(names[0]))]);
    }
  }

  /**
   * The template object createPropValue builds for an array of objects reads
   * back, through getObjectFromExpression, as the object mapping each child
   * prop name to its own tag `{{name}}`, and holds no other key.
   */
  lemma TemplateObjectReadsBack(name: Value, config: Option<Value>)
    requires CreatePropValue(name, config).Ok? && CreatePropValue(name, config).value.Some?
    requires CreatePropValue(name, config).value.value.ArrayExpression?
    ensures var o := CreatePropValue(name, config).value.value.elements[0];
      var props := Field(Field(config.value, "child").value, "props").value.items;
      var m := DecodeProperties(o.properties, map[]);
      m.Ok? &&
      (forall k :: k in m.value <==> exists i :: 0 <= i < |props| && props[i] == VStr(k)) &&
      (forall i :: 0 <= i < |props| ==> m.value[props[i].s] == VStr(MustacheTag(props[i].s)))
  {
    var o := CreatePropValue(name, config).value.value.elements[0];
    var props := Field(Field(config.value, "child").value, "props").value.items;
    assert forall i :: 0 <= i < |props| ==> props[i].VStr?;
    TagPropertiesDecode(Strings(props), o.properties, map[]);
    TagTableReadsBack(props);
  }

  /** The table built from string props has exactly those strings as keys, each bound to its tag. */
  lemma TagTableReadsBack(props: seq<Value>)
    requires forall i :: 0 <= i < |props| ==> props[i].VStr?
    ensures var m := TagTable(Strings(props), map[]);
      (forall k :: k in m <==> exists i :: 0 <= i < |props| && props[i] == VStr(k)) &&
      (forall i :: 0 <= i < |props| ==> m[props[i].s] == VStr(MustacheTag(props[i].s)))
  {
    var names := Strings(props);
    var m := TagTable(names, map[]);
    TagTableContents(names, map[]);
    forall k
      ensures k in m <==> exists i :: 0 <= i < |props| && props[i] == VStr(k)
    {
      if k in m {
        var i := IndexOf(names, k);
        assert props[i] == VStr(k);
      } else {
        forall i | 0 <= i < |props| ensures props[i] != VStr(k) {
          assert names[i] in names;
        }
      }
    }
    forall i | 0 <= i < |props| ensures m[props[i].s] == VStr(MustacheTag(props[i].s)) {
      assert names[i] in names;
    }
  }

  /* getTemplatePropsFromExpression */

  /**
   * A node with `left` and `right`, whatever its operator (`=`, `+=`, `==`
   * alike), whose left is `X.templateProps` with identifier `X`.
   */
  predicate IsTemplatePropsAssignment(e: Node)
  {
    HasLeftRight(e) && e.left.MemberExpression? &&
    e.left.obj.Identifier? && IsIdentifierNamed(e.left.property, "templateProps")
  }

  /** The legacy and the current recogniser never claim the same statement. */
  lemma RecognisersDisjoint(e: Node)
    ensures !(IsTemplatePropsAssignment(e) && IsTemplateVarsAssignment(e))
  {
  }

  /**
   * One step of the `forEach` at index.js:152-164 as written: replace and
   * control entries are pushed as in the visitor front end, but a list entry
   * is pushed onto `templateProps.listvl`, which does not exist, and throws.
   */
  function PushAsWritten(b: Buckets, p: Prop): Result<Buckets>
  {
    if KindOf(p) == Ok(Some(ListKind)) then Err(TypeError("Cannot read properties of undefined (reading 'push')"))
    else Push(b, p)
  }

  function PushAllAsWritten(b: Buckets, props: seq<Prop>): Result<Buckets>
    decreases |props|
  {
    if |props| == 0 then Ok(b)
    else
      match PushAsWritten(b, props[0])
      case Err(x) => Err(x)
      case Ok(b') => PushAllAsWritten(b', props[1..])
  }

  /**
   * As written, the loop succeeds exactly when every entry classifies and
   * none is a list entry, and then it builds the buckets the corrected loop
   * builds.
   */
  lemma {:induction false} PushAllAsWrittenFails(b: Buckets, props: seq<Prop>)
    ensures PushAllAsWritten(b, props).Ok? <==> AllClassify(props) && OfKind(props, ListKind) == []
    ensures PushAllAsWritten(b, props).Ok? || OfKind(props, ListKind) == [] ==>
      PushAllAsWritten(b, props) == PushAll(b, props)
    decreases |props|
  {
    if |props| > 0 {
      var p := props[0];
      assert forall i :: 1 <= i < |props| ==> props[1..][i - 1] == props[i];
      match Push(b, p)
      case Err(_) =>
        assert !AllClassify(props);
      case Ok(b') =>
        PushAllAsWrittenFails(b', props[1..]);
        if KindOf(p) == Ok(Some(ListKind)) {
          assert |OfKind(props, ListKind)| > 0;
        } else {
          assert OfKind(props, ListKind) == OfKind(props[1..], ListKind);
        }
    }
  }

  /** Decoding the right side: an array literal is decoded, anything else is `[]`. */
  function RightEntries(e: Node): Result<seq<Value>>
    requires HasLeftRight(e)
  {
    if e.right.ArrayExpression? then DecodeArray(Some(e.right)) else Ok([])
  }

  /**
   * getTemplatePropsFromExpression as written (index.js:118-168): an
   * unrecognised statement is `false` (`Ok(None)`), a recognised one yields
   * its buckets, and a single list entry makes the whole statement throw.
   */
  function GetTemplatePropsAsWritten(e: Node): (r: Result<Option<Buckets>>)
    ensures !IsTemplatePropsAssignment(e) ==> r == Ok(None)
    ensures IsTemplatePropsAssignment(e) ==>
      (r.Ok? <==> RightEntries(e).Ok? && Classify(RightEntries(e).value).Ok? &&
                  OfKind(Normalised(RightEntries(e).value), ListKind) == [])
    ensures r.Ok? && r.value.Some? ==> r.value.value.list == []
  {
    if !IsTemplatePropsAssignment(e) then Ok(None)
    else
      match RightEntries(e)
      case Err(x) => Err(x)
      case Ok(entries) =>
        var props := Normalised(entries);
        PushAllAsWrittenFails(Buckets([], [], []), props);
        PushAllFilters(Buckets([], [], []), props);
        match PushAllAsWritten(Buckets([], [], []), props)
        case Err(x) => Err(x)
        case Ok(b) => Ok(Some(b))
  }

  /**
   * getTemplatePropsFromExpression as evidently intended: list entries go to
   * the `list` bucket, so every bucket holds the entries of its kind in
   * declaration order.
   */
  function GetTemplateProps(e: Node): (r: Result<Option<Buckets>>)
    ensures !IsTemplatePropsAssignment(e) ==> r == Ok(None)
    ensures IsTemplatePropsAssignment(e) ==>
      (r.Ok? <==> RightEntries(e).Ok? && Classify(RightEntries(e).value).Ok?)
    ensures r.Ok? && r.value.Some? ==>
      IsTemplatePropsAssignment(e) &&
      var props := Normalised(RightEntries(e).value);
      r.value.value == Buckets(OfKind(props, ReplaceKind), OfKind(props, ControlKind), OfKind(props, ListKind))
  {
    if !IsTemplatePropsAssignment(e) then Ok(None)
    else
      match RightEntries(e)
      case Err(x) => Err(x)
      case Ok(entries) =>
        match Classify(entries)
        case Err(x) => Err(x)
        case Ok(b) => Ok(Some(b))
  }

  /**
   * The two versions differ only on statements holding a list entry: where
   * the version as written succeeds, the corrected one gives the same
   * buckets, and on list-free input they agree outright.
   */
  lemma ListTypoOnlyBreaksLists(e: Node)
    ensures GetTemplatePropsAsWritten(e).Ok? ==> GetTemplatePropsAsWritten(e) == GetTemplateProps(e)
    ensures (IsTemplatePropsAssignment(e) && RightEntries(e).Ok? &&
             OfKind(Normalised(RightEntries(e).value), ListKind) == []) ==>
      GetTemplatePropsAsWritten(e) == GetTemplateProps(e)
  {
    if IsTemplatePropsAssignment(e) && RightEntries(e).Ok? {
      var entries := RightEntries(e).value;
      var props := Normalised(entries);
      PushAllAsWrittenFails(Buckets([], [], []), props);
      PushAllFilters(Buckets([], [], []), props);
      assert Classify(entries) == PushAll(Buckets([], [], []), props);
    }
  }

  /** `Card.templateProps = [ [ 'items', { type: 'list' } ] ]`. */
  const ListEntryStatement: Node :=
    AssignmentExpression("=", MemberExpression(Identifier("Card"), Identifier("templateProps")),
      ArrayExpression([ArrayExpression([
        StringLiteral("items"),
        ObjectExpression([ObjectProperty(Identifier("type"), StringLiteral("list"), false)])])]))

  const ListEntry: Prop := [VStr("items"), VObj(map["type" := VStr("list")])]

  lemma ListEntryDecodes()
    ensures RightEntries(ListEntryStatement) == Ok([VArr(ListEntry)])
  {
    var o := ObjectExpression([ObjectProperty(Identifier("type"), StringLiteral("list"), false)]);
    var p := ObjectProperty(Identifier("type"), StringLiteral("list"), false);
    assert DecodePropertyValue(p) == Ok(Some(VStr("list")));
    assert DecodeProperties([p], map[]) == Ok(map["type" := VStr("list")]);
    assert DecodeElement(o) == Ok(Some(VObj(map["type" := VStr("list")])));
    var inner := [StringLiteral("items"), o];
    assert inner[1..] == [o];
    assert [o][1..] == [];
    var ov := VObj(map["type" := VStr("list")]);
    assert DecodeElements([]) == Ok([]);
    assert [ov] + [] == [ov];
    assert DecodeElements([o]) == Ok([ov]);
    assert DecodeElement(StringLiteral("items")) == Ok(Some(VStr("items")));
    assert [VStr("items")] + [ov] == ListEntry;
    assert DecodeElements(inner) == Ok(ListEntry);
    var arr := ArrayExpression(inner);
    assert DecodeElement(arr) == Ok(Some(VArr(ListEntry)));
    assert [arr][1..] == [];
    assert [VArr(ListEntry)] + [] == [VArr(ListEntry)];
    assert DecodeElements([arr]) == Ok([VArr(ListEntry)]);
  }

  /**
   * One list entry: the statement as written throws, while the corrected
   * reading puts the entry in the list bucket.
   */
  lemma ListEntryThrows()
    ensures GetTemplatePropsAsWritten(ListEntryStatement).Err?
    ensures GetTemplateProps(ListEntryStatement) == Ok(Some(Buckets([], [], [ListEntry])))
  {
    ListEntryDecodes();
    var props := Normalised([VArr(ListEntry)]);
    assert props == [ListEntry];
    assert KindOf(ListEntry) == Ok(Some(ListKind));
    assert OfKind(props, ListKind) == [ListEntry];
    assert OfKind(props, ReplaceKind) == [];
    assert OfKind(props, ControlKind) == [];
    assert AllClassify(props);
  }

  /* isControlExpression */

  /**
   * isControlExpression (index.js:204-218): only a node with both `left`
   * and `right` passes the first test, and of those only a logical
   * expression has a listed type, so the identifier, member and unary types
   * in the list never match.
   */
  function IsControlExpression(e: Node): (r: bool)
    ensures r <==> e.LogicalExpression?
    ensures r ==> HasLeftRight(e)
  {
    HasLeftRight(e) && Type(e) in ["Identifier", "MemberExpression", "UnaryExpression", "LogicalExpression"]
  }

  /* The component traversal */

  /** Parent node types under which a replace identifier keeps its name (index.js:293). */
  const LegacyExcludedTypes: seq<string> := ["ObjectProperty", "MemberExpression"]

  /**
   * The `Identifier` visitor (index.js:287-298): a registered replace
   * identifier is renamed to its uid unless its parent is an object
   * property or a member expression.
   */
  function LegacyRename(v: Vars, name: string, parent: Node): (r: Option<string>)
    ensures r.Some? <==> Registered(v.names, name) && Type(parent) !in LegacyExcludedTypes
    ensures parent.ObjectProperty? || parent.MemberExpression? ==> r.None?
    ensures r.Some? ==> r.value == Lookup(v.mapped, name)
  {
    if Registered(v.names, name) && Type(parent) !in LegacyExcludedTypes then Some(Lookup(v.mapped, name)) else None
  }

  /**
   * Against the split-out controller: wherever the controller renames an
   * identifier, this visitor renames it to the same uid; it also renames a
   * declared name or a destructured element, which the controller keeps;
   * and it never renames the value of an object property, which the
   * controller does.
   */
  lemma LegacyRenamesMore(v: Vars, name: string, parent: Node)
    ensures ReplaceRules.UpdateIdentifierNames(v, name, parent).self.Some? ==>
      LegacyRename(v, name, parent) == ReplaceRules.UpdateIdentifierNames(v, name, parent).self
    ensures Registered(v.names, name) && (parent.VariableDeclarator? || parent.ArrayPattern?) ==>
      LegacyRename(v, name, parent).Some? && ReplaceRules.UpdateIdentifierNames(v, name, parent).self.None?
    ensures (Registered(v.names, name) && parent.ObjectProperty? && parent.value.Identifier? &&
             Registered(v.names, parent.value.name)) ==>
      LegacyRename(v, name, parent).None? && ReplaceRules.UpdateIdentifierNames(v, name, parent).propertyValue.Some?
  {
  }

  /** With fresh uids, renaming twice is renaming once. */
  lemma LegacyRenameIdempotent(v: Vars, next: nat, name: string, parent: Node)
    requires Minted(v, next) && FreshUids(v, next)
    ensures LegacyRename(v, name, parent).Some? ==> LegacyRename(v, LegacyRename(v, name, parent).value, parent).None?
  {
    if LegacyRename(v, name, parent).Some? {
      RenamedIsFresh(v, next, name);
    }
  }

  /** `let <uid> = '{{name}}';` for one replace entry. */
  function LegacyDeclaration(v: Vars, p: Prop): Node
  {
    var name := NameKeyOf(EntryName(p));
    LetDeclaration(Lookup(v.mapped, name), StringLiteral(MustacheTag(name)))
  }

  function LegacyDeclarations(v: Vars, ps: seq<Prop>): (r: seq<Node>)
    ensures |r| == |ps|
    ensures forall i :: 0 <= i < |ps| ==> r[i] == LegacyDeclaration(v, ps[i])
  {
    if |ps| == 0 then [] else [LegacyDeclaration(v, ps[0])] + LegacyDeclarations(v, ps[1..])
  }

  /**
   * The `BlockStatement` visitor (index.js:279-286) on one block: each
   * replace entry's declaration is unshifted, so the declarations precede
   * the original statements in reverse entry order.
   */
  function LegacyBlock(v: Vars, body: seq<Node>): (r: seq<Node>)
    ensures |r| == |v.raw| + |body|
    ensures r[|v.raw|..] == body
    ensures r[..|v.raw|] == Reverse(LegacyDeclarations(v, v.raw))
  {
    var ds := LegacyDeclarations(v, v.raw);
    var r := UnshiftAll(body, ds);
    assert r[..|ds|] == Reverse(ds);
    r
  }

  /** Unlike the controller, which initialises only the first block, every block visited gets the prologue. */
  function LegacyBlocks(v: Vars, blocks: seq<seq<Node>>): (r: seq<seq<Node>>)
    ensures |r| == |blocks|
    ensures forall i :: 0 <= i < |blocks| ==> r[i] == LegacyBlock(v, blocks[i])
  {
    if |blocks| == 0 then [] else [LegacyBlock(v, blocks[0])] + LegacyBlocks(v, blocks[1..])
  }

  /**
   * In every block, each registered replace name has its uid declared among
   * the leading statements, bound to the name's own tag, so a renamed use
   * anywhere in the component reads `{{name}}`.
   */
  lemma EveryBlockDeclares(v: Vars, next: nat, blocks: seq<seq<Node>>, b: nat, name: string)
    requires Minted(v, next) && Registered(v.names, name) && b < |blocks|
    ensures name in v.mapped
    ensures exists i :: (0 <= i < |v.raw| &&
      LegacyBlocks(v, blocks)[b][i] == LetDeclaration(v.mapped[name], StringLiteral(MustacheTag(name))))
  {
    var i := BlockDeclares(v, next, blocks[b], name);
    assert LegacyBlocks(v, blocks)[b] == LegacyBlock(v, blocks[b]);
  }

  /** The position in one block at which a registered replace name's uid is declared. */
  lemma BlockDeclares(v: Vars, next: nat, body: seq<Node>, name: string) returns (i: nat)
    requires Minted(v, next) && Registered(v.names, name)
    ensures name in v.mapped
    ensures i < |v.raw| && LegacyBlock(v, body)[i] == LetDeclaration(v.mapped[name], StringLiteral(MustacheTag(name)))
  {
    RegisteredHasUid(v.raw, next, name);
    var k := OriginIndex(v.raw, next, name);
    assert LegacyDeclaration(v, v.raw[k]) == LetDeclaration(v.mapped[name], StringLiteral(MustacheTag(name)));
    i := DeclarationPosition(v, body, k);
  }

  /** The declaration of entry `k` sits at position `|raw| - 1 - k` of every block. */
  lemma DeclarationPosition(v: Vars, body: seq<Node>, k: nat) returns (i: nat)
    requires k < |v.raw|
    ensures i < |v.raw| && LegacyBlock(v, body)[i] == LegacyDeclaration(v, v.raw[k])
  {
    var ds := LegacyDeclarations(v, v.raw);
    var r := LegacyBlock(v, body);
    ReversedPrefixAt(r, ds, k);
    i := |v.raw| - 1 - k;
  }

  /** Where the controller leaves the second block as it was, this visitor declares the uids there too. */
  lemma SecondBlockDiffers(t: ComponentInit.Tables, propsName: Option<string>, blocks: seq<seq<Node>>, toTag: ListRules.ToTag)
    requires |blocks| >= 2 && |t.replace.raw| > 0
    requires ComponentInit.VisitBlocks(t, propsName, blocks, toTag).Ok?
    ensures ComponentInit.VisitBlocks(t, propsName, blocks, toTag).value.0[1] == blocks[1]
    ensures LegacyBlocks(t.replace, blocks)[1] != blocks[1]
  {
    var r := ComponentInit.VisitBlocks(t, propsName, blocks, toTag).value.0;
    assert r[1..] == blocks[1..];
    assert r[1] == r[1..][0];
    assert |LegacyBlocks(t.replace, blocks)[1]| > |blocks[1]|;
  }

  /* The ExpressionStatement visitor */

  /** What the `ExpressionStatement` visitor of index.js does with one statement. */
  datatype LegacyOutcome =
    | Kept
    | RemovedOnly
    | Transformed(replace: Vars, control: Vars, blocks: seq<seq<Node>>)

  /**
   * The `ExpressionStatement` visitor (index.js:222-309), with the corrected
   * bucket reading. The component is the statement's previous sibling
   * (`component`; `None` for the first statement, whose traversal finds no
   * node and does nothing); `blocks` are the bodies of its blocks in
   * visiting order. Replace uids are minted first, then control uids.
   */
  function VisitStatement(e: Node, component: Option<Node>, blocks: seq<seq<Node>>, tidyOnly: bool, next: nat): (r: Result<LegacyOutcome>)
    ensures r.Ok? && r.value.Kept? <==> GetTemplateProps(e) == Ok(None)
    ensures r.Ok? <==> GetTemplateProps(e).Ok?
    ensures r.Ok? && r.value.Transformed? <==>
      GetTemplateProps(e).Ok? && GetTemplateProps(e).value.Some? && !tidyOnly && component.Some?
    ensures r.Ok? && r.value.Transformed? ==>
      var b := GetTemplateProps(e).value.value;
      Minted(r.value.replace, next) && r.value.replace.raw == b.replace &&
      Minted(r.value.control, next + |b.replace|) && r.value.control.raw == b.control &&
      |r.value.blocks| == |blocks| &&
      forall i :: 0 <= i < |blocks| ==> r.value.blocks[i] == LegacyBlock(r.value.replace, blocks[i])
  {
    Dispatch(GetTemplateProps(e), component.Some? && !tidyOnly, blocks, next)
  }

  /**
   * The same visitor over the reading as written: it throws wherever that
   * reading throws, so a statement with a list entry is never transformed,
   * and wherever it does not throw it agrees with `VisitStatement`.
   */
  function VisitStatementAsWritten(e: Node, component: Option<Node>, blocks: seq<seq<Node>>, tidyOnly: bool, next: nat): (r: Result<LegacyOutcome>)
    ensures r.Err? <==> GetTemplatePropsAsWritten(e).Err?
    ensures r.Ok? ==> r == VisitStatement(e, component, blocks, tidyOnly, next)
    ensures r.Ok? && r.value.Transformed? ==> GetTemplateProps(e).value.value.list == []
  {
    ListTypoOnlyBreaksLists(e);
    Dispatch(GetTemplatePropsAsWritten(e), component.Some? && !tidyOnly, blocks, next)
  }

  /**
   * `Card.templateProps = [ [ 'items', { type: 'list' } ] ]` after a component:
   * as written the visit throws, while the corrected visit transforms the
   * component.
   */
  lemma ListEntryVisitThrows(c: Node, blocks: seq<seq<Node>>, next: nat)
    ensures VisitStatementAsWritten(ListEntryStatement, Some(c), blocks, false, next).Err?
    ensures VisitStatement(ListEntryStatement, Some(c), blocks, false, next).Ok?
    ensures VisitStatement(ListEntryStatement, Some(c), blocks, false, next).value.Transformed?
  {
    ListEntryThrows();
  }

  /** What the visitor does with the statement's reading: nothing, a removal, or the full transformation. */
  function Dispatch(g: Result<Option<Buckets>>, transform: bool, blocks: seq<seq<Node>>, next: nat): (r: Result<LegacyOutcome>)
    ensures r.Ok? && r.value.Kept? <==> g == Ok(None)
    ensures r.Ok? <==> g.Ok?
    ensures r.Ok? && r.value.Transformed? <==> g.Ok? && g.value.Some? && transform
    ensures r.Ok? && r.value.Transformed? ==> r.value == Transform(g.value.value, blocks, next)
  {
    match g
    case Err(x) => Err(x)
    case Ok(None) => Ok(Kept)
    case Ok(Some(b)) => if transform then Ok(Transform(b, blocks, next)) else Ok(RemovedOnly)
  }

  /** Replace uids are minted first, then control uids; every block gets the replace prologue. */
  function Transform(b: Buckets, blocks: seq<seq<Node>>, next: nat): (o: LegacyOutcome)
    ensures o.Transformed?
    ensures Minted(o.replace, next) && o.replace.raw == b.replace
    ensures Minted(o.control, next + |b.replace|) && o.control.raw == b.control
    ensures |o.blocks| == |blocks| && forall i :: 0 <= i < |blocks| ==> o.blocks[i] == LegacyBlock(o.replace, blocks[i])
  {
    var replace := ComponentInit.TableFor(b.replace, next);
    Transformed(replace, ComponentInit.TableFor(b.control, next + |b.replace|), LegacyBlocks(replace, blocks))
  }
}
