/**
 * The replace controller (controllers/replace.js, and the copy embedded in
 * controller.js:30-72): renaming registered identifiers to their uids, and
 * declaring each uid at the top of the component body.
 */
module ReplaceRules {
  import opened Js
  import opened Ast
  import opened ConfigDecode
  import opened TemplateVars
  import opened Registry

  /** Parent node types under which a replace identifier keeps its name (controllers/replace.js:28). */
  const ReplaceExcludedTypes: seq<string> := ["ObjectProperty", "MemberExpression", "VariableDeclarator", "ArrayPattern"]

  /**
   * What one visit of an identifier changes: the identifier's own new name,
   * and the new name of its parent property's value identifier.
   */
  datatype Rename = Rename(self: Option<string>, propertyValue: Option<string>)

  const NoRename := Rename(None, None)

  /**
   * updateIdentifierNames for an identifier called `name` whose parent is
   * `parent`. A registered identifier is renamed to its uid unless the
   * parent is excluded; under an `ObjectProperty` only the property's value
   * identifier is renamed, never its key.
   */
  function UpdateIdentifierNames(v: Vars, name: string, parent: Node): (r: Rename)
    ensures !Registered(v.names, name) ==> r == NoRename
    ensures r.self.Some? <==> Registered(v.names, name) && Type(parent) !in ReplaceExcludedTypes
    ensures r.self.Some? ==> r.self.value == Lookup(v.mapped, name)
    ensures parent.ObjectProperty? || parent.MemberExpression? || parent.VariableDeclarator? || parent.ArrayPattern? ==>
      r.self.None?
    ensures r.propertyValue.Some? <==>
      Registered(v.names, name) && parent.ObjectProperty? && parent.value.Identifier? && Registered(v.names, parent.value.name)
    ensures r.propertyValue.Some? ==> r.propertyValue.value == Lookup(v.mapped, parent.value.name)
  {
    if !Registered(v.names, name) then NoRename
    else
      var self := if Type(parent) !in ReplaceExcludedTypes then Some(Lookup(v.mapped, name)) else None;
      var value :=
        if parent.ObjectProperty? && parent.value.Identifier? && Registered(v.names, parent.value.name)
        then Some(Lookup(v.mapped, parent.value.name))
        else None;
      Rename(self, value)
  }

  /**
   * With fresh uids, renaming is idempotent: visiting the renamed identifier
   * (or the renamed property value) again changes nothing.
   */
  lemma RenameIdempotent(v: Vars, next: nat, name: string, parent: Node)
    requires Minted(v, next) && FreshUids(v, next)
    ensures var r := UpdateIdentifierNames(v, name, parent);
      (r.self.Some? ==> UpdateIdentifierNames(v, r.self.value, parent) == NoRename) &&
      (r.propertyValue.Some? ==>
        UpdateIdentifierNames(v, r.propertyValue.value, parent.(value := Identifier(r.propertyValue.value))) == NoRename)
  {
    var r := UpdateIdentifierNames(v, name, parent);
    if r.self.Some? {
      RenamedIsFresh(v, next, name);
    }
    if r.propertyValue.Some? {
      RenamedIsFresh(v, next, parent.value.name);
    }
  }

  /** A renamed identifier gets exactly the uid minted for the last entry of that name. */
  lemma RenameUsesLastUid(v: Vars, next: nat, name: string, parent: Node, i: nat)
    requires Minted(v, next)
    requires i < |v.raw| && EntryName(v.raw[i]) == Some(VStr(name))
    requires forall j :: i < j < |v.raw| ==> NameKeyOf(EntryName(v.raw[j])) != name
    requires Type(parent) !in ReplaceExcludedTypes
    ensures UpdateIdentifierNames(v, name, parent).self == Some(UidName(next + i))
  {
    assert v.names[i] == Some(VStr(name));
    UidTableLastWins(v.raw, next, i);
  }

  /** `getLanguageReplace( 'format', { value: 'name' }, ctx )`. */
  function FormatCall(name: string, ctx: string): Node
  {
    CallExpression(Identifier("getLanguageReplace"), [
      StringLiteral("format"),
      ObjectExpression([ObjectProperty(Identifier("value"), StringLiteral(name), false)]),
      Identifier(ctx)])
  }

  /** `getLanguageString( [ 'language', which ], [], ctx )`. */
  function LanguageStringCall(which: string, ctx: string): Node
  {
    CallExpression(Identifier("getLanguageString"), [
      ArrayExpression([StringLiteral("language"), StringLiteral(which)]),
      ArrayExpression([]),
      Identifier(ctx)])
  }

  /** The two copies of the controller: embedded in controller.js, or split out into controllers/replace.js. */
  datatype Copy = Embedded | SplitOut

  /** The initialiser of a replace variable's declaration. */
  function Initialiser(copy: Copy, name: string, ctx: string): (r: Node)
    ensures copy.SplitOut? ==> r.BinaryExpression? && r.operator == "+" && r.left.BinaryExpression?
  {
    match copy
    case Embedded => FormatCall(name, ctx)
    case SplitOut =>
      BinaryExpression("+", BinaryExpression("+", LanguageStringCall("open", ctx), FormatCall(name, ctx)),
                       LanguageStringCall("close", ctx))
  }

  /**
   * The split-out initialiser wraps the embedded one between the language's
   * `open` and `close` strings, all three calls reading the same context.
   */
  lemma InitialisersAgree(name: string, ctx: string)
    ensures var split := Initialiser(SplitOut, name, ctx);
      split.left.right == Initialiser(Embedded, name, ctx) &&
      split.left.left == LanguageStringCall("open", ctx) &&
      split.right == LanguageStringCall("close", ctx) &&
      split.left.right.arguments[2] == split.left.left.arguments[2] == split.right.arguments[2] == Identifier(ctx)
  {
  }

  /** `let <mapped[name]> = <initialiser>;` for one entry. */
  function Declaration(copy: Copy, v: Vars, p: Prop, ctx: string): Node
  {
    var name := NameKeyOf(EntryName(p));
    LetDeclaration(Lookup(v.mapped, name), Initialiser(copy, name, ctx))
  }

  function Declarations(copy: Copy, v: Vars, ps: seq<Prop>, ctx: string): (r: seq<Node>)
    ensures |r| == |ps|
    ensures forall i :: 0 <= i < |ps| ==> r[i] == Declaration(copy, v, ps[i], ctx)
  {
    if |ps| == 0 then [] else [Declaration(copy, v, ps[0], ctx)] + Declarations(copy, v, ps[1..], ctx)
  }

  /**
   * initVars: one `let` per replace entry is unshifted onto the block, so the
   * declarations precede the original statements in reverse entry order.
   */
  function InitVars(copy: Copy, v: Vars, ctx: string, body: seq<Node>): (r: seq<Node>)
    ensures |r| == |v.raw| + |body|
    ensures r[|v.raw|..] == body
    ensures r[..|v.raw|] == Reverse(Declarations(copy, v, v.raw, ctx))
  {
    var ds := Declarations(copy, v, v.raw, ctx);
    var r := UnshiftAll(body, ds);
    assert r[..|ds|] == Reverse(ds);
    r
  }

  /** Each declaration binds the uid of its entry's name, so every minted uid in use is declared. */
  lemma {:induction false} InitVarsDeclaresUids(copy: Copy, v: Vars, next: nat, ctx: string, body: seq<Node>, name: string)
    requires Minted(v, next) && Registered(v.names, name)
    ensures name in v.mapped
    ensures exists i :: 0 <= i < |v.raw| && DeclaredName(InitVars(copy, v, ctx, body)[i]) == Some(v.mapped[name])
  {
    RegisteredHasUid(v.raw, next, name);
    var k := OriginIndex(v.raw, next, name);
    var ds := Declarations(copy, v, v.raw, ctx);
    var r := InitVars(copy, v, ctx, body);
    ReversedPrefixAt(r, ds, k);
    DeclarationBinds(copy, v, v.raw[k], ctx);
    assert DeclaredName(r[|v.raw| - 1 - k]) == Some(v.mapped[name]);
  }

  lemma DeclarationBinds(copy: Copy, v: Vars, p: Prop, ctx: string)
    ensures DeclaredName(Declaration(copy, v, p, ctx)) == Some(Lookup(v.mapped, NameKeyOf(EntryName(p))))
  {
  }
}
