/**
 * Worked lookups against the registries the back ends ship with. Each output
 * is first derived as a concatenation of the template's pieces, then compared
 * with the flat string a PHP or Handlebars author would expect.
 */
module BackendExamples {
  import opened Js
  import opened Templates
  import opened Tables
  import opened Backends
  import ControlRules

  lemma RenderOneSlot(a: string, b: string, args: seq<string>, context: int)
    requires |args| >= 1
    ensures Render(OneSlot(a, b), args, context) == a + args[0] + b
  {
    assert Render(Then(Lit(b), End), args, context) == b;
    assert Value(Slot(1), args, context) == args[0];
  }

  lemma RenderTwoSlots(a: string, b: string, c: string, args: seq<string>, context: int)
    requires |args| >= 2
    ensures Render(TwoSlots(a, b, c), args, context) == a + args[0] + b + args[1] + c
  {
    var tail := Then(Lit(b), Then(Slot(2), Then(Lit(c), End)));
    assert Render(Then(Lit(c), End), args, context) == c;
    assert Value(Slot(2), args, context) == args[1];
    assert Render(tail, args, context) == b + args[1] + c;
    assert Value(Slot(1), args, context) == args[0];
  }

  const ContextExtra: map<string, Table> := map["varName" := Leaf("$data"), "supportsContext" := Flag(true)]

  /** language-functions.js at the top level: the loop reads from `$data` and names its item `$data_1`. */
  lemma ContextListOpenPieces()
    ensures Render(ContextPhpTokens.listOpen, ["items"], 0)
         == "<?php foreach ( $" + "data" + "[ '" + "items" + "' ] as $" + "data_1" + " ) { ?>"
  {
    assert SubContextVar(0) == "data_1" by {
      assert NatToString(1) == "1";
    }
  }

  lemma ContextListOpenFlat()
    ensures "<?php foreach ( $" + "data" + "[ '" + "items" + "' ] as $" + "data_1" + " ) { ?>"
         == "<?php foreach ( $data[ 'items' ] as $data_1 ) { ?>"
  {
  }

  lemma ContextListOpen()
    ensures ContextList(ContextLanguages, "php", "open", "items", 0)
         == Ok("<?php foreach ( $data[ 'items' ] as $data_1 ) { ?>")
  {
    var d := ContextPhpTokens;
    assert Holds(ContextLanguages, "php", LanguageTable(Some("php"), d, "formatObjectProperty", ContextExtra));
    ListFinds(ContextLanguages, "php", Some("php"), d, "formatObjectProperty", ContextExtra, "open");
    ContextPhpFormatsClean();
    ContextRenders(ContextLanguages, "php", "list", ["open"], d.listOpen, ["items"], 0);
    ContextListOpenPieces();
    ContextListOpenFlat();
  }

  /** A template the lookup finds with no context placeholder, clean literals and one slot renders around its subject. */
  lemma PositionalOneSlot(langs: Languages, language: string, kind: string, path: seq<string>,
                          a: string, b: string, subject: string)
    requires Lookup(langs, language, kind, path) == Ok(Print(OneSlot(a, b)))
    requires PercentFree(a) && PercentFree(b)
    ensures PositionalString(langs, language, kind, path, [subject]) == Ok(a + subject + b)
  {
    ShapesClean(a, b, "");
    ShapesSlots(a, b, "");
    PositionalRenders(langs, language, kind, path, OneSlot(a, b), [subject], 0);
    RenderOneSlot(a, b, [subject], 0);
  }

  lemma PhpTruthyTemplate()
    ensures PhpTokens("'").controlOpen(ControlRules.IfTruthy) == OneSlot("<?php if ( $data[ '", "' ] ) { ?>")
    ensures Print(OneSlot("<?php if ( $data[ '", "' ] ) { ?>")) != ""
  {
    assert "<?php if ( $data[ " + "'" == "<?php if ( $data[ '";
    assert "'" + " ] ) { ?>" == "' ] ) { ?>";
  }

  lemma PhpTruthyFound()
    ensures Lookup(BuiltinLanguages, "php", "control", ["ifTruthy", "open"]) == Ok(Print(OneSlot("<?php if ( $data[ '", "' ] ) { ?>")))
  {
    BuiltinLanguagesHold();
    PhpTruthyTemplate();
    ControlFinds(BuiltinLanguages, "php", Some("php"), PhpTokens("'"), "formatObjectProperty", map[], ControlRules.IfTruthy);
  }

  lemma FlatTruthy()
    ensures "<?php if ( $data[ '" + "flag" + "' ] ) { ?>" == "<?php if ( $data[ 'flag' ] ) { ?>"
  {
  }

  lemma TruthyAt(langs: Languages)
    requires Lookup(langs, "php", "control", ["ifTruthy", "open"]) == Ok(Print(OneSlot("<?php if ( $data[ '", "' ] ) { ?>")))
    ensures PositionalControl(langs, "php", ["ifTruthy", "open"], ["flag"]) == Ok("<?php if ( $data[ 'flag' ] ) { ?>")
  {
    PositionalOneSlot(langs, "php", "control", ["ifTruthy", "open"], "<?php if ( $data[ '", "' ] ) { ?>", "flag");
    FlatTruthy();
  }

  /** language.js: the PHP `ifTruthy` opening for one subject. */
  lemma PhpTruthyOpen()
    ensures PositionalControl(BuiltinLanguages, "php", ["ifTruthy", "open"], ["flag"])
         == Ok("<?php if ( $data[ 'flag' ] ) { ?>")
  {
    PhpTruthyFound();
    TruthyAt(BuiltinLanguages);
  }

  lemma HandlebarsEqualFound()
    ensures Lookup(BuiltinLanguages, "handlebars", "control", ["ifEqual", "open"]) == Ok(Print(TwoSlots("{{#if_equal ", " ", "}}")))
  {
    BuiltinLanguagesHold();
    ControlFinds(BuiltinLanguages, "handlebars", Some("handlebars"), HandlebarsTokens, "formatObjectProperty", map[],
      ControlRules.IfEqual);
  }

  /** The same for a template with two slots. */
  lemma PositionalTwoSlots(langs: Languages, language: string, kind: string, path: seq<string>,
                           a: string, b: string, c: string, x: string, y: string)
    requires Lookup(langs, language, kind, path) == Ok(Print(TwoSlots(a, b, c)))
    requires PercentFree(a) && PercentFree(b) && PercentFree(c)
    ensures PositionalString(langs, language, kind, path, [x, y]) == Ok(a + x + b + y + c)
  {
    ShapesClean(a, b, c);
    ShapesSlots(a, b, c);
    PositionalRenders(langs, language, kind, path, TwoSlots(a, b, c), [x, y], 0);
    RenderTwoSlots(a, b, c, [x, y], 0);
  }

  lemma FlatEqual()
    ensures "{{#if_equal " + "status" + " " + "'yes'" + "}}" == "{{#if_equal status 'yes'}}"
  {
  }

  lemma EqualAt(langs: Languages)
    requires Lookup(langs, "handlebars", "control", ["ifEqual", "open"]) == Ok(Print(TwoSlots("{{#if_equal ", " ", "}}")))
    ensures PositionalControl(langs, "handlebars", ["ifEqual", "open"], ["status", "'yes'"]) == Ok("{{#if_equal status 'yes'}}")
  {
    PositionalTwoSlots(langs, "handlebars", "control", ["ifEqual", "open"], "{{#if_equal ", " ", "}}", "status", "'yes'");
    FlatEqual();
  }

  /** language.js: the Handlebars `ifEqual` opening compares its two subjects. */
  lemma HandlebarsEqualOpen()
    ensures PositionalControl(BuiltinLanguages, "handlebars", ["ifEqual", "open"], ["status", "'yes'"])
         == Ok("{{#if_equal status 'yes'}}")
  {
    HandlebarsEqualFound();
    EqualAt(BuiltinLanguages);
  }

  lemma HandlebarsSectionFound()
    ensures Lookup(InlineLanguages, "handlebars", "list", ["open"]) == Ok(Print(OneSlot("{{#", "}}")))
    ensures Lookup(InlineLanguages, "handlebars", "list", ["close"]) == Ok(Print(OneSlot("{{/", "}}")))
  {
    var d := HandlebarsTokens;
    assert Holds(InlineLanguages, "handlebars", LanguageTable(None, d, "formatObject", map[]));
    ListFinds(InlineLanguages, "handlebars", None, d, "formatObject", map[], "open");
    ListFinds(InlineLanguages, "handlebars", None, d, "formatObject", map[], "close");
  }

  lemma FlatSection()
    ensures "{{#" + "items" + "}}" == "{{#items}}"
    ensures "{{/" + "items" + "}}" == "{{/items}}"
  {
  }

  /** A section template found for `action` wraps the list's name between its lead and `}}`. */
  lemma SectionAt(langs: Languages, action: string, lead: string)
    requires PercentFree(lead)
    requires Lookup(langs, "handlebars", "list", [action]) == Ok(Print(OneSlot(lead, "}}")))
    ensures PositionalList(langs, "handlebars", action, "items") == Ok(lead + "items" + "}}")
  {
    PositionalOneSlot(langs, "handlebars", "list", [action], lead, "}}", "items");
  }

  /** languages.js: a Handlebars section opens and closes on the list's name. */
  lemma HandlebarsSection()
    ensures PositionalList(InlineLanguages, "handlebars", "open", "items") == Ok("{{#items}}")
    ensures PositionalList(InlineLanguages, "handlebars", "close", "items") == Ok("{{/items}}")
  {
    HandlebarsSectionFound();
    SectionAt(InlineLanguages, "open", "{{#");
    SectionAt(InlineLanguages, "close", "{{/");
    FlatSection();
  }

  /**
   * The tables of languages.js keep the object-field format under
   * `formatObject`; a lookup by the registered tables' key finds no string.
   */
  lemma InlineObjectKeyDiffers(subject: string)
    ensures PositionalList(InlineLanguages, "php", "formatObjectProperty", subject).Err?
    ensures PositionalList(InlineLanguages, "handlebars", "formatObjectProperty", subject).Err?
  {
    assert Holds(InlineLanguages, "php", LanguageTable(None, PhpTokens("\""), "formatObject", map[]));
    assert Holds(InlineLanguages, "handlebars", LanguageTable(None, HandlebarsTokens, "formatObject", map[]));
    ListFinds(InlineLanguages, "php", None, PhpTokens("\""), "formatObject", map[], "formatObjectProperty");
    ListFinds(InlineLanguages, "handlebars", None, HandlebarsTokens, "formatObject", map[], "formatObjectProperty");
  }

  /** No built-in PHP table has an `else` branch: that control lookup throws. */
  lemma PhpHasNoElse(args: seq<string>, context: int)
    ensures ContextControl(BuiltinLanguages, "php", ["else", "open"], args, context).Err?
  {
    BuiltinLanguagesHold();
    ControlMisses(BuiltinLanguages, "php", Some("php"), PhpTokens("'"), "formatObjectProperty", map[], ["else", "open"]);
  }

  /** Nor has the Handlebars table. */
  lemma HandlebarsHasNoElse(args: seq<string>, context: int)
    ensures ContextControl(BuiltinLanguages, "handlebars", ["else", "close"], args, context).Err?
  {
    BuiltinLanguagesHold();
    ControlMisses(BuiltinLanguages, "handlebars", Some("handlebars"), HandlebarsTokens, "formatObjectProperty", map[],
      ["else", "close"]);
  }
}
