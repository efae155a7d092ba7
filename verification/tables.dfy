/**
 * The language token tables and the permissive path lookup into them.
 *
 * A table is a nested object whose leaves are template strings: `replace`
 * holds `format`; `list` holds `open`, `close`, the object-field format and
 * `formatPrimitive`; `control` holds, per intent, an `open` and a `close`.
 * The tables below are written as printed templates, so that what a
 * placeholder in them becomes can be read off the pieces.
 */
module Tables {
  import opened Js
  import opened Templates
  import ControlRules

  datatype Table = Leaf(text: string) | Flag(on: bool) | Entries(entries: map<string, Table>)

  /** JavaScript truthiness of a table value. */
  predicate Truthy(t: Table)
  {
    match t
    case Leaf(s) => s != ""
    case Flag(b) => b
    case Entries(_) => true
  }

  /** `node[key]` is followed only when it is present and truthy; otherwise the walk stays where it is. */
  function StepInto(t: Table, key: string): (r: Table)
    ensures r == t || (t.Entries? && key in t.entries && r == t.entries[key])
    ensures t.Entries? && key in t.entries && Truthy(t.entries[key]) ==> r == t.entries[key]
    ensures !(t.Entries? && key in t.entries && Truthy(t.entries[key])) ==> r == t
  {
    if t.Entries? && key in t.entries && Truthy(t.entries[key]) then t.entries[key] else t
  }

  /** The `forEach` over the target path of every `getLanguageString`. */
  function Descend(t: Table, path: seq<string>): Table
    decreases |path|
  {
    if |path| == 0 then t else Descend(StepInto(t, path[0]), path[1..])
  }

  /** The strict lookup the permissive one is measured against: every segment must name a truthy entry. */
  function Follow(t: Table, path: seq<string>): Option<Table>
    decreases |path|
  {
    if |path| == 0 then Some(t)
    else if t.Entries? && path[0] in t.entries && Truthy(t.entries[path[0]]) then Follow(t.entries[path[0]], path[1..])
    else None
  }

  /** Where every segment is present the permissive walk ends where the strict one does. */
  lemma {:induction false} DescendFollowsPresent(t: Table, path: seq<string>)
    requires Follow(t, path).Some?
    ensures Descend(t, path) == Follow(t, path).value
    decreases |path|
  {
    if |path| > 0 {
      DescendFollowsPresent(t.entries[path[0]], path[1..]);
    }
  }

  /** A segment that is missing, or names a falsy entry, is skipped. */
  lemma DescendSkipsMissing(t: Table, key: string, path: seq<string>)
    requires !(t.Entries? && key in t.entries && Truthy(t.entries[key]))
    ensures Descend(t, [key] + path) == Descend(t, path)
  {
    assert ([key] + path)[1..] == path;
  }

  /** The segments a permissive walk actually takes. */
  function Taken(t: Table, path: seq<string>): (q: seq<string>)
    ensures |q| <= |path|
    decreases |path|
  {
    if |path| == 0 then []
    else if t.Entries? && path[0] in t.entries && Truthy(t.entries[path[0]]) then [path[0]] + Taken(t.entries[path[0]], path[1..])
    else Taken(t, path[1..])
  }

  /** The permissive walk is the strict walk along the segments it could take. */
  lemma {:induction false} DescendIsFollowOfTaken(t: Table, path: seq<string>)
    ensures Follow(t, Taken(t, path)) == Some(Descend(t, path))
    decreases |path|
  {
    if |path| > 0 {
      if t.Entries? && path[0] in t.entries && Truthy(t.entries[path[0]]) {
        var q := Taken(t, path);
        DescendIsFollowOfTaken(t.entries[path[0]], path[1..]);
        assert q[1..] == Taken(t.entries[path[0]], path[1..]);
      } else {
        DescendIsFollowOfTaken(t, path[1..]);
      }
    }
  }

  // ---------------------------------------------------------------------------
  // The built-in tables

  /** The templates a language supplies. */
  datatype Tokens = Tokens(
    format: Template,
    listOpen: Template,
    listClose: Template,
    objectFormat: Template,
    primitiveFormat: Template,
    controlOpen: ControlRules.Intent -> Template,
    controlClose: ControlRules.Intent -> Template)

  function Leaves(open: Template, close: Template): Table
  {
    Entries(map["open" := Leaf(Print(open)), "close" := Leaf(Print(close))])
  }

  /**
   * A language object: its `name` (when it has one), `replace`, `list` and
   * `control` groups, with the object-field format stored under `objectKey`,
   * plus any further top-level entries.
   */
  function LanguageTable(name: Option<string>, d: Tokens, objectKey: string, extra: map<string, Table>): Table
  {
    var control := map[
      "ifTruthy" := Leaves(d.controlOpen(ControlRules.IfTruthy), d.controlClose(ControlRules.IfTruthy)),
      "ifFalsy" := Leaves(d.controlOpen(ControlRules.IfFalsy), d.controlClose(ControlRules.IfFalsy)),
      "ifEqual" := Leaves(d.controlOpen(ControlRules.IfEqual), d.controlClose(ControlRules.IfEqual)),
      "ifNotEqual" := Leaves(d.controlOpen(ControlRules.IfNotEqual), d.controlClose(ControlRules.IfNotEqual))];
    var list := map[
      "open" := Leaf(Print(d.listOpen)),
      "close" := Leaf(Print(d.listClose)),
      objectKey := Leaf(Print(d.objectFormat)),
      "formatPrimitive" := Leaf(Print(d.primitiveFormat))];
    var groups := extra + map[
      "replace" := Entries(map["format" := Leaf(Print(d.format))]),
      "list" := Entries(list),
      "control" := Entries(control)];
    if name.Some? then Entries(groups["name" := Leaf(name.value)]) else Entries(groups)
  }

  /** A template with no placeholder. */
  function Plain(s: string): Template
  {
    Then(Lit(s), End)
  }

  /** `before ||%1|| after`. */
  function OneSlot(before: string, after: string): Template
  {
    Then(Lit(before), Then(Slot(1), Then(Lit(after), End)))
  }

  /** `before ||%1|| between ||%2|| after`. */
  function TwoSlots(before: string, between: string, after: string): Template
  {
    Then(Lit(before), Then(Slot(1), Then(Lit(between), Then(Slot(2), Then(Lit(after), End)))))
  }

  /** The opening every PHP output statement shares. */
  const PhpEcho: string := "<?php echo htmlspecialchars( "

  /** The PHP templates, with `quote` around the array key. */
  function PhpTokens(quote: string): Tokens
  {
    Tokens(
      OneSlot(PhpEcho + "$data[ " + quote, quote + " ], ENT_QUOTES ); ?>"),
      OneSlot("<?php foreach ( $data[ " + quote, quote + " ] as $item ) { ?>"),
      Plain("<?php } ?>"),
      OneSlot(PhpEcho + "$item[ " + quote, quote + " ], ENT_QUOTES ); ?>"),
      Plain(PhpEcho + "$item, ENT_QUOTES ); ?>"),
      (i: ControlRules.Intent) =>
        match i
        case IfTruthy => OneSlot("<?php if ( $data[ " + quote, quote + " ] ) { ?>")
        case IfFalsy => OneSlot("<?php if ( ! $data[ " + quote, quote + " ] ) { ?>")
        case IfEqual => TwoSlots("<?php if ( $data[ " + quote, quote + " ] === ", " ) { ?>")
        case IfNotEqual => TwoSlots("<?php if ( $data[ " + quote, quote + " ] !== ", " ) { ?>"),
      (i: ControlRules.Intent) => Plain("<?php } ?>"))
  }

  /** The Handlebars templates. */
  const HandlebarsTokens: Tokens :=
    Tokens(
      OneSlot("{{", "}}"),
      OneSlot("{{#", "}}"),
      OneSlot("{{/", "}}"),
      OneSlot("{{", "}}"),
      Plain("{{.}}"),
      (i: ControlRules.Intent) =>
        match i
        case IfTruthy => OneSlot("{{#if_truthy ", "}}")
        case IfFalsy => OneSlot("{{#if_falsy ", "}}")
        case IfEqual => TwoSlots("{{#if_equal ", " ", "}}")
        case IfNotEqual => TwoSlots("{{#if_not_equal ", " ", "}}"),
      (i: ControlRules.Intent) =>
        match i
        case IfTruthy => Plain("{{/if_truthy}}")
        case IfFalsy => Plain("{{/if_falsy}}")
        case IfEqual => Plain("{{/if_equal}}")
        case IfNotEqual => Plain("{{/if_not_equal}}"))

  /** languages/php.js. */
  const PhpTable: Table := LanguageTable(Some("php"), PhpTokens("'"), "formatObjectProperty", map[])

  /** languages/handlebars.js. */
  const HandlebarsTable: Table := LanguageTable(Some("handlebars"), HandlebarsTokens, "formatObjectProperty", map[])

  /** The two tables of languages.js: no `name`, double-quoted PHP keys, and the object field under `formatObject`. */
  const InlinePhpTable: Table := LanguageTable(None, PhpTokens("\""), "formatObject", map[])
  const InlineHandlebarsTable: Table := LanguageTable(None, HandlebarsTokens, "formatObject", map[])

  /** The PHP table of language-functions.js, whose data variables come from the context. */
  const ContextPhpTokens: Tokens :=
    Tokens(
      Then(Lit(PhpEcho + "$"), Then(VarTok, OneSlot("[ '", "' ], ENT_QUOTES ); ?>"))),
      Then(Lit("<?php foreach ( $"), Then(VarTok, Then(Lit("[ '"), Then(Slot(1),
        Then(Lit("' ] as $"), Then(SubVarTok, Then(Lit(" ) { ?>"), End))))))),
      Plain("<?php } ?>"),
      OneSlot(PhpEcho + "$item[ '", "' ], ENT_QUOTES ); ?>"),
      Plain(PhpEcho + "$item, ENT_QUOTES ); ?>"),
      (i: ControlRules.Intent) =>
        match i
        case IfTruthy => Then(Lit("<?php if ( $"), Then(VarTok, OneSlot("[ '", "' ] ) { ?>")))
        case IfFalsy => Then(Lit("<?php if ( ! $"), Then(VarTok, OneSlot("[ '", "' ] ) { ?>")))
        case IfEqual => Then(Lit("<?php if ( $"), Then(VarTok, TwoSlots("[ '", "' ] === ", " ) { ?>")))
        case IfNotEqual => Then(Lit("<?php if ( $"), Then(VarTok, TwoSlots("[ '", "' ] !== ", " ) { ?>"))),
      (i: ControlRules.Intent) => Plain("<?php } ?>"))

  const ContextPhpTable: Table :=
    LanguageTable(Some("php"), ContextPhpTokens, "formatObjectProperty",
      map["varName" := Leaf("$data"), "supportsContext" := Flag(true)])

  // ---------------------------------------------------------------------------
  // What the templates reference

  /** The positional placeholders a template references. */
  function Slots(t: Template): set<nat>
  {
    match t
    case End => {}
    case Then(x, rest) => (if x.Slot? then {x.n} else {}) + Slots(rest)
  }

  /** The template uses neither `||%var||` nor `||%subVar||`. */
  predicate ContextFree(t: Template)
  {
    match t
    case End => true
    case Then(x, rest) => !x.VarTok? && !x.SubVarTok? && ContextFree(rest)
  }

  /** Every template of a token set can be read back piece by piece. */
  predicate Clean(d: Tokens)
  {
    && LiteralsPercentFree(d.format) && LiteralsPercentFree(d.listOpen) && LiteralsPercentFree(d.listClose)
    && LiteralsPercentFree(d.objectFormat) && LiteralsPercentFree(d.primitiveFormat)
    && (forall i :: LiteralsPercentFree(d.controlOpen(i)))
    && (forall i :: LiteralsPercentFree(d.controlClose(i)))
  }

  /** A template with no placeholder of any kind renders as written, whatever the arguments and context. */
  lemma {:induction false} VerbatimRender(t: Template, args: seq<string>, context: int)
    requires Slots(t) == {} && ContextFree(t)
    ensures Render(t, args, context) == Print(t)
  {
    match t
    case End =>
    case Then(x, rest) =>
      assert Slots(rest) <= Slots(t);
      VerbatimRender(rest, args, context);
  }

  /** Without context placeholders, filling the slots alone already gives the rendering. */
  lemma {:induction false} PositionalRendersContextFree(t: Template, args: seq<string>, context: int)
    requires ContextFree(t)
    ensures Print(Steps(Positional(args), t)) == Render(t, args, context)
  {
    match t
    case End =>
    case Then(x, rest) => PositionalRendersContextFree(rest, args, context);
  }

  lemma ShapesClean(a: string, b: string, c: string)
    requires PercentFree(a) && PercentFree(b) && PercentFree(c)
    ensures LiteralsPercentFree(Plain(a))
    ensures LiteralsPercentFree(OneSlot(a, b))
    ensures LiteralsPercentFree(TwoSlots(a, b, c))
  {
    assert LiteralsPercentFree(Then(Lit(c), End));
    assert LiteralsPercentFree(Then(Lit(b), Then(Slot(2), Then(Lit(c), End))));
  }

  lemma ShapesSlots(a: string, b: string, c: string)
    ensures Slots(Plain(a)) == {} && ContextFree(Plain(a))
    ensures Slots(OneSlot(a, b)) == {1} && ContextFree(OneSlot(a, b))
    ensures Slots(TwoSlots(a, b, c)) == {1, 2} && ContextFree(TwoSlots(a, b, c))
  {
    var t1 := Then(Lit(b), End);
    assert Slots(t1) == {} && ContextFree(t1);
    assert Slots(Then(Slot(1), t1)) == {1} && ContextFree(Then(Slot(1), t1));
    var t2 := Then(Lit(c), End);
    assert Slots(t2) == {} && ContextFree(t2);
    var t3 := Then(Slot(2), t2);
    assert Slots(t3) == {2} && ContextFree(t3);
    var t4 := Then(Lit(b), t3);
    assert Slots(t4) == {2} && ContextFree(t4);
    assert Slots(Then(Slot(1), t4)) == {1, 2} && ContextFree(Then(Slot(1), t4));
  }

  lemma JoinPercentFree(a: string, b: string)
    requires PercentFree(a) && PercentFree(b)
    ensures PercentFree(a + b)
  {
    assert forall k :: 0 <= k < |a + b| ==> (a + b)[k] == (if k < |a| then a[k] else b[k - |a|]);
  }

  /** A quoted one- or two-slot template stays `%`-free. */
  lemma QuotedClean(a: string, q: string, b: string, c: string)
    requires PercentFree(a) && PercentFree(q) && PercentFree(b) && PercentFree(c)
    ensures LiteralsPercentFree(OneSlot(a + q, q + b))
    ensures LiteralsPercentFree(TwoSlots(a + q, q + b, c))
  {
    JoinPercentFree(a, q);
    JoinPercentFree(q, b);
    ShapesClean(a + q, q + b, c);
  }

  lemma PhpControlClean(quote: string)
    requires PercentFree(quote)
    ensures forall i :: LiteralsPercentFree(PhpTokens(quote).controlOpen(i))
    ensures forall i :: LiteralsPercentFree(PhpTokens(quote).controlClose(i))
  {
    QuotedClean("<?php if ( $data[ ", quote, " ] ) { ?>", "");
    QuotedClean("<?php if ( ! $data[ ", quote, " ] ) { ?>", "");
    QuotedClean("<?php if ( $data[ ", quote, " ] === ", " ) { ?>");
    QuotedClean("<?php if ( $data[ ", quote, " ] !== ", " ) { ?>");
    ShapesClean("<?php } ?>", "", "");
  }

  lemma PhpFormatClean(quote: string)
    requires PercentFree(quote)
    ensures LiteralsPercentFree(PhpTokens(quote).format)
  {
    JoinPercentFree(PhpEcho, "$data[ ");
    QuotedClean(PhpEcho + "$data[ ", quote, " ], ENT_QUOTES ); ?>", "");
  }

  lemma PhpObjectFormatClean(quote: string)
    requires PercentFree(quote)
    ensures LiteralsPercentFree(PhpTokens(quote).objectFormat)
  {
    JoinPercentFree(PhpEcho, "$item[ ");
    QuotedClean(PhpEcho + "$item[ ", quote, " ], ENT_QUOTES ); ?>", "");
  }

  lemma PhpPrimitiveClean()
    ensures LiteralsPercentFree(Plain(PhpEcho + "$item, ENT_QUOTES ); ?>"))
  {
    JoinPercentFree(PhpEcho, "$item, ENT_QUOTES ); ?>");
  }

  lemma PhpFormatsClean(quote: string)
    requires PercentFree(quote)
    ensures var d := PhpTokens(quote);
      && LiteralsPercentFree(d.format) && LiteralsPercentFree(d.listOpen) && LiteralsPercentFree(d.listClose)
      && LiteralsPercentFree(d.objectFormat) && LiteralsPercentFree(d.primitiveFormat)
  {
    PhpFormatClean(quote);
    PhpObjectFormatClean(quote);
    PhpPrimitiveClean();
    QuotedClean("<?php foreach ( $data[ ", quote, " ] as $item ) { ?>", "");
    ShapesClean("<?php } ?>", "", "");
  }

  lemma PhpTokensClean(quote: string)
    requires PercentFree(quote)
    ensures Clean(PhpTokens(quote))
  {
    PhpFormatsClean(quote);
    PhpControlClean(quote);
  }

  lemma HandlebarsTokensClean()
    ensures Clean(HandlebarsTokens)
  {
    ShapesClean("{{", "}}", "");
    ShapesClean("{{#", "}}", "");
    ShapesClean("{{/", "}}", "");
    ShapesClean("{{.}}", "", "");
    ShapesClean("{{#if_truthy ", "}}", "");
    ShapesClean("{{#if_falsy ", "}}", "");
    ShapesClean("{{#if_equal ", " ", "}}");
    ShapesClean("{{#if_not_equal ", " ", "}}");
    ShapesClean("{{/if_truthy}}", "", "");
    ShapesClean("{{/if_falsy}}", "", "");
    ShapesClean("{{/if_equal}}", "", "");
    ShapesClean("{{/if_not_equal}}", "", "");
  }

  lemma ContextPhpControlClean()
    ensures forall i :: LiteralsPercentFree(ContextPhpTokens.controlOpen(i))
    ensures forall i :: LiteralsPercentFree(ContextPhpTokens.controlClose(i))
  {
    ShapesClean("[ '", "' ] ) { ?>", "");
    ShapesClean("[ '", "' ] === ", " ) { ?>");
    ShapesClean("[ '", "' ] !== ", " ) { ?>");
    ShapesClean("<?php } ?>", "", "");
  }

  lemma ContextPhpFormatsClean()
    ensures var d := ContextPhpTokens;
      && LiteralsPercentFree(d.format) && LiteralsPercentFree(d.listOpen) && LiteralsPercentFree(d.listClose)
      && LiteralsPercentFree(d.objectFormat) && LiteralsPercentFree(d.primitiveFormat)
  {
    ContextPhpListClean();
    PhpObjectFormatClean("'");
    PhpPrimitiveClean();
  }

  lemma ContextPhpListClean()
    ensures var d := ContextPhpTokens;
      LiteralsPercentFree(d.format) && LiteralsPercentFree(d.listOpen) && LiteralsPercentFree(d.listClose)
  {
    ShapesClean("[ '", "' ], ENT_QUOTES ); ?>", "");
    ShapesClean("<?php } ?>", "", "");
    JoinPercentFree(PhpEcho, "$");
  }

  lemma ContextPhpTokensClean()
    ensures Clean(ContextPhpTokens)
  {
    ContextPhpFormatsClean();
    ContextPhpControlClean();
  }

  /**
   * What the PHP and Handlebars tables of languages/php.js and
   * languages/handlebars.js reference: `||%1||` in the replace format, the
   * list open and the object field; `||%1||` and `||%2||` in the equality
   * opens; nothing in `formatPrimitive` or in any PHP close.
   */
  lemma PhpPlaceholders(quote: string)
    ensures var d := PhpTokens(quote);
      && Slots(d.format) == {1} && Slots(d.listOpen) == {1} && Slots(d.objectFormat) == {1}
      && Slots(d.primitiveFormat) == {} && Slots(d.listClose) == {}
      && Slots(d.controlOpen(ControlRules.IfTruthy)) == {1} && Slots(d.controlOpen(ControlRules.IfFalsy)) == {1}
      && Slots(d.controlOpen(ControlRules.IfEqual)) == {1, 2} && Slots(d.controlOpen(ControlRules.IfNotEqual)) == {1, 2}
      && (forall i :: Slots(d.controlClose(i)) == {} && ContextFree(d.controlClose(i)))
  {
    var q := quote;
    ShapesSlots(PhpEcho + "$data[ " + q, q + " ], ENT_QUOTES ); ?>", "");
    ShapesSlots("<?php foreach ( $data[ " + q, q + " ] as $item ) { ?>", "");
    ShapesSlots(PhpEcho + "$item[ " + q, q + " ], ENT_QUOTES ); ?>", "");
    ShapesSlots(PhpEcho + "$item, ENT_QUOTES ); ?>", "", "");
    ShapesSlots("<?php } ?>", "", "");
    ShapesSlots("<?php if ( $data[ " + q, q + " ] ) { ?>", "");
    ShapesSlots("<?php if ( ! $data[ " + q, q + " ] ) { ?>", "");
    ShapesSlots("<?php if ( $data[ " + q, q + " ] === ", " ) { ?>");
    ShapesSlots("<?php if ( $data[ " + q, q + " ] !== ", " ) { ?>");
  }

  lemma HandlebarsPlaceholders()
    ensures var d := HandlebarsTokens;
      && Slots(d.format) == {1} && Slots(d.listOpen) == {1} && Slots(d.listClose) == {1}
      && Slots(d.primitiveFormat) == {}
      && Slots(d.controlOpen(ControlRules.IfTruthy)) == {1} && Slots(d.controlOpen(ControlRules.IfFalsy)) == {1}
      && Slots(d.controlOpen(ControlRules.IfEqual)) == {1, 2} && Slots(d.controlOpen(ControlRules.IfNotEqual)) == {1, 2}
      && (forall i :: Slots(d.controlClose(i)) == {} && ContextFree(d.controlClose(i)))
  {
    ShapesSlots("{{", "}}", "");
    ShapesSlots("{{#", "}}", "");
    ShapesSlots("{{/", "}}", "");
    ShapesSlots("{{.}}", "", "");
    ShapesSlots("{{#if_truthy ", "}}", "");
    ShapesSlots("{{#if_falsy ", "}}", "");
    ShapesSlots("{{#if_equal ", " ", "}}");
    ShapesSlots("{{#if_not_equal ", " ", "}}");
    ShapesSlots("{{/if_truthy}}", "", "");
    ShapesSlots("{{/if_falsy}}", "", "");
    ShapesSlots("{{/if_equal}}", "", "");
    ShapesSlots("{{/if_not_equal}}", "", "");
  }

  /** Every language table defines `open` and `close` templates for all four intents. */
  lemma ControlEntries(name: Option<string>, d: Tokens, objectKey: string, extra: map<string, Table>, i: ControlRules.Intent)
    ensures Follow(LanguageTable(name, d, objectKey, extra), ["control", ControlRules.IntentName(i), "open"])
         == (if Print(d.controlOpen(i)) != "" then Some(Leaf(Print(d.controlOpen(i)))) else None)
    ensures Follow(LanguageTable(name, d, objectKey, extra), ["control", ControlRules.IntentName(i), "close"])
         == (if Print(d.controlClose(i)) != "" then Some(Leaf(Print(d.controlClose(i)))) else None)
  {
    ControlEntry(name, d, objectKey, extra, i, "open");
    ControlEntry(name, d, objectKey, extra, i, "close");
  }

  lemma ControlEntry(name: Option<string>, d: Tokens, objectKey: string, extra: map<string, Table>,
                     i: ControlRules.Intent, end: string)
    requires end == "open" || end == "close"
    ensures var tpl := if end == "open" then d.controlOpen(i) else d.controlClose(i);
      Follow(LanguageTable(name, d, objectKey, extra), ["control", ControlRules.IntentName(i), end])
      == (if Print(tpl) != "" then Some(Leaf(Print(tpl))) else None)
  {
    var t := LanguageTable(name, d, objectKey, extra);
    var k := ControlRules.IntentName(i);
    var c := t.entries["control"];
    var oc := Leaves(d.controlOpen(i), d.controlClose(i));
    assert c.entries[k] == oc;
    FollowOne(t, "control", [k, end]);
    FollowOne(c, k, [end]);
    FollowOne(oc, end, []);
  }

  lemma FollowOne(t: Table, key: string, path: seq<string>)
    ensures Follow(t, [key] + path)
         == (if t.Entries? && key in t.entries && Truthy(t.entries[key]) then Follow(t.entries[key], path) else None)
  {
    assert ([key] + path)[1..] == path;
  }
}
