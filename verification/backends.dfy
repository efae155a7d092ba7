/**
 * The language registries and the string lookups of the four back ends that
 * work from a registry of named tables:
 *
 *  - language.js and languages.js substitute positional placeholders only;
 *  - language-functions.js and includes/language.js also fill `||%var||`
 *    and `||%subVar||` from a context number.
 *
 * Every lookup starts at `languages[language][type]` and descends the target
 * path permissively; it throws when the language or the group is missing,
 * and when the walk stops on a table rather than a string.
 */
module Backends {
  import opened Js
  import opened Templates
  import opened Tables
  import ControlRules

  /** The `languages` object: registered tables by name. */
  type Languages = map<string, Table>

  /** `language.name` as an object key: a missing name files the table under `undefined`. */
  function NameKey(lang: Table): string
  {
    if lang.Entries? && "name" in lang.entries then
      match lang.entries["name"]
      case Leaf(s) => s
      case Flag(b) => if b then "true" else "false"
      case Entries(_) => "[object Object]"
    else "undefined"
  }

  /** `registerLanguage`: files the table under its name, replacing any table of that name. */
  function Register(langs: Languages, lang: Table): (r: Languages)
    ensures r.Keys == langs.Keys + {NameKey(lang)}
    ensures r[NameKey(lang)] == lang
    ensures forall k :: k in langs && k != NameKey(lang) ==> r[k] == langs[k]
  {
    langs[NameKey(lang) := lang]
  }

  /** What language.js and includes/language.js register when they load. */
  const BuiltinLanguages: Languages := Register(Register(map[], PhpTable), HandlebarsTable)

  /** The fixed registry of languages.js. */
  const InlineLanguages: Languages := map["php" := InlinePhpTable, "handlebars" := InlineHandlebarsTable]

  /** The registry language-functions.js starts with. */
  const ContextLanguages: Languages := map["php" := ContextPhpTable]

  /** After loading, the registry holds exactly the PHP and Handlebars tables, under their own names. */
  lemma BuiltinLanguagesHold()
    ensures BuiltinLanguages.Keys == {"php", "handlebars"}
    ensures BuiltinLanguages["php"] == PhpTable && BuiltinLanguages["handlebars"] == HandlebarsTable
  {
    assert NameKey(PhpTable) == "php";
    assert NameKey(HandlebarsTable) == "handlebars";
  }

  /** `languages[language][type]`, when that is defined. */
  function Group(langs: Languages, language: string, kind: string): (r: Option<Table>)
    ensures r.Some? <==> language in langs && langs[language].Entries? && kind in langs[language].entries
  {
    if language in langs && langs[language].Entries? && kind in langs[language].entries
    then Some(langs[language].entries[kind])
    else None
  }

  /** The template a lookup finds, or the `TypeError` the source throws. */
  function Lookup(langs: Languages, language: string, kind: string, path: seq<string>): (r: Result<string>)
    ensures r.Ok? <==> Group(langs, language, kind).Some? && Descend(Group(langs, language, kind).value, path).Leaf?
    ensures r.Ok? ==> Descend(Group(langs, language, kind).value, path) == Leaf(r.value)
  {
    if language !in langs then Err(TypeError("Cannot read properties of undefined"))
    else
      match Group(langs, language, kind)
      case None => Err(TypeError("Cannot read properties of undefined"))
      case Some(start) =>
        match Descend(start, path)
        case Leaf(s) => Ok(s)
        case _ => Err(TypeError("replace is not a function"))
  }

  /** Where every segment is present, the lookup finds exactly the string the strict walk reaches. */
  lemma LookupFollows(langs: Languages, language: string, kind: string, path: seq<string>, s: string)
    requires Group(langs, language, kind).Some?
    requires Follow(Group(langs, language, kind).value, path) == Some(Leaf(s))
    ensures Lookup(langs, language, kind, path) == Ok(s)
  {
    DescendFollowsPresent(Group(langs, language, kind).value, path);
  }

  // ---------------------------------------------------------------------------
  // language.js and languages.js: positional placeholders only

  function PositionalString(langs: Languages, language: string, kind: string, path: seq<string>, args: seq<string>): (r: Result<string>)
    ensures r.Ok? <==> Lookup(langs, language, kind, path).Ok?
    ensures r.Ok? ==> r.value == SubstitutePositional(Lookup(langs, language, kind, path).value, args)
  {
    match Lookup(langs, language, kind, path)
    case Ok(s) => Ok(SubstitutePositional(s, args))
    case Err(e) => Err(e)
  }

  function PositionalReplace(langs: Languages, language: string, target: string, subject: string): Result<string>
  {
    PositionalString(langs, language, "replace", [target], [subject])
  }

  function PositionalList(langs: Languages, language: string, target: string, subject: string): Result<string>
  {
    PositionalString(langs, language, "list", [target], [subject])
  }

  function PositionalControl(langs: Languages, language: string, targets: seq<string>, subjects: seq<string>): Result<string>
  {
    PositionalString(langs, language, "control", targets, subjects)
  }

  // ---------------------------------------------------------------------------
  // language-functions.js and includes/language.js: positional, then context

  function ContextString(langs: Languages, language: string, kind: string, path: seq<string>, args: seq<string>, context: int): (r: Result<string>)
    ensures r.Ok? <==> Lookup(langs, language, kind, path).Ok?
    ensures r.Ok? ==> r.value == Substitute(Lookup(langs, language, kind, path).value, args, context)
  {
    match Lookup(langs, language, kind, path)
    case Ok(s) => Ok(Substitute(s, args, context))
    case Err(e) => Err(e)
  }

  function ContextReplace(langs: Languages, language: string, target: string, arg: string, context: int): Result<string>
  {
    ContextString(langs, language, "replace", [target], [arg], context)
  }

  function ContextList(langs: Languages, language: string, target: string, arg: string, context: int): Result<string>
  {
    ContextString(langs, language, "list", [target], [arg], context)
  }

  function ContextControl(langs: Languages, language: string, targets: seq<string>, args: seq<string>, context: int): Result<string>
  {
    ContextString(langs, language, "control", targets, args, context)
  }

  // ---------------------------------------------------------------------------
  // What the wrappers produce from a language table

  /** The list keys a language table holds, with the object-field format under `objectKey`. */
  function ListTemplate(d: Tokens, objectKey: string, target: string): Option<Template>
  {
    if target == "open" then Some(d.listOpen)
    else if target == "close" then Some(d.listClose)
    else if target == "formatPrimitive" then Some(d.primitiveFormat)
    else if target == objectKey then Some(d.objectFormat)
    else None
  }

  /** The keys of every language table's `control` group. */
  const IntentNames: set<string> := {"ifTruthy", "ifFalsy", "ifEqual", "ifNotEqual"}

  predicate Holds(langs: Languages, language: string, t: Table)
  {
    language in langs && langs[language] == t
  }

  /** The replace lookup finds the `format` template, unless that prints empty. */
  lemma ReplaceFinds(langs: Languages, language: string, name: Option<string>, d: Tokens, objectKey: string,
                     extra: map<string, Table>)
    requires Holds(langs, language, LanguageTable(name, d, objectKey, extra))
    ensures Print(d.format) != "" ==> Lookup(langs, language, "replace", ["format"]) == Ok(Print(d.format))
    ensures Print(d.format) == "" ==> Lookup(langs, language, "replace", ["format"]).Err?
  {
    var g := LanguageTable(name, d, objectKey, extra).entries["replace"];
    FollowOne(g, "format", []);
    if Print(d.format) != "" {
      LookupFollows(langs, language, "replace", ["format"], Print(d.format));
    } else {
      DescendSkipsMissing(g, "format", []);
    }
  }

  /** The list lookup finds exactly the four list templates that print to something; any other target fails. */
  lemma ListFinds(langs: Languages, language: string, name: Option<string>, d: Tokens, objectKey: string,
                  extra: map<string, Table>, target: string)
    requires Holds(langs, language, LanguageTable(name, d, objectKey, extra))
    requires objectKey !in {"open", "close", "formatPrimitive"}
    ensures ListTemplate(d, objectKey, target).Some? && Print(ListTemplate(d, objectKey, target).value) != "" ==>
      Lookup(langs, language, "list", [target]) == Ok(Print(ListTemplate(d, objectKey, target).value))
    ensures ListTemplate(d, objectKey, target).None? || Print(ListTemplate(d, objectKey, target).value) == "" ==>
      Lookup(langs, language, "list", [target]).Err?
  {
    var g := LanguageTable(name, d, objectKey, extra).entries["list"];
    FollowOne(g, target, []);
    if ListTemplate(d, objectKey, target).Some? && Print(ListTemplate(d, objectKey, target).value) != "" {
      LookupFollows(langs, language, "list", [target], Print(ListTemplate(d, objectKey, target).value));
    } else {
      assert g.entries.Keys == {"open", "close", objectKey, "formatPrimitive"};
      assert target in g.entries ==> g.entries[target] == Leaf(Print(ListTemplate(d, objectKey, target).value));
      DescendSkipsMissing(g, target, []);
      assert [target] + [] == [target];
      assert Group(langs, language, "list") == Some(g);
    }
  }

  /** The control lookup finds an intent's `open` and `close` templates. */
  lemma ControlFinds(langs: Languages, language: string, name: Option<string>, d: Tokens, objectKey: string,
                     extra: map<string, Table>, i: ControlRules.Intent)
    requires Holds(langs, language, LanguageTable(name, d, objectKey, extra))
    ensures Print(d.controlOpen(i)) != "" ==>
      Lookup(langs, language, "control", [ControlRules.IntentName(i), "open"]) == Ok(Print(d.controlOpen(i)))
    ensures Print(d.controlClose(i)) != "" ==>
      Lookup(langs, language, "control", [ControlRules.IntentName(i), "close"]) == Ok(Print(d.controlClose(i)))
  {
    var t := LanguageTable(name, d, objectKey, extra);
    ControlEntries(name, d, objectKey, extra, i);
    var k := ControlRules.IntentName(i);
    FollowOne(t, "control", [k, "open"]);
    FollowOne(t, "control", [k, "close"]);
    if Print(d.controlOpen(i)) != "" {
      LookupFollows(langs, language, "control", [k, "open"], Print(d.controlOpen(i)));
    }
    if Print(d.controlClose(i)) != "" {
      LookupFollows(langs, language, "control", [k, "close"], Print(d.controlClose(i)));
    }
  }

  /** A walk none of whose segments names a truthy entry stays where it started. */
  lemma {:induction false} DescendStays(t: Table, path: seq<string>)
    requires forall j :: 0 <= j < |path| ==> !(t.Entries? && path[j] in t.entries && Truthy(t.entries[path[j]]))
    ensures Descend(t, path) == t
    decreases |path|
  {
    if |path| > 0 {
      DescendStays(t, path[1..]);
    }
  }

  /** A control path that names no intent, such as `['else', 'open']`, finds no string. */
  lemma ControlMisses(langs: Languages, language: string, name: Option<string>, d: Tokens, objectKey: string,
                      extra: map<string, Table>, path: seq<string>)
    requires Holds(langs, language, LanguageTable(name, d, objectKey, extra))
    requires forall j :: 0 <= j < |path| ==> path[j] !in IntentNames
    ensures Lookup(langs, language, "control", path).Err?
  {
    var g := LanguageTable(name, d, objectKey, extra).entries["control"];
    assert g.entries.Keys == IntentNames;
    DescendStays(g, path);
  }

  /** Where the lookup finds a template, the context dialect renders it. */
  lemma ContextRenders(langs: Languages, language: string, kind: string, path: seq<string>, t: Template,
                       args: seq<string>, context: int)
    requires Lookup(langs, language, kind, path) == Ok(Print(t))
    requires LiteralsPercentFree(t) && ArgsPercentFree(args)
    ensures ContextString(langs, language, kind, path, args, context) == Ok(Render(t, args, context))
  {
    SubstituteRenders(t, args, context);
  }

  /** Where the lookup finds a template without context placeholders, the positional dialect renders it too. */
  lemma PositionalRenders(langs: Languages, language: string, kind: string, path: seq<string>, t: Template,
                          args: seq<string>, context: int)
    requires Lookup(langs, language, kind, path) == Ok(Print(t))
    requires LiteralsPercentFree(t) && ContextFree(t)
    ensures PositionalString(langs, language, kind, path, args) == Ok(Render(t, args, context))
  {
    SubstitutePositionalRenders(t, args);
    PositionalRendersContextFree(t, args, context);
  }
}
