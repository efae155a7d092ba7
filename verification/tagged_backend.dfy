/**
 * The run-time back end of language/index.js. A template string holds tags
 * `[%name]`; each is replaced by a built-in value (`_context_`,
 * `_subcontext_`, `_variable_`), by the next argument, or by the expansion of
 * the template the language's `variables` table files under that name.
 * Arguments are consumed from one shared queue, in the order the tags are
 * met, nested expansions included.
 *
 * Expansion of a tag that refers to itself recurses until the JavaScript
 * stack overflows; the model bounds the recursion depth by `fuel` and
 * reports `StackOverflow` when it runs out.
 */
module TaggedBackend {
  import opened Js
  import opened Templates
  import opened Tables

  /** An argument as the controllers pass it: its kind (`value`, `variable`, ...) and its text. */
  datatype Arg = Arg(kind: string, value: string)

  /** The language's `variables` table. */
  type Tags = map<string, Table>

  /** The characters a regular expression's `.` does not match. */
  predicate LineTerminator(c: char)
  {
    c == '\n' || c == '\r' || c == '\U{2028}' || c == '\U{2029}'
  }

  /** `s[m]` is the `]` closing a tag whose name starts at `k`: nothing before it breaks a line or closes earlier. */
  predicate Closes(s: string, k: nat, m: nat)
  {
    k <= m < |s| && s[m] == ']' && forall n :: k <= n < m ==> s[n] != ']' && !LineTerminator(s[n])
  }

  /** The first `]` from `k` on, unless a line terminator comes first. */
  function CloseFrom(s: string, k: nat): (r: Option<nat>)
    ensures r.Some? ==> Closes(s, k, r.value)
    ensures r.None? ==> forall m :: !Closes(s, k, m)
    decreases |s| - k
  {
    if k >= |s| then None
    else if s[k] == ']' then Some(k)
    else if LineTerminator(s[k]) then None
    else
      var r := CloseFrom(s, k + 1);
      assert forall m :: Closes(s, k, m) ==> m == k || Closes(s, k + 1, m);
      r
  }

  /**
   * Where a match of `/\[\%(.+?)\]/` starting at the head of `s` ends: the
   * name takes at least one character, then as few as reach a `]`.
   */
  function TagEnd(s: string): (r: Option<nat>)
    ensures r.Some? ==> 3 <= r.value < |s| && s[0] == '[' && s[1] == '%' && s[r.value] == ']'
    ensures r.Some? ==> !LineTerminator(s[2]) && Closes(s, 3, r.value)
  {
    if |s| >= 3 && s[0] == '[' && s[1] == '%' && !LineTerminator(s[2]) then CloseFrom(s, 3) else None
  }

  /** `match.replace(/\[|\]|\%/g, '')`. */
  function Strip(s: string): (r: string)
    ensures forall i :: 0 <= i < |r| ==> r[i] != '[' && r[i] != ']' && r[i] != '%'
    ensures |r| <= |s|
  {
    if |s| == 0 then ""
    else if s[0] == '[' || s[0] == ']' || s[0] == '%' then Strip(s[1..])
    else [s[0]] + Strip(s[1..])
  }

  /** The two tags that may stand for an argument of kind `value`. */
  predicate IsVariableName(name: string)
  {
    name == "variable" || name == "subvariable"
  }

  /** `q` is what is left of the queue `args` after some shifts. */
  predicate IsSuffix(q: seq<Arg>, args: seq<Arg>)
  {
    |q| <= |args| && q == args[|args| - |q|..]
  }

  lemma SuffixTransitive(a: seq<Arg>, b: seq<Arg>, c: seq<Arg>)
    requires IsSuffix(a, b) && IsSuffix(b, c)
    ensures IsSuffix(a, c)
  {
    assert c[|c| - |b|..][|b| - |a|..] == c[|c| - |a|..];
  }

  /** Text put in front of a successful expansion; an error passes through. */
  function Prefix(t: string, r: Result<(string, seq<Arg>)>): (p: Result<(string, seq<Arg>)>)
    ensures p.Ok? <==> r.Ok?
    ensures p.Ok? ==> p.value.0 == t + r.value.0 && p.value.1 == r.value.1
  {
    if r.Ok? then Ok((t + r.value.0, r.value.1)) else r
  }

  /**
   * The replacement for one tag, and the queue after it. Shifting an empty
   * queue reads a property of `undefined`, which throws.
   */
  function Tag(name: string, args: seq<Arg>, context: int, tags: Tags, fuel: nat): (r: Result<(string, seq<Arg>)>)
    ensures r.Ok? ==> IsSuffix(r.value.1, args)
    decreases fuel, 0
  {
    if name == "_context_" then Ok((ContextVar(context), args))
    else if name == "_subcontext_" then Ok((SubContextVar(context), args))
    else if name == "_variable_" then
      if |args| == 0 then Err(TypeError("Cannot read properties of undefined (reading 'value')"))
      else Ok((args[0].value, args[1..]))
    else if name in tags && Truthy(tags[name]) then
      if IsVariableName(name) && |args| == 0 then Err(TypeError("Cannot read properties of undefined (reading 'type')"))
      else if IsVariableName(name) && args[0].kind == "value" then Ok((args[0].value, args[1..]))
      else
        match tags[name]
        case Leaf(t) => if fuel == 0 then Err(StackOverflow) else Scan(t, args, context, tags, fuel - 1)
        case _ => Err(TypeError("replace is not a function"))
    else Ok(("", args))
  }

  /** `createLanguageString`: every tag of `s`, leftmost first, replaced; other text kept. */
  function Scan(s: string, args: seq<Arg>, context: int, tags: Tags, fuel: nat): (r: Result<(string, seq<Arg>)>)
    ensures r.Ok? ==> IsSuffix(r.value.1, args)
    decreases fuel, |s|
  {
    if |s| == 0 then Ok(("", args))
    else
      match TagEnd(s)
      case None => Prefix([s[0]], Scan(s[1..], args, context, tags, fuel))
      case Some(j) =>
        var head := Tag(Strip(s[..j + 1]), args, context, tags, fuel);
        if head.Err? then Err(head.error)
        else
          var tail := Scan(s[j + 1..], head.value.1, context, tags, fuel);
          if tail.Err? then Err(tail.error)
          else
            SuffixTransitive(tail.value.1, head.value.1, args);
            Prefix(head.value.0, tail)
  }

  // ---------------------------------------------------------------------------
  // A reference reading: a template as literal text and tags

  /** A template split into literal text and tags. */
  datatype Tagged = Done | Text(text: string, rest: Tagged) | Ref(name: string, rest: Tagged)

  function Show(p: Tagged): string
  {
    match p
    case Done => ""
    case Text(t, rest) => t + Show(rest)
    case Ref(n, rest) => "[%" + n + "]" + Show(rest)
  }

  /** Expands the pieces one after another, threading the queue. */
  function ExpandPieces(p: Tagged, args: seq<Arg>, context: int, tags: Tags, fuel: nat): Result<(string, seq<Arg>)>
  {
    match p
    case Done => Ok(("", args))
    case Text(t, rest) => Prefix(t, ExpandPieces(rest, args, context, tags, fuel))
    case Ref(n, rest) =>
      var head := Tag(n, args, context, tags, fuel);
      if head.Err? then Err(head.error) else Prefix(head.value.0, ExpandPieces(rest, head.value.1, context, tags, fuel))
  }

  /** A name a tag can carry and still be read back as written. */
  predicate CleanName(n: string)
  {
    |n| > 0 && forall i :: 0 <= i < |n| ==> n[i] != '[' && n[i] != ']' && n[i] != '%' && !LineTerminator(n[i])
  }

  /** No `[` in `t` is followed by `%`, nor ends `t`: the text cannot open a tag. */
  predicate Inert(t: string)
  {
    forall i :: 0 <= i < |t| && t[i] == '[' ==> i + 1 < |t| && t[i + 1] != '%'
  }

  /** Literal text opens no tag; names are clean. */
  predicate WellSplit(p: Tagged)
  {
    match p
    case Done => true
    case Text(t, rest) => Inert(t) && WellSplit(rest)
    case Ref(n, rest) => CleanName(n) && WellSplit(rest)
  }

  lemma {:induction false} StripClean(n: string)
    requires forall i :: 0 <= i < |n| ==> n[i] != '[' && n[i] != ']' && n[i] != '%'
    ensures Strip(n) == n
  {
    if |n| > 0 {
      StripClean(n[1..]);
    }
  }

  lemma StripBrackets(n: string)
    requires CleanName(n)
    ensures Strip("[%" + n + "]") == n
  {
    var m := "[%" + n + "]";
    assert m[1..] == "%" + n + "]";
    assert m[1..][1..] == n + "]";
    StripAppend(n, "]");
    StripClean(n);
  }

  lemma {:induction false} StripAppend(a: string, b: string)
    ensures Strip(a + b) == Strip(a) + Strip(b)
  {
    if |a| == 0 {
      assert a + b == b;
    } else {
      assert (a + b)[1..] == a[1..] + b;
      StripAppend(a[1..], b);
    }
  }

  /** Inert text passes through unchanged, and the scan resumes after it. */
  lemma {:induction false} PlainPasses(t: string, rest: string, args: seq<Arg>, context: int, tags: Tags, fuel: nat)
    requires Inert(t)
    ensures Scan(t + rest, args, context, tags, fuel) == Prefix(t, Scan(rest, args, context, tags, fuel))
  {
    if |t| == 0 {
      assert t + rest == rest;
      var r := Scan(rest, args, context, tags, fuel);
      if r.Ok? {
        assert t + r.value.0 == r.value.0;
      }
    } else {
      var s := t + rest;
      assert s[0] == t[0];
      assert t[0] == '[' ==> s[1] == t[1] && t[1] != '%';
      assert TagEnd(s).None?;
      assert s[1..] == t[1..] + rest;
      assert Inert(t[1..]) by {
        forall i | 0 <= i < |t[1..]| && t[1..][i] == '['
          ensures i + 1 < |t[1..]| && t[1..][i + 1] != '%'
        {
          assert t[1..][i] == t[i + 1];
        }
      }
      PlainPasses(t[1..], rest, args, context, tags, fuel);
      PrefixTwice([t[0]], t[1..], Scan(rest, args, context, tags, fuel));
      assert [t[0]] + t[1..] == t;
    }
  }

  lemma PrefixTwice(a: string, b: string, r: Result<(string, seq<Arg>)>)
    ensures Prefix(a, Prefix(b, r)) == Prefix(a + b, r)
  {
    if r.Ok? {
      assert a + (b + r.value.0) == a + b + r.value.0;
    }
  }

  /** A clean tag at the head is replaced, and the scan resumes right after its `]`. */
  lemma TagAtHead(n: string, rest: string, args: seq<Arg>, context: int, tags: Tags, fuel: nat)
    requires CleanName(n)
    ensures var head := Tag(n, args, context, tags, fuel);
      Scan("[%" + n + "]" + rest, args, context, tags, fuel)
      == (if head.Err? then Err(head.error) else Prefix(head.value.0, Scan(rest, head.value.1, context, tags, fuel)))
  {
    var s := "[%" + n + "]" + rest;
    var j := |n| + 2;
    assert s[0] == '[' && s[1] == '%' && s[2] == n[0];
    assert Closes(s, 3, j) by {
      forall i | 3 <= i < j
        ensures s[i] != ']' && !LineTerminator(s[i])
      {
        assert s[i] == n[i - 2];
      }
    }
    assert TagEnd(s) == Some(j);
    assert s[..j + 1] == "[%" + n + "]";
    assert s[j + 1..] == rest;
    StripBrackets(n);
  }

  /** The scan of a well-split template expands its pieces in order. */
  lemma {:induction false} ScanShow(p: Tagged, args: seq<Arg>, context: int, tags: Tags, fuel: nat)
    requires WellSplit(p)
    ensures Scan(Show(p), args, context, tags, fuel) == ExpandPieces(p, args, context, tags, fuel)
  {
    match p
    case Done =>
    case Text(t, rest) =>
      PlainPasses(t, Show(rest), args, context, tags, fuel);
      ScanShow(rest, args, context, tags, fuel);
    case Ref(n, rest) =>
      assert Show(p) == "[%" + n + "]" + Show(rest);
      TagAtHead(n, Show(rest), args, context, tags, fuel);
      var head := Tag(n, args, context, tags, fuel);
      if head.Ok? {
        ScanShow(rest, head.value.1, context, tags, fuel);
      }
  }

  /** A string that opens no tag is returned as it is, with the queue untouched. */
  lemma NoTagsVerbatim(s: string, args: seq<Arg>, context: int, tags: Tags, fuel: nat)
    requires Inert(s)
    ensures Scan(s, args, context, tags, fuel) == Ok((s, args))
  {
    PlainPasses(s, "", args, context, tags, fuel);
    assert s + "" == s;
  }

  // ---------------------------------------------------------------------------
  // Fuel

  /** More recursion depth never changes a result that was reached. */
  lemma {:induction false} TagFuel(name: string, args: seq<Arg>, context: int, tags: Tags, f: nat, g: nat)
    requires f <= g && Tag(name, args, context, tags, f).Ok?
    ensures Tag(name, args, context, tags, g) == Tag(name, args, context, tags, f)
    decreases f, 0
  {
    if name in tags && Truthy(tags[name]) && tags[name].Leaf? && f > 0
       && !(IsVariableName(name) && |args| > 0 && args[0].kind == "value")
       && !(name in {"_context_", "_subcontext_", "_variable_"}) {
      ScanFuel(tags[name].text, args, context, tags, f - 1, g - 1);
    }
  }

  lemma {:induction false} ScanFuel(s: string, args: seq<Arg>, context: int, tags: Tags, f: nat, g: nat)
    requires f <= g && Scan(s, args, context, tags, f).Ok?
    ensures Scan(s, args, context, tags, g) == Scan(s, args, context, tags, f)
    decreases f, |s|
  {
    if |s| > 0 {
      match TagEnd(s)
      case None => ScanFuel(s[1..], args, context, tags, f, g);
      case Some(j) =>
        var n := Strip(s[..j + 1]);
        TagFuel(n, args, context, tags, f, g);
        var q := Tag(n, args, context, tags, f).value.1;
        ScanFuel(s[j + 1..], q, context, tags, f, g);
    }
  }

  /** A tag whose template is itself recurses without end: every depth bound is exhausted. */
  lemma {:induction false} SelfReferenceOverflows(name: string, args: seq<Arg>, context: int, tags: Tags, fuel: nat)
    requires CleanName(name) && !IsVariableName(name)
    requires name !in {"_context_", "_subcontext_", "_variable_"}
    requires name in tags && tags[name] == Leaf("[%" + name + "]")
    ensures Tag(name, args, context, tags, fuel) == Err(StackOverflow)
    decreases fuel
  {
    if fuel > 0 {
      TagAtHead(name, "", args, context, tags, fuel - 1);
      assert "[%" + name + "]" + "" == "[%" + name + "]";
      SelfReferenceOverflows(name, args, context, tags, fuel - 1);
    }
  }

  // ---------------------------------------------------------------------------
  // getLanguageString and its wrappers

  /** `templateVarsLanguage['variables']`; anything but a table leaves the default `{}`. */
  function TagsOf(root: Table): (r: Tags)
    ensures root.Entries? && "variables" in root.entries && root.entries["variables"].Entries? ==>
      r == root.entries["variables"].entries
  {
    if root.Entries? && "variables" in root.entries && root.entries["variables"].Entries?
    then root.entries["variables"].entries
    else map[]
  }

  /** The string at the end of the permissive walk from the language root, expanded. */
  function LanguageString(root: Table, path: seq<string>, args: seq<Arg>, context: int, fuel: nat): (r: Result<string>)
    ensures !Descend(root, path).Leaf? ==> r.Err?
    ensures Descend(root, path).Leaf? ==>
      (r.Ok? <==> Scan(Descend(root, path).text, args, context, TagsOf(root), fuel).Ok?)
    ensures r.Ok? ==> r.value == Scan(Descend(root, path).text, args, context, TagsOf(root), fuel).value.0
  {
    match Descend(root, path)
    case Leaf(s) =>
      var r := Scan(s, args, context, TagsOf(root), fuel);
      if r.Ok? then Ok(r.value.0) else Err(r.error)
    case _ => Err(TypeError("replace is not a function"))
  }

  function Replace(root: Table, target: string, arg: Arg, context: int, fuel: nat): Result<string>
  {
    LanguageString(root, ["replace", target], [arg], context, fuel)
  }

  function List(root: Table, target: string, arg: Arg, context: int, fuel: nat): Result<string>
  {
    LanguageString(root, ["list", target], [arg], context, fuel)
  }

  function Control(root: Table, targets: seq<string>, args: seq<Arg>, context: int, fuel: nat): Result<string>
  {
    LanguageString(root, ["control"] + targets, args, context, fuel)
  }

  /** `isArgString`: a quoted literal rather than an identifier. */
  predicate IsArgString(a: string)
  {
    |a| > 0 && a[0] == '\'' && a[|a| - 1] == '\''
  }

  /** Quoting makes an argument string; an identifier, or the empty string, is not one. */
  lemma ArgStringQuoted(x: string)
    ensures IsArgString("'" + x + "'")
    ensures (forall i :: 0 <= i < |x| ==> x[i] != '\'') ==> !IsArgString(x)
    ensures !IsArgString("")
  {
  }

  // ---------------------------------------------------------------------------
  // getVariableString

  /** What a caller puts where `getLanguageString` expects its path: an array of segments, or a bare string. */
  datatype PathValue = Segments(segments: seq<string>) | Word(text: string)

  /** `getLanguageString` on either kind of path: a string has no `forEach`, so that call throws. */
  function LanguageStringOf(root: Table, path: PathValue, args: seq<Arg>, context: int, fuel: nat): (r: Result<string>)
    ensures path.Word? ==> r.Err?
  {
    match path
    case Segments(p) => LanguageString(root, p, args, context, fuel)
    case Word(_) => Err(TypeError("targetPath.forEach is not a function"))
  }

  /** The placeholder `getVariableString` fills. */
  const VariablePlaceholder: string := "||%v||"

  /** `String.prototype.replace` with a string pattern: the first occurrence only, the replacement inserted as it is. */
  function ReplaceFirst(s: string, pat: string, rep: string): (r: string)
    ensures !(pat <= s) && |s| == 0 ==> r == s
    decreases |s|
  {
    if pat <= s then rep + s[|pat|..]
    else if |s| == 0 then s
    else [s[0]] + ReplaceFirst(s[1..], pat, rep)
  }

  /** An occurrence preceded by text that cannot start one is the one replaced. */
  lemma {:induction false} ReplaceFirstAfter(a: string, pat: string, b: string, rep: string)
    requires |pat| > 0 && forall i :: 0 <= i < |a| ==> a[i] != pat[0]
    ensures ReplaceFirst(a + pat + b, pat, rep) == a + rep + b
  {
    var s := a + pat + b;
    if |a| == 0 {
      assert s == pat + b;
      assert pat <= s;
      assert s[|pat|..] == b;
    } else {
      assert s[0] == a[0] != pat[0];
      assert !(pat <= s);
      assert s[1..] == a[1..] + pat + b;
      ReplaceFirstAfter(a[1..], pat, b, rep);
      assert [a[0]] + (a[1..] + rep + b) == a + rep + b;
    }
  }

  /**
   * `getVariableString` as written: it passes `'variable'` where the path
   * array belongs (and `[]` where the context belongs, never read).
   */
  function VariableStringAsWritten(root: Table, arg: string, context: int, fuel: nat): Result<string>
  {
    var s := LanguageStringOf(root, Word("variable"), [], context, fuel);
    if s.Ok? then Ok(ReplaceFirst(s.value, VariablePlaceholder, arg)) else s
  }

  /** Whatever the language and the argument, that call throws. */
  lemma VariableStringAlwaysThrows(root: Table, arg: string, context: int, fuel: nat)
    ensures VariableStringAsWritten(root, arg, context, fuel).Err?
  {
  }

  /** `getVariableString` with the path it evidently means: the root's `variable` string, its placeholder filled. */
  function VariableString(root: Table, arg: string, context: int, fuel: nat): Result<string>
  {
    var s := LanguageStringOf(root, Segments(["variable"]), [], context, fuel);
    if s.Ok? then Ok(ReplaceFirst(s.value, VariablePlaceholder, arg)) else s
  }

  /** The corrected helper puts the argument where the language's `variable` string has its placeholder. */
  lemma VariableStringFills(root: Table, a: string, b: string, arg: string, context: int, fuel: nat)
    requires root.Entries? && "variable" in root.entries
    requires root.entries["variable"] == Leaf(a + VariablePlaceholder + b)
    requires Inert(a + VariablePlaceholder + b) && '|' !in a
    ensures VariableString(root, arg, context, fuel) == Ok(a + arg + b)
  {
    var t := a + VariablePlaceholder + b;
    assert t != "" by { assert |t| >= |VariablePlaceholder|; }
    assert Descend(root, ["variable"]) == Leaf(t) by {
      assert Descend(root, ["variable"]) == Descend(Leaf(t), []);
    }
    NoTagsVerbatim(t, [], context, TagsOf(root), fuel);
    ReplaceFirstAfter(a, VariablePlaceholder, b, arg);
  }
}
