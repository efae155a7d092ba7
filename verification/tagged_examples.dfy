/**
 * Worked expansions for the tag back end: a `variables` table whose
 * `variable` template reads the next argument out of the context's data
 * array, and an `ifEqual` opening that uses it twice, once for a data key
 * and once for a literal value.
 */
module TaggedExamples {
  import opened Js
  import opened Templates
  import opened Tables
  import opened TaggedBackend

  /** `$[%_context_]['[%_variable_]']`. */
  const VariablePieces: Tagged := Text("$", Ref("_context_", Text("['", Ref("_variable_", Text("']", Done)))))

  const ExampleTags: Tags := map["variable" := Leaf(Show(VariablePieces))]

  /** `<?php if ( [%variable] === [%variable] ) { ?>`. */
  const EqualOpenPieces: Tagged :=
    Text("<?php if ( ", Ref("variable", Text(" === ", Ref("variable", Text(" ) { ?>", Done)))))

  const ExampleRoot: Table :=
    Entries(map[
      "control" := Entries(map["ifEqual" := Entries(map["open" := Leaf(Show(EqualOpenPieces))])]),
      "variables" := Entries(ExampleTags)])

  lemma VariablePiecesSplit()
    ensures WellSplit(VariablePieces)
  {
    assert Inert("['");
    assert CleanName("_context_") && CleanName("_variable_");
  }

  lemma EqualOpenSplit()
    ensures WellSplit(EqualOpenPieces)
  {
    assert CleanName("variable");
  }

  /** An argument that is not a plain value is looked up in the context's data array. */
  lemma VariableExpands(kind: string, name: string, rest: seq<Arg>, fuel: nat)
    requires kind != "value"
    ensures Tag("variable", [Arg(kind, name)] + rest, 0, ExampleTags, fuel + 1) == Ok(("$data['" + name + "']", rest))
  {
    var args := [Arg(kind, name)] + rest;
    var tail := Text("']", Done);
    var arg := Ref("_variable_", tail);
    var open := Text("['", arg);
    var ctx := Ref("_context_", open);
    assert VariablePieces == Text("$", ctx);
    assert "']" + "" == "']";
    assert ExpandPieces(tail, rest, 0, ExampleTags, fuel) == Ok(("']", rest));
    assert args[1..] == rest;
    assert Tag("_variable_", args, 0, ExampleTags, fuel) == Ok((name, rest));
    assert ExpandPieces(arg, args, 0, ExampleTags, fuel) == Ok((name + "']", rest));
    assert ExpandPieces(open, args, 0, ExampleTags, fuel) == Ok(("['" + (name + "']"), rest));
    assert Tag("_context_", args, 0, ExampleTags, fuel) == Ok(("data", args));
    assert ExpandPieces(ctx, args, 0, ExampleTags, fuel) == Ok(("data" + ("['" + (name + "']")), rest));
    assert ExpandPieces(VariablePieces, args, 0, ExampleTags, fuel) == Ok(("$" + ("data" + ("['" + (name + "']"))), rest));
    VariablePiecesSplit();
    ScanShow(VariablePieces, args, 0, ExampleTags, fuel);
    assert Show(VariablePieces) != "";
    assert "$" + ("data" + ("['" + (name + "']"))) == "$data['" + name + "']";
  }

  /** A value argument is written as it is. */
  lemma ValuePassesThrough(v: string, rest: seq<Arg>, fuel: nat)
    ensures Tag("variable", [Arg("value", v)] + rest, 0, ExampleTags, fuel) == Ok((v, rest))
  {
    assert ([Arg("value", v)] + rest)[1..] == rest;
  }

  lemma EqualOpenFound()
    ensures Descend(ExampleRoot, ["control", "ifEqual", "open"]) == Leaf(Show(EqualOpenPieces))
    ensures TagsOf(ExampleRoot) == ExampleTags
  {
    assert Show(EqualOpenPieces) != "";
    var c := ExampleRoot.entries["control"];
    var i := c.entries["ifEqual"];
    assert Descend(ExampleRoot, ["control", "ifEqual", "open"]) == Descend(c, ["ifEqual", "open"]);
    assert Descend(c, ["ifEqual", "open"]) == Descend(i, ["open"]);
  }

  lemma EqualOpenPiecesExpand()
    ensures ExpandPieces(EqualOpenPieces, [Arg("variable", "status"), Arg("value", "'yes'")], 0, ExampleTags, 1)
         == Ok(("<?php if ( " + ("$data['status']" + (" === " + ("'yes'" + (" ) { ?>" + "")))), []))
  {
    var args := [Arg("variable", "status"), Arg("value", "'yes'")];
    var last := [Arg("value", "'yes'")];
    var close := Text(" ) { ?>", Done);
    var second := Ref("variable", close);
    var middle := Text(" === ", second);
    var first := Ref("variable", middle);
    assert EqualOpenPieces == Text("<?php if ( ", first);
    assert ExpandPieces(close, [], 0, ExampleTags, 1) == Ok((" ) { ?>" + "", []));
    assert last == last + [];
    ValuePassesThrough("'yes'", [], 1);
    assert ExpandPieces(second, last, 0, ExampleTags, 1) == Ok(("'yes'" + (" ) { ?>" + ""), []));
    assert ExpandPieces(middle, last, 0, ExampleTags, 1) == Ok((" === " + ("'yes'" + (" ) { ?>" + "")), []));
    assert args == [Arg("variable", "status")] + last;
    VariableExpands("variable", "status", last, 0);
    assert "$data['" + "status" + "']" == "$data['status']";
    assert ExpandPieces(first, args, 0, ExampleTags, 1)
        == Ok(("$data['status']" + (" === " + ("'yes'" + (" ) { ?>" + ""))), []));
  }

  lemma EqualOpenFlat()
    ensures "<?php if ( " + ("$data['status']" + (" === " + ("'yes'" + (" ) { ?>" + ""))))
         == "<?php if ( $data['status'] === 'yes' ) { ?>"
  {
  }

  /** The `ifEqual` opening consumes its two arguments in order: a data key, then a literal. */
  lemma EqualOpenExpands()
    ensures Control(ExampleRoot, ["ifEqual", "open"], [Arg("variable", "status"), Arg("value", "'yes'")], 0, 1)
         == Ok("<?php if ( $data['status'] === 'yes' ) { ?>")
  {
    var args := [Arg("variable", "status"), Arg("value", "'yes'")];
    assert ["control"] + ["ifEqual", "open"] == ["control", "ifEqual", "open"];
    EqualOpenFound();
    EqualOpenSplit();
    ScanShow(EqualOpenPieces, args, 0, ExampleTags, 1);
    EqualOpenPiecesExpand();
    EqualOpenFlat();
  }

  /** Two levels down, the built-in tags name `data_2` and `data_3`. */
  lemma NestedContextTags(args: seq<Arg>, tags: Tags, fuel: nat)
    ensures Tag("_context_", args, 2, tags, fuel) == Ok(("data_2", args))
    ensures Tag("_subcontext_", args, 2, tags, fuel) == Ok(("data_3", args))
  {
    assert IntToString(2) == "2" by { assert NatToString(2) == "2"; }
    assert IntToString(3) == "3" by { assert NatToString(3) == "3"; }
    assert "data_" + "2" == "data_2";
    assert "data_" + "3" == "data_3";
  }

  /** A tag the table does not define expands to nothing and consumes no argument. */
  lemma UnknownTagVanishes(args: seq<Arg>, fuel: nat)
    ensures Tag("missing", args, 0, ExampleTags, fuel) == Ok(("", args))
  {
  }
}
