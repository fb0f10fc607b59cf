/** The command-line parser `commands_parse` of valete.c (lines 160-207):
    a left-to-right pass over the argument vector that skips `-h`, takes the
    argument after `-o` as the output path, collects `.vlt` paths and stops
    with failure at anything else. Help and error messages are not modelled. */
module CommandLine {
  import opened Paths
  import opened StringLists

  /** The `Commands` record, with the input paths as a sequence. */
  datatype Commands = Commands(success: bool, output: string, inputs: seq<string>)

  /** The record `commands_parse` starts from. */
  const Initial: Commands := Commands(false, "out", [])

  /** The loop of `commands_parse` from argument `i` on, with `c` the record
      built so far. On failure the partly filled record is returned as is.
      Each argument appends at most one input. */
  function ParseFrom(argv: seq<string>, i: nat, c: Commands): (r: Commands)
    ensures |c.inputs| <= |r.inputs|
    ensures i <= |argv| ==> |r.inputs| - |c.inputs| <= |argv| - i
    decreases |argv| - i
  {
    if i >= |argv| then c.(success := true)
    else if argv[i] == "-h" then ParseFrom(argv, i + 1, c)
    else if argv[i] == "-o" then
      if i + 1 == |argv| then c
      else ParseFrom(argv, i + 2, c.(output := argv[i + 1]))
    else if IsSourcePath(argv[i]) then ParseFrom(argv, i + 1, c.(inputs := c.inputs + [argv[i]]))
    else c
  }

  /** `commands_parse`; `argv[0]` is the program name. A vector holding only
      the program name fails at once. An empty vector (argc == 0) never enters
      the loop and so succeeds, with no inputs. Every input is a `.vlt`
      argument and the output is "out" or an argument. */
  function Parse(argv: seq<string>): (r: Commands)
    ensures |argv| == 1 ==> !r.success
    ensures |argv| == 0 ==> r == Initial.(success := true)
    ensures forall k :: 0 <= k < |r.inputs| ==> IsSourcePath(r.inputs[k]) && r.inputs[k] in argv
    ensures r.output == "out" || r.output in argv
  {
    if |argv| == 1 then Initial
    else
      CollectsSources(argv, 1, Initial);
      ParseFrom(argv, 1, Initial)
  }

  /** The loop only appends to the inputs, and what it appends is a `.vlt`
      argument; the output path is kept or replaced by an argument. */
  lemma {:induction false} CollectsSources(argv: seq<string>, i: nat, c: Commands)
    ensures ParseFrom(argv, i, c).inputs[..|c.inputs|] == c.inputs
    ensures ParseFrom(argv, i, c).output == c.output || ParseFrom(argv, i, c).output in argv
    ensures forall k :: |c.inputs| <= k < |ParseFrom(argv, i, c).inputs| ==>
      IsSourcePath(ParseFrom(argv, i, c).inputs[k]) && ParseFrom(argv, i, c).inputs[k] in argv
    decreases |argv| - i
  {
    if i < |argv| {
      if argv[i] == "-h" {
        CollectsSources(argv, i + 1, c);
      } else if argv[i] == "-o" {
        if i + 1 < |argv| {
          CollectsSources(argv, i + 2, c.(output := argv[i + 1]));
        }
      } else if IsSourcePath(argv[i]) {
        var c' := c.(inputs := c.inputs + [argv[i]]);
        CollectsSources(argv, i + 1, c');
        var r := ParseFrom(argv, i + 1, c');
        assert r.inputs[|c.inputs|] == c'.inputs[|c.inputs|] == argv[i];
      }
    }
  }

  /** One well-formed command-line item. */
  datatype Flag = Help | Output(path: string) | Source(path: string)

  /** The arguments one item is written as. */
  function Words(f: Flag): seq<string>
  {
    match f
    case Help => ["-h"]
    case Output(p) => ["-o", p]
    case Source(p) => [p]
  }

  /** The arguments a run of items is written as. */
  function Render(flags: seq<Flag>): seq<string>
  {
    if flags == [] then [] else Words(flags[0]) + Render(flags[1..])
  }

  /** Every `Source` item names a `.vlt` file. */
  predicate Proper(flags: seq<Flag>)
  {
    forall k :: 0 <= k < |flags| && flags[k].Source? ==> IsSourcePath(flags[k].path)
  }

  /** The `Source` paths, in order. */
  function SourcesOf(flags: seq<Flag>): seq<string>
  {
    if flags == [] then []
    else (if flags[0].Source? then [flags[0].path] else []) + SourcesOf(flags[1..])
  }

  /** The path of the last `Output` item, or `default` when there is none. */
  function LastOutput(flags: seq<Flag>, default: string): string
  {
    if flags == [] then default
    else LastOutput(flags[1..], if flags[0].Output? then flags[0].path else default)
  }

  /** The items after the first of a proper run are proper. */
  lemma ProperTail(flags: seq<Flag>)
    requires flags != [] && Proper(flags)
    ensures Proper(flags[1..])
  {
    forall k | 0 <= k < |flags[1..]| && flags[1..][k].Source?
      ensures IsSourcePath(flags[1..][k].path)
    {
      assert flags[1..][k] == flags[k + 1];
    }
  }

  /** The arguments after the first item of a run are the rest of the run. */
  lemma RenderedTail(argv: seq<string>, i: nat, flags: seq<Flag>)
    requires i <= |argv| && flags != [] && argv[i..] == Render(flags)
    ensures i + |Words(flags[0])| <= |argv|
    ensures argv[i..i + |Words(flags[0])|] == Words(flags[0])
    ensures argv[i + |Words(flags[0])|..] == Render(flags[1..])
  {
  }

  /** Parsing the arguments of well-formed items succeeds, collects the
      source paths in order and keeps the last output path. */
  lemma {:induction false} ParseFromRendered(argv: seq<string>, i: nat, c: Commands, flags: seq<Flag>)
    requires i <= |argv| && argv[i..] == Render(flags) && Proper(flags)
    ensures ParseFrom(argv, i, c) == Commands(true, LastOutput(flags, c.output), c.inputs + SourcesOf(flags))
    decreases flags, 1
  {
    if flags == [] {
      assert c.inputs + [] == c.inputs;
    } else {
      RenderedTail(argv, i, flags);
      ProperTail(flags);
      match flags[0]
      case Help => ParseFromRenderedHelp(argv, i, c, flags);
      case Output(p) => ParseFromRenderedOutput(argv, i, c, flags);
      case Source(p) => ParseFromRenderedSource(argv, i, c, flags);
    }
  }

  /** `ParseFromRendered` for a run starting with `-h`. */
  lemma {:induction false} ParseFromRenderedHelp(argv: seq<string>, i: nat, c: Commands, flags: seq<Flag>)
    requires flags != [] && flags[0].Help?
    requires i + 1 <= |argv| && argv[i] == "-h" && argv[i + 1..] == Render(flags[1..]) && Proper(flags[1..])
    ensures ParseFrom(argv, i, c) == Commands(true, LastOutput(flags, c.output), c.inputs + SourcesOf(flags))
    decreases flags, 0
  {
    assert ParseFrom(argv, i, c) == ParseFrom(argv, i + 1, c);
    assert SourcesOf(flags) == SourcesOf(flags[1..]);
    ParseFromRendered(argv, i + 1, c, flags[1..]);
  }

  /** `ParseFromRendered` for a run starting with `-o PATH`. */
  lemma {:induction false} ParseFromRenderedOutput(argv: seq<string>, i: nat, c: Commands, flags: seq<Flag>)
    requires flags != [] && flags[0].Output?
    requires i + 2 <= |argv| && argv[i] == "-o" && argv[i + 1] == flags[0].path
    requires argv[i + 2..] == Render(flags[1..]) && Proper(flags[1..])
    ensures ParseFrom(argv, i, c) == Commands(true, LastOutput(flags, c.output), c.inputs + SourcesOf(flags))
    decreases flags, 0
  {
    var c' := c.(output := flags[0].path);
    assert ParseFrom(argv, i, c) == ParseFrom(argv, i + 2, c');
    assert LastOutput(flags, c.output) == LastOutput(flags[1..], c'.output);
    assert SourcesOf(flags) == SourcesOf(flags[1..]);
    ParseFromRendered(argv, i + 2, c', flags[1..]);
  }

  /** `ParseFromRendered` for a run starting with a `.vlt` path. */
  lemma {:induction false} ParseFromRenderedSource(argv: seq<string>, i: nat, c: Commands, flags: seq<Flag>)
    requires flags != [] && flags[0].Source? && IsSourcePath(flags[0].path)
    requires i + 1 <= |argv| && argv[i] == flags[0].path
    requires argv[i + 1..] == Render(flags[1..]) && Proper(flags[1..])
    ensures ParseFrom(argv, i, c) == Commands(true, LastOutput(flags, c.output), c.inputs + SourcesOf(flags))
    decreases flags, 0
  {
    var p := flags[0].path;
    var c' := c.(inputs := c.inputs + [p]);
    assert |p| >= 4;
    assert p != "-h" && p != "-o";
    assert ParseFrom(argv, i, c) == ParseFrom(argv, i + 1, c');
    assert SourcesOf(flags) == [p] + SourcesOf(flags[1..]);
    assert LastOutput(flags, c.output) == LastOutput(flags[1..], c.output);
    ParseFromRendered(argv, i + 1, c', flags[1..]);
    assert c.inputs + [p] + SourcesOf(flags[1..]) == c.inputs + SourcesOf(flags);
  }

  /** One well-formed item written in front of a run of items gives a
      longer run. */
  lemma Prepended(argv: seq<string>, i: nat, item: Flag, flags: seq<Flag>)
    requires i + |Words(item)| <= |argv| && argv[i..i + |Words(item)|] == Words(item)
    requires argv[i + |Words(item)|..] == Render(flags) && Proper(flags)
    requires item.Source? ==> IsSourcePath(item.path)
    ensures argv[i..] == Render([item] + flags) && Proper([item] + flags)
  {
    var n := |Words(item)|;
    var all := [item] + flags;
    assert all[0] == item && all[1..] == flags;
    assert argv[i..] == argv[i..i + n] + argv[i + n..];
    forall k | 0 <= k < |all| && all[k].Source? ensures IsSourcePath(all[k].path) {
      if k > 0 { assert all[k] == flags[k - 1]; }
    }
  }

  /** A successful parse from argument `i` on read well-formed items, and
      these items are the whole rest of the vector. */
  lemma {:induction false} ParsedItems(argv: seq<string>, i: nat, c: Commands) returns (flags: seq<Flag>)
    requires i <= |argv| && ParseFrom(argv, i, c).success && !c.success
    ensures argv[i..] == Render(flags) && Proper(flags)
    decreases |argv| - i, 1
  {
    if i == |argv| {
      flags := [];
    } else if argv[i] == "-h" {
      flags := ParsedHelp(argv, i, c);
    } else if argv[i] == "-o" {
      flags := ParsedOutput(argv, i, c);
    } else {
      flags := ParsedSource(argv, i, c);
    }
  }

  /** `ParsedItems` for a rest starting with `-h`. */
  lemma {:induction false} ParsedHelp(argv: seq<string>, i: nat, c: Commands) returns (flags: seq<Flag>)
    requires i < |argv| && argv[i] == "-h" && ParseFrom(argv, i, c).success && !c.success
    ensures argv[i..] == Render(flags) && Proper(flags)
    decreases |argv| - i, 0
  {
    assert ParseFrom(argv, i, c) == ParseFrom(argv, i + 1, c);
    var rest := ParsedItems(argv, i + 1, c);
    Prepended(argv, i, Help, rest);
    flags := [Help] + rest;
  }

  /** `ParsedItems` for a rest starting with `-o`. */
  lemma {:induction false} ParsedOutput(argv: seq<string>, i: nat, c: Commands) returns (flags: seq<Flag>)
    requires i < |argv| && argv[i] == "-o" && ParseFrom(argv, i, c).success && !c.success
    ensures argv[i..] == Render(flags) && Proper(flags)
    decreases |argv| - i, 0
  {
    assert i + 1 < |argv|;
    var c' := c.(output := argv[i + 1]);
    assert ParseFrom(argv, i, c) == ParseFrom(argv, i + 2, c');
    var rest := ParsedItems(argv, i + 2, c');
    Prepended(argv, i, Output(argv[i + 1]), rest);
    flags := [Output(argv[i + 1])] + rest;
  }

  /** `ParsedItems` for a rest starting with anything else, which must then
      be a `.vlt` path. */
  lemma {:induction false} ParsedSource(argv: seq<string>, i: nat, c: Commands) returns (flags: seq<Flag>)
    requires i < |argv| && argv[i] != "-h" && argv[i] != "-o"
    requires ParseFrom(argv, i, c).success && !c.success
    ensures argv[i..] == Render(flags) && Proper(flags)
    decreases |argv| - i, 0
  {
    assert IsSourcePath(argv[i]);
    var c' := c.(inputs := c.inputs + [argv[i]]);
    assert ParseFrom(argv, i, c) == ParseFrom(argv, i + 1, c');
    var rest := ParsedItems(argv, i + 1, c');
    Prepended(argv, i, Source(argv[i]), rest);
    flags := [Source(argv[i])] + rest;
  }

  /** `commands_parse` succeeds exactly when the vector is empty, or when it
      holds at least one argument after the program name and those arguments
      are a run of well-formed items (`-h`, `-o` with its path, or a `.vlt`
      path); it then lists the `.vlt` paths in order and the last `-o` path,
      or "out". */
  lemma ParseSucceedsIff(argv: seq<string>)
    ensures Parse(argv).success <==>
      |argv| == 0 || (|argv| >= 2 && exists flags :: Proper(flags) && argv[1..] == Render(flags))
    ensures forall flags :: |argv| >= 1 && Proper(flags) && argv[1..] == Render(flags) && flags != [] ==>
      Parse(argv) == Commands(true, LastOutput(flags, "out"), SourcesOf(flags))
  {
    forall flags | |argv| >= 1 && Proper(flags) && argv[1..] == Render(flags) && flags != []
      ensures Parse(argv) == Commands(true, LastOutput(flags, "out"), SourcesOf(flags))
    {
      ParseFromRendered(argv, 1, Initial, flags);
    }
    if |argv| >= 2 && Parse(argv).success {
      var flags := ParsedItems(argv, 1, Initial);
    }
  }

  /** `commands_parse` as the source runs it: an index loop that updates the
      record's fields and appends each `.vlt` path to a list created with
      capacity 2. */
  method ParseCommands(argv: seq<string>) returns (success: bool, output: string, inputs: Strings<string>)
    ensures fresh(inputs) && inputs.Valid()
    ensures Commands(success, output, inputs.Contents()) == Parse(argv)
  {
    success, output := false, "out";
    inputs := new Strings<string>(2);
    if |argv| == 1 {
      return;
    }
    var i := 1;
    while i < |argv|
      invariant 1 <= i && (i <= |argv| || argv == [])
      invariant fresh(inputs) && inputs.Valid() && inputs.length >= 1
      invariant inputs.elements != null && fresh(inputs.elements)
      invariant ParseFrom(argv, i, Commands(false, output, inputs.Contents())) == Parse(argv)
      decreases |argv| - i
    {
      if argv[i] == "-h" {
        i := i + 1;
        continue;
      }
      if argv[i] == "-o" {
        i := i + 1;
        if i == |argv| {
          return;
        }
        output := argv[i];
        i := i + 1;
        continue;
      }
      if IsSourcePath(argv[i]) {
        var _ := inputs.Add(argv[i]);
        i := i + 1;
        continue;
      }
      return;
    }
    success := true;
  }
}
