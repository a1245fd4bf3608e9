/** Composing the numbered `## Pipeline` block from the enabled stages. */
module PipelineCompose {
  import opened Text
  import opened Sequences
  import opened StageGraph
  import opened PipelineBlock
  import opened PipelineOrdering

  function EnabledStages(stages: seq<BlockStage>, enabled: set<Id>): seq<BlockStage> {
    if stages == [] then []
    else if stages[0].id in enabled then [stages[0]] + EnabledStages(stages[1..], enabled)
    else EnabledStages(stages[1..], enabled)
  }

  function EnabledIds(ids: seq<Id>, enabled: set<Id>): seq<Id> {
    if ids == [] then []
    else if ids[0] in enabled then [ids[0]] + EnabledIds(ids[1..], enabled)
    else EnabledIds(ids[1..], enabled)
  }

  function Numbered(stages: seq<BlockStage>): (lines: seq<string>)
    ensures |lines| == |stages|
  {
    seq(|stages|, i requires 0 <= i < |stages| => Decimal(i + 1) + ". " + stages[i].promptFragment)
  }

  function JoinNames(pipelines: seq<BlockPipeline>): string {
    if pipelines == [] then ""
    else if |pipelines| == 1 then pipelines[0].name
    else pipelines[0].name + " + " + JoinNames(pipelines[1..])
  }

  function Heading(pipelines: seq<BlockPipeline>): string {
    if pipelines == [] then "## Pipeline" else "## Pipeline: " + JoinNames(pipelines)
  }

  function Preamble(heading: string, some: bool, instruction: string, executorLine: string): seq<string> {
    [heading, ""]
    + (if some then [instruction, ""] else [])
    + (if executorLine == "" then [] else if some then [executorLine, ""] else [executorLine])
  }

  /** The lines between the delimiters, or none when there is nothing to emit. */
  function BlockLines(pipelines: seq<BlockPipeline>, stages: seq<BlockStage>, instruction: string, executorLine: string): seq<string> {
    if stages == [] && executorLine == "" then []
    else Preamble(Heading(pipelines), stages != [], instruction, executorLine) + Numbered(stages)
  }

  method ComposePreamble(heading: string, some: bool, instruction: string, executorLine: string) returns (lines: seq<string>)
    ensures lines == Preamble(heading, some, instruction, executorLine)
  {
    lines := [heading, ""];
    if some {
      lines := lines + [instruction, ""];
    }
    if executorLine != "" {
      lines := lines + [executorLine];
      if some {
        lines := lines + [""];
      }
    }
  }

  method NumberStages(head: seq<string>, stages: seq<BlockStage>) returns (lines: seq<string>)
    ensures lines == head + Numbered(stages)
  {
    lines := head;
    for i := 0 to |stages|
      invariant |lines| == |head| + i && lines[..|head|] == head
      invariant forall k :: 0 <= k < i ==> lines[|head| + k] == Numbered(stages)[k]
    {
      lines := lines + [Decimal(i + 1) + ". " + stages[i].promptFragment];
    }
  }

  method ComposeLines(pipelines: seq<BlockPipeline>, enabled: set<Id>, instruction: string, executorLine: string)
    returns (lines: seq<string>)
    ensures lines == BlockLines(pipelines, EnabledStages(CanonicalOrder(pipelines), enabled), instruction, executorLine)
  {
    var ordered := CanonicalStageOrder(pipelines);
    var stages := KeepEnabled(ordered, enabled);
    if stages == [] && executorLine == "" {
      return [];
    }
    var head := ComposePreamble(Heading(pipelines), stages != [], instruction, executorLine);
    lines := NumberStages(head, stages);
  }

  method KeepEnabled(ordered: seq<BlockStage>, enabled: set<Id>) returns (stages: seq<BlockStage>)
    ensures stages == EnabledStages(ordered, enabled)
  {
    stages := [];
    for i := 0 to |ordered|
      invariant stages + EnabledStages(ordered[i..], enabled) == EnabledStages(ordered, enabled)
    {
      assert ordered[i..][1..] == ordered[i + 1..];
      if ordered[i].id in enabled {
        stages := stages + [ordered[i]];
      }
    }
  }

  // ------------------------------------------------------------ the stage lines

  lemma {:induction false} EnabledIdsOf(stages: seq<BlockStage>, enabled: set<Id>)
    ensures Ids(EnabledStages(stages, enabled)) == EnabledIds(Ids(stages), enabled)
  {
    if stages != [] {
      EnabledIdsOf(stages[1..], enabled);
      assert Ids(stages)[1..] == Ids(stages[1..]);
      IdsAppend([stages[0]], EnabledStages(stages[1..], enabled));
    }
  }

  lemma {:induction false} EnabledSubsequence(s: seq<Id>, t: seq<Id>, enabled: set<Id>)
    requires Subsequence(s, t)
    ensures Subsequence(EnabledIds(s, enabled), EnabledIds(t, enabled))
    decreases |t|
  {
    if s != [] {
      var et := EnabledIds(t[1..], enabled);
      if s[0] == t[0] {
        EnabledSubsequence(s[1..], t[1..], enabled);
        var es := EnabledIds(s[1..], enabled);
        assert ([s[0]] + es)[1..] == es && ([t[0]] + et)[1..] == et;
      } else {
        EnabledSubsequence(s, t[1..], enabled);
        assert ([t[0]] + et)[1..] == et;
        if t[0] in enabled {
          SubsequenceSkip(EnabledIds(s, enabled), et, t[0]);
        }
      }
    }
  }

  lemma {:induction false} SubsequenceSkip(s: seq<Id>, t: seq<Id>, x: Id)
    requires Subsequence(s, t)
    ensures Subsequence(s, [x] + t)
    decreases |t|, 1
  {
    assert ([x] + t)[1..] == t;
    if s != [] && s[0] == x {
      SubsequenceTail(s, t);
    }
  }

  lemma {:induction false} SubsequenceTail(s: seq<Id>, t: seq<Id>)
    requires s != [] && Subsequence(s, t)
    ensures Subsequence(s[1..], t)
    decreases |t|, 0
  {
    if s[0] == t[0] {
      SubsequenceSkip(s[1..], t[1..], t[0]);
      assert [t[0]] + t[1..] == t;
    } else {
      SubsequenceTail(s, t[1..]);
      SubsequenceSkip(s[1..], t[1..], t[0]);
      assert [t[0]] + t[1..] == t;
    }
  }

  /** The block ends with one line per enabled stage, numbered from one; for
      consistent pipelines the numbers respect the order of every pipeline,
      whatever the order of selection. */
  lemma BlockRespectsPipelines(pipelines: seq<BlockPipeline>, enabled: set<Id>, instruction: string, executorLine: string,
                               p: BlockPipeline)
    requires Consistent(pipelines) && p in pipelines
    ensures var stages := EnabledStages(CanonicalOrder(pipelines), enabled);
            var lines := BlockLines(pipelines, stages, instruction, executorLine);
            && Subsequence(EnabledIds(Ids(p.stages), enabled), Ids(stages))
            && |stages| <= |lines|
            && forall i :: 0 <= i < |stages| ==>
                 lines[|lines| - |stages| + i] == Decimal(i + 1) + ". " + stages[i].promptFragment
  {
    var order := CanonicalOrder(pipelines);
    CanonicalOrderIsLeastValid(pipelines);
    OrderHoldsEachStageOnce(pipelines);
    EnabledIdsOf(order, enabled);
    EnabledSubsequence(Ids(p.stages), CanonicalIds(pipelines), enabled);
  }

  /** The lines before the numbered ones: the heading with the names of the
      pipelines, the instruction where there is a stage, and the line that pins
      an executor where there is one, each followed by an empty line but for an
      executor line without stages. */
  lemma BlockHead(pipelines: seq<BlockPipeline>, stages: seq<BlockStage>, instruction: string, executorLine: string)
    requires stages != [] || executorLine != ""
    ensures var lines := BlockLines(pipelines, stages, instruction, executorLine);
            var head := |lines| - |stages|;
            && head == (if stages == [] then 3 else if executorLine == "" then 4 else 6)
            && lines[1] == "" && IsHeading(lines[0], pipelines)
            && (stages != [] ==> lines[2] == instruction && lines[3] == "")
            && (executorLine != "" ==> lines[if stages == [] then 2 else 4] == executorLine)
            && (stages != [] && executorLine != "" ==> lines[5] == "")
  {
    if pipelines != [] {
      NamesAreJoined(pipelines);
    }
  }

  /** The names of the pipelines, with a plus sign between two of them. */
  ghost predicate IsHeading(line: string, pipelines: seq<BlockPipeline>) {
    if pipelines == [] then line == "## Pipeline"
    else exists names: seq<string> ::
           && |names| == |pipelines| && (forall i :: 0 <= i < |names| ==> names[i] == pipelines[i].name)
           && line == "## Pipeline: " + Glued(names)
  }

  function Glued(names: seq<string>): string {
    if names == [] then "" else Glued(names[..|names| - 1]) + (if |names| > 1 then " + " else "") + names[|names| - 1]
  }

  lemma {:induction false} GluedFirst(names: seq<string>)
    requires |names| > 1
    ensures Glued(names) == names[0] + " + " + Glued(names[1..])
  {
    var init, last := names[..|names| - 1], names[|names| - 1];
    assert names[1..][..|names| - 2] == init[1..];
    if |names| == 2 {
      assert init == [names[0]] && init[..0] == [];
    } else {
      GluedFirst(init);
      assert names[0] + " + " + Glued(init[1..]) + " + " + last == names[0] + " + " + (Glued(init[1..]) + " + " + last);
    }
  }

  lemma {:induction false} NamesAreJoined(pipelines: seq<BlockPipeline>)
    requires pipelines != []
    ensures JoinNames(pipelines) == Glued(NamesOf(pipelines))
  {
    if |pipelines| > 1 {
      NamesAreJoined(pipelines[1..]);
      GluedFirst(NamesOf(pipelines));
      assert NamesOf(pipelines)[1..] == NamesOf(pipelines[1..]);
    } else {
      assert NamesOf(pipelines)[..0] == [];
    }
  }

  function NamesOf(pipelines: seq<BlockPipeline>): (names: seq<string>)
    ensures |names| == |pipelines| && forall i :: 0 <= i < |names| ==> names[i] == pipelines[i].name
  {
    seq(|pipelines|, i requires 0 <= i < |pipelines| => pipelines[i].name)
  }

  // --------------------------------------------------------------- the text

  const PIPELINE_START := "<!-- vk:pipeline:start -->"
  const PIPELINE_END := "<!-- vk:pipeline:end -->"

  function Join(lines: seq<string>): string
    requires lines != []
  {
    if |lines| == 1 then lines[0] else lines[0] + "\n" + Join(lines[1..])
  }

  function SplitLines(s: string): (lines: seq<string>)
    ensures lines != []
  {
    if s == "" then [""]
    else
      var rest := SplitLines(s[1..]);
      if s[0] == '\n' then [""] + rest else [[s[0]] + rest[0]] + rest[1..]
  }

  /** The delimited block, or nothing. */
  function Block(lines: seq<string>): string {
    if lines == [] then "" else PIPELINE_START + "\n" + Join(lines) + "\n" + PIPELINE_END
  }

  lemma JoinNext(text: string, line: string, rest: seq<string>)
    ensures var all := [line] + rest;
            text + ("\n" + Join(all)) == (text + "\n" + line) + if rest == [] then "" else "\n" + Join(rest)
  {
    var all := [line] + rest;
    assert all[1..] == rest;
    if rest != [] {
      assert Join(all) == line + ("\n" + Join(rest));
      assert text + ("\n" + (line + ("\n" + Join(rest)))) == (text + "\n" + line) + ("\n" + Join(rest));
    }
  }

  method JoinLines(lines: seq<string>) returns (text: string)
    requires lines != []
    ensures text == Join(lines)
  {
    text := lines[0];
    for i := 1 to |lines|
      invariant text + (if i < |lines| then "\n" + Join(lines[i..]) else "") == Join(lines)
    {
      assert lines[i..] == [lines[i]] + lines[i + 1..];
      JoinNext(text, lines[i], lines[i + 1..]);
      text := text + "\n" + lines[i];
    }
  }

  method ComposeBlock(pipelines: seq<BlockPipeline>, enabled: set<Id>, instruction: string, executorLine: string)
    returns (block: string)
    ensures block == Block(BlockLines(pipelines, EnabledStages(CanonicalOrder(pipelines), enabled), instruction, executorLine))
  {
    var lines := ComposeLines(pipelines, enabled, instruction, executorLine);
    if lines == [] {
      return "";
    }
    var text := JoinLines(lines);
    block := PIPELINE_START + "\n" + text + "\n" + PIPELINE_END;
  }

  ghost predicate OneLine(s: string) {
    forall i :: 0 <= i < |s| ==> s[i] != '\n'
  }

  lemma {:induction false} SplitOne(s: string)
    requires OneLine(s)
    ensures SplitLines(s) == [s]
  {
    if s != "" {
      SplitOne(s[1..]);
      assert [s[0]] + s[1..] == s;
    }
  }

  lemma {:induction false} SplitFirst(line: string, rest: string)
    requires OneLine(line)
    ensures SplitLines(line + "\n" + rest) == [line] + SplitLines(rest)
  {
    var s := line + "\n" + rest;
    if line == "" {
      assert s[1..] == rest;
    } else {
      assert s[1..] == line[1..] + "\n" + rest;
      SplitFirst(line[1..], rest);
      assert [line[0]] + line[1..] == line;
    }
  }

  lemma {:induction false} SplitJoined(lines: seq<string>, last: string)
    requires lines != [] && OneLine(last) && forall l :: l in lines ==> OneLine(l)
    ensures SplitLines(Join(lines) + "\n" + last) == lines + [last]
  {
    assert lines[0] in lines;
    if |lines| == 1 {
      SplitFirst(lines[0], last);
      SplitOne(last);
    } else {
      var tail := Join(lines[1..]);
      assert Join(lines) + "\n" + last == lines[0] + "\n" + (tail + "\n" + last);
      SplitFirst(lines[0], tail + "\n" + last);
      SplitJoined(lines[1..], last);
      assert [lines[0]] + (lines[1..] + [last]) == lines + [last];
    }
  }

  /** Read line by line, the block is its lines between the two delimiters. */
  lemma BlockHoldsLines(lines: seq<string>)
    requires lines != [] && forall l :: l in lines ==> OneLine(l)
    ensures SplitLines(Block(lines)) == [PIPELINE_START] + lines + [PIPELINE_END]
  {
    var inner := Join(lines) + "\n" + PIPELINE_END;
    assert Block(lines) == PIPELINE_START + "\n" + inner;
    SplitFirst(PIPELINE_START, inner);
    SplitJoined(lines, PIPELINE_END);
  }
}
