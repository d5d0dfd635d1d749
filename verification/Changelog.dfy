/** Changelog fragments and their roll-up, on texts as their lines. */
module Changelog {
  import opened Common

  type Line = string
  /** A text split at its newlines. */
  type Text = seq<Line>

  const UNRELEASED: Line := "## [Unreleased]"
  const CATEGORIES: seq<string> := ["Added", "Changed", "Deprecated", "Removed", "Fixed", "Security", "Docs"]
  const DASH: string := " \U{2014} "

  predicate Blank(line: Line) {
    forall k | 0 <= k < |line| :: IsSpace(line[k])
  }

  // ---- the fence automaton ----

  /** The run of one character that a line starts with. */
  function RunLength(line: Line, c: char): (n: nat)
    ensures n <= |line|
  {
    if line != [] && line[0] == c then 1 + RunLength(line[1..], c) else 0
  }

  /** A fence marker: its character, its length and what follows it on the line. */
  datatype Marker = Marker(mark: char, length: nat, rest: Line)

  /** The fence pattern: at most three spaces, then at least three backticks or tildes. */
  function MarkerOf(line: Line): Option<Marker> {
    var indent := RunLength(line, ' ');
    var body := line[indent..];
    if indent > 3 || body == [] || (body[0] != '`' && body[0] != '~') || RunLength(body, body[0]) < 3 then None
    else Some(Marker(body[0], RunLength(body, body[0]), body[RunLength(body, body[0])..]))
  }

  /** The open fence, if any: its character and length. */
  type Fence = Option<(char, nat)>

  function Next(fence: Fence, line: Line): Fence {
    var m := MarkerOf(line);
    if m.None? then fence
    else if fence.None? then Some((m.value.mark, m.value.length))
    else if m.value.mark == fence.value.0 && m.value.length >= fence.value.1 && Blank(m.value.rest) then None
    else fence
  }

  /** Fence lines always show; other lines show outside a fence. */
  predicate Shows(fence: Fence, line: Line) {
    MarkerOf(line).Some? || fence.None?
  }

  function After(fence: Fence, text: Text): Fence
    decreases |text|
  {
    if text == [] then fence else After(Next(fence, text[0]), text[1..])
  }

  function Visible(fence: Fence, text: Text): Text
    decreases |text|
  {
    if text == [] then []
    else (if Shows(fence, text[0]) then [text[0]] else []) + Visible(Next(fence, text[0]), text[1..])
  }

  /** `_structure`: the lines outside fences, and whether one was left open. */
  method Structure(text: Text) returns (lines: Text, open: bool)
    ensures lines == Visible(None, text) && open == After(None, text).Some?
  {
    var fence: Fence := None;
    lines := [];
    for i := 0 to |text|
      invariant lines == Visible(None, text[..i]) && fence == After(None, text[..i])
    {
      assert text[..i + 1] == text[..i] + [text[i]];
      AutomatonComposes(None, text[..i], [text[i]]);
      OneLine(fence, text[i]);
      if Shows(fence, text[i]) {
        lines := lines + [text[i]];
      }
      fence := Next(fence, text[i]);
    }
    assert text[..|text|] == text;
    open := fence.Some?;
  }

  lemma OneLine(fence: Fence, line: Line)
    ensures After(fence, [line]) == Next(fence, line)
    ensures Visible(fence, [line]) == if Shows(fence, line) then [line] else []
  {
    assert [line][1..] == [];
  }

  lemma {:induction false} AutomatonComposes(fence: Fence, a: Text, b: Text)
    ensures After(fence, a + b) == After(After(fence, a), b)
    ensures Visible(fence, a + b) == Visible(fence, a) + Visible(After(fence, a), b)
    decreases |a|
  {
    if a == [] {
      assert a + b == b;
    } else {
      assert (a + b)[0] == a[0] && (a + b)[1..] == a[1..] + b;
      AutomatonComposes(Next(fence, a[0]), a[1..], b);
    }
  }

  // ---- entries ----

  const ENTRY: Line := "### "

  predicate IsEntry(line: Line) {
    ENTRY <= line
  }

  function CountEntries(lines: Text): nat {
    if lines == [] then 0 else (if IsEntry(lines[0]) then 1 else 0) + CountEntries(lines[1..])
  }

  lemma {:induction false} CountAppends(a: Text, b: Text)
    ensures CountEntries(a + b) == CountEntries(a) + CountEntries(b)
    decreases |a|
  {
    if a == [] {
      assert a + b == b;
    } else {
      assert (a + b)[0] == a[0] && (a + b)[1..] == a[1..] + b;
      CountAppends(a[1..], b);
    }
  }

  /** The entries a stretch of text holds when it starts with this fence open or none. */
  function EntriesFrom(fence: Fence, text: Text): nat {
    CountEntries(Visible(fence, text))
  }

  /** `entries`. */
  function Entries(text: Text): nat {
    EntriesFrom(None, text)
  }

  lemma EntriesCompose(fence: Fence, a: Text, b: Text)
    ensures EntriesFrom(fence, a + b) == EntriesFrom(fence, a) + EntriesFrom(After(fence, a), b)
    ensures After(fence, a + b) == After(After(fence, a), b)
  {
    AutomatonComposes(fence, a, b);
    CountAppends(Visible(fence, a), Visible(After(fence, a), b));
  }

  /** An empty line is no fence, no entry and changes nothing after it. */
  lemma EmptyLineIsNothing(fence: Fence)
    ensures After(fence, [""]) == fence && EntriesFrom(fence, [""]) == 0
  {
    OneLine(fence, "");
    assert CountEntries([""]) == 0;
  }

  // ---- fragments ----

  function HeadingLevel(line: Line): Option<nat> {
    var n := RunLength(line, '#');
    if 1 <= n <= 6 && n < |line| && IsSpace(line[n]) then Some(n) else None
  }

  function TrimEnd(line: Line): Line {
    if line != [] && IsSpace(line[|line| - 1]) then TrimEnd(line[..|line| - 1]) else line
  }

  /** `### <Category> — <what changed>`, once trailing space is gone. */
  predicate ValidEntry(line: Line) {
    exists category | category in CATEGORIES ::
      var head := ENTRY + category + DASH;
      head < line && !IsSpace(line[|head|])
  }

  datatype Problem = NoEntry | EarlyLine(line: Line) | LowHeading(line: Line) | BadEntry(line: Line) | OpenFence

  function Content(lines: Text): Text {
    if lines == [] then []
    else (if Blank(lines[0]) then [] else [lines[0]]) + Content(lines[1..])
  }

  function HeadingProblem(line: Line): Option<Problem> {
    var level := HeadingLevel(line);
    if level.None? then None
    else if level.value < 3 then Some(LowHeading(line))
    else if level.value == 3 && !ValidEntry(TrimEnd(line)) then Some(BadEntry(line))
    else None
  }

  /** A fragment that may wait: an entry heading first, only entry headings and
      deeper ones, each entry heading in its form, every fence closed. */
  ghost predicate Acceptable(text: Text) {
    var content := Content(Visible(None, text));
    && content != [] && IsEntry(content[0])
    && (forall k | 0 <= k < |content| :: HeadingProblem(content[k]).None?)
    && After(None, text).None?
  }

  /** `fragment_problems`. */
  method FragmentProblems(text: Text) returns (problems: seq<Problem>)
    ensures problems == [] <==> Acceptable(text)
  {
    var lines, open := Structure(text);
    var content := Content(lines);
    if content == [] {
      return [NoEntry];
    }
    problems := if IsEntry(content[0]) then [] else [EarlyLine(content[0])];
    for i := 0 to |content|
      invariant problems == [] <==> IsEntry(content[0]) && forall k | 0 <= k < i :: HeadingProblem(content[k]).None?
    {
      var problem := HeadingProblem(content[i]);
      if problem.Some? {
        problems := problems + [problem.value];
      }
    }
    if open {
      problems := problems + [OpenFence];
    }
  }

  // ---- the splice ----

  function DropEmpty(text: Text): Text {
    if text != [] && text[0] == "" then DropEmpty(text[1..]) else text
  }

  function DropEmptyEnd(text: Text): Text {
    if text != [] && text[|text| - 1] == "" then DropEmptyEnd(text[..|text| - 1]) else text
  }

  /** `strip("\n")`; an empty text is one empty line. */
  function Stripped(text: Text): Text {
    var lines := DropEmptyEnd(DropEmpty(text));
    if lines == [] then [""] else lines
  }

  /** Blocks with an empty line between each two. */
  function Joined(blocks: seq<Text>): Text {
    if blocks == [] then []
    else if |blocks| == 1 then blocks[0]
    else blocks[0] + [""] + Joined(blocks[1..])
  }

  function Blocks(fragments: seq<Text>): seq<Text> {
    if fragments == [] then [] else [Stripped(fragments[0])] + Blocks(fragments[1..])
  }

  datatype Cut = Cut(version: string, date: string)

  function Heading(cut: Cut): Line {
    "## [" + cut.version + "] - " + cut.date
  }

  function AllBlocks(fragments: seq<Text>, cut: Option<Cut>): seq<Text> {
    (if cut.Some? then [[Heading(cut.value)]] else []) + Blocks(fragments)
  }

  /** One past the first line equal to `line`. */
  function PastFirst(text: Text, line: Line): nat
    requires line in text
    ensures PastFirst(text, line) <= |text|
  {
    if text[0] == line then 1 else 1 + PastFirst(text[1..], line)
  }

  /** `render`: the blocks directly below the Unreleased heading; no such heading is a refusal. */
  function Render(base: Text, fragments: seq<Text>, cut: Option<Cut>): Option<Text> {
    if UNRELEASED !in base then None
    else
      var at := PastFirst(base, UNRELEASED);
      var blocks := AllBlocks(fragments, cut);
      if blocks == [] then Some(base)
      else
        Some(base[..at] + [""] + Joined(blocks) + Tail(base[at..]))
  }

  /** What follows the blocks: the old text below the heading, or a final newline. */
  function Tail(below: Text): Text {
    var rest := DropEmpty(below);
    if rest == [] then [""] else [""] + rest
  }

  function Sum(fragments: seq<Text>): nat {
    if fragments == [] then 0 else Entries(fragments[0]) + Sum(fragments[1..])
  }

  // ---- entries are conserved ----

  lemma {:induction false} DropEmptyKeeps(fence: Fence, text: Text)
    ensures EntriesFrom(fence, DropEmpty(text)) == EntriesFrom(fence, text)
    ensures After(fence, DropEmpty(text)) == After(fence, text)
    decreases |text|
  {
    if text != [] && text[0] == "" {
      DropEmptyKeeps(fence, text[1..]);
      assert text == [""] + text[1..];
      EntriesCompose(fence, [""], text[1..]);
      EmptyLineIsNothing(fence);
    }
  }

  lemma {:induction false} DropEmptyEndKeeps(fence: Fence, text: Text)
    ensures EntriesFrom(fence, DropEmptyEnd(text)) == EntriesFrom(fence, text)
    ensures After(fence, DropEmptyEnd(text)) == After(fence, text)
    decreases |text|
  {
    if text != [] && text[|text| - 1] == "" {
      var rest := text[..|text| - 1];
      DropEmptyEndKeeps(fence, rest);
      assert text == rest + [""] && DropEmptyEnd(text) == DropEmptyEnd(rest);
      EmptyLineAtEnd(fence, rest);
    }
  }

  lemma EmptyLineAtEnd(fence: Fence, rest: Text)
    ensures EntriesFrom(fence, rest + [""]) == EntriesFrom(fence, rest) && After(fence, rest + [""]) == After(fence, rest)
  {
    EntriesCompose(fence, rest, [""]);
    EmptyLineIsNothing(After(fence, rest));
  }

  lemma StrippedKeeps(text: Text)
    ensures Entries(Stripped(text)) == Entries(text) && After(None, Stripped(text)) == After(None, text)
  {
    DropEmptyKeeps(None, text);
    DropEmptyEndKeeps(None, DropEmpty(text));
    EmptyLineIsNothing(None);
  }

  /** Closed blocks add up. */
  ghost predicate Closed(blocks: seq<Text>) {
    forall i | 0 <= i < |blocks| :: After(None, blocks[i]) == None
  }

  lemma {:induction false} JoinedAddsUp(blocks: seq<Text>)
    requires Closed(blocks)
    ensures Entries(Joined(blocks)) == Sum(blocks) && After(None, Joined(blocks)) == None
    decreases |blocks|
  {
    if |blocks| > 1 {
      var rest := blocks[1..];
      JoinedAddsUp(rest);
      EmptyLineIsNothing(None);
      EntriesCompose(None, blocks[0], [""]);
      EntriesCompose(None, blocks[0] + [""], Joined(rest));
    } else if |blocks| == 1 {
      assert Sum(blocks[1..]) == 0;
    }
  }

  lemma {:induction false} BlocksAddUp(fragments: seq<Text>)
    ensures Sum(Blocks(fragments)) == Sum(fragments)
    ensures Closed(fragments) ==> Closed(Blocks(fragments))
    decreases |fragments|
  {
    if fragments != [] {
      var first, rest := Stripped(fragments[0]), Blocks(fragments[1..]);
      StrippedKeeps(fragments[0]);
      BlocksAddUp(fragments[1..]);
      assert ([first] + rest)[1..] == rest;
      assert Closed(fragments) ==> After(None, fragments[0]) == None && Closed(fragments[1..]);
    }
  }

  lemma HeadingIsNoEntry(cut: Cut)
    ensures Entries([Heading(cut)]) == 0 && After(None, [Heading(cut)]) == None
  {
    var line := Heading(cut);
    assert line[0] == '#' && line[2] == ' ';
    OneLine(None, line);
    assert CountEntries([line]) == 0;
  }

  lemma AllBlocksAddUp(fragments: seq<Text>, cut: Option<Cut>)
    requires Closed(fragments)
    ensures Closed(AllBlocks(fragments, cut)) && Sum(AllBlocks(fragments, cut)) == Sum(fragments)
  {
    BlocksAddUp(fragments);
    if cut.Some? {
      HeadingIsNoEntry(cut.value);
      assert AllBlocks(fragments, cut)[1..] == Blocks(fragments);
    } else {
      assert AllBlocks(fragments, cut) == Blocks(fragments);
    }
  }

  lemma SpliceAddsUp(before: Text, middle: Text, tail: Text)
    requires After(None, before) == None && After(None, middle) == None
    ensures Entries(before + [""] + middle + tail) == Entries(before) + Entries(middle) + Entries(tail)
  {
    EmptyLineIsNothing(None);
    EntriesCompose(None, before, [""]);
    EntriesCompose(None, before + [""], middle);
    EntriesCompose(None, before + [""] + middle, tail);
  }

  /** A roll-up neither loses nor invents an entry. */
  lemma RollUpConserves(base: Text, fragments: seq<Text>, cut: Option<Cut>)
    requires UNRELEASED in base && After(None, base[..PastFirst(base, UNRELEASED)]) == None
    requires forall i | 0 <= i < |fragments| :: Acceptable(fragments[i])
    ensures Render(base, fragments, cut).Some?
    ensures Entries(Render(base, fragments, cut).value) == Entries(base) + Sum(fragments)
  {
    assert Closed(fragments);
    ClosedRollUp(base, fragments, cut);
  }

  lemma RenderSplices(base: Text, fragments: seq<Text>, cut: Option<Cut>)
    requires UNRELEASED in base && AllBlocks(fragments, cut) != []
    ensures var at := PastFirst(base, UNRELEASED);
            Render(base, fragments, cut) == Some(base[..at] + [""] + Joined(AllBlocks(fragments, cut)) + Tail(base[at..]))
  {
  }

  lemma ClosedRollUp(base: Text, fragments: seq<Text>, cut: Option<Cut>)
    requires UNRELEASED in base && After(None, base[..PastFirst(base, UNRELEASED)]) == None
    requires Closed(fragments)
    ensures Entries(Render(base, fragments, cut).value) == Entries(base) + Sum(fragments)
  {
    var at := PastFirst(base, UNRELEASED);
    var blocks := AllBlocks(fragments, cut);
    var above, below := base[..at], base[at..];
    AllBlocksAddUp(fragments, cut);
    assert base == above + below;
    if blocks != [] {
      SpliceEntries(above, blocks, below);
      RenderSplices(base, fragments, cut);
    } else {
      assert Render(base, fragments, cut).value == base && Sum(blocks) == 0;
    }
  }

  lemma SpliceEntries(above: Text, blocks: seq<Text>, below: Text)
    requires After(None, above) == None && Closed(blocks)
    ensures Entries(above + [""] + Joined(blocks) + Tail(below)) == Entries(above + below) + Sum(blocks)
  {
    JoinedAddsUp(blocks);
    TailKeepsIn(None, below);
    SpliceAddsUp(above, Joined(blocks), Tail(below));
    EntriesCompose(None, above, below);
  }

  /** Everything around the splice is kept line for line, the empty lines just
      below the heading apart. */
  lemma RollUpKeepsTheRest(base: Text, fragments: seq<Text>, cut: Option<Cut>)
    requires UNRELEASED in base && AllBlocks(fragments, cut) != []
    ensures var at := PastFirst(base, UNRELEASED);
            var next := Render(base, fragments, cut).value;
            && next == base[..at] + [""] + Joined(AllBlocks(fragments, cut)) + [""] + DropEmpty(base[at..])
            && UNRELEASED in next && PastFirst(next, UNRELEASED) == at
  {
    var at := PastFirst(base, UNRELEASED);
    var next := Render(base, fragments, cut).value;
    var rest := DropEmpty(base[at..]);
    assert [""] + [] == [""];
    PastFirstOfPrefix(base, next, UNRELEASED);
  }

  lemma {:induction false} PastFirstOfPrefix(a: Text, b: Text, line: Line)
    requires line in a && PastFirst(a, line) <= |b| && a[..PastFirst(a, line)] == b[..PastFirst(a, line)]
    ensures line in b && PastFirst(b, line) == PastFirst(a, line)
    decreases |a|
  {
    var at := PastFirst(a, line);
    assert a[0] == a[..at][0] == b[..at][0] == b[0];
    if a[0] != line {
      assert a[1..][..at - 1] == a[..at][1..] == b[..at][1..] == b[1..][..at - 1];
      PastFirstOfPrefix(a[1..], b[1..], line);
    }
  }

  // ---- the version heading, printed and recovered ----

  predicate IsDigit(c: char) {
    '0' <= c <= '9'
  }

  /** YYYY-MM-DD by shape. */
  predicate IsDate(date: string) {
    && |date| == 10 && date[4] == '-' && date[7] == '-'
    && forall k | 0 <= k < 10 && k != 4 && k != 7 :: IsDigit(date[k])
  }

  predicate ValidCut(cut: Cut) {
    cut.version != "" && ']' !in cut.version && IsDate(cut.date)
  }

  function ToBracket(line: Line): (n: nat)
    ensures n <= |line|
  {
    if line == [] || line[0] == ']' then 0 else 1 + ToBracket(line[1..])
  }

  const OPENING: string := "## ["
  const CLOSING: string := "] - "

  /** The version heading pattern. */
  function ParseHeading(line: Line): Option<Cut> {
    if !(OPENING <= line) then None
    else
      var n := ToBracket(line[4..]);
      var rest := line[4 + n..];
      if n == 0 || !(CLOSING <= rest) || !IsDate(rest[4..]) then None
      else Some(Cut(line[4..4 + n], rest[4..]))
  }

  lemma {:induction false} ToBracketOf(version: string, rest: string)
    requires ']' !in version && rest != "" && rest[0] == ']'
    ensures ToBracket(version + rest) == |version|
    decreases |version|
  {
    if version == "" {
      assert version + rest == rest;
    } else {
      assert (version + rest)[0] == version[0] && (version + rest)[1..] == version[1..] + rest;
      ToBracketOf(version[1..], rest);
    }
  }

  /** Parsing a printed heading recovers what was printed. */
  lemma HeadingRoundTrip(cut: Cut)
    requires ValidCut(cut)
    ensures ParseHeading(Heading(cut)) == Some(cut)
  {
    var line, rest := Heading(cut), CLOSING + cut.date;
    assert line == OPENING + (cut.version + rest);
    assert line[4..] == cut.version + rest;
    ToBracketOf(cut.version, rest);
    assert line[4 + |cut.version|..] == rest && line[4..4 + |cut.version|] == cut.version;
    assert rest[4..] == cut.date;
  }

  lemma {:induction false} NoBracketBefore(line: Line)
    ensures ']' !in line[..ToBracket(line)]
    decreases |line|
  {
    if line != [] && line[0] != ']' {
      NoBracketBefore(line[1..]);
      var n := ToBracket(line[1..]);
      assert line[..1 + n] == [line[0]] + line[1..][..n];
    }
  }

  /** Whatever parses is a printed heading. */
  lemma ParsedIsPrinted(line: Line)
    requires ParseHeading(line).Some?
    ensures Heading(ParseHeading(line).value) == line && ValidCut(ParseHeading(line).value)
  {
    var n := ToBracket(line[4..]);
    NoBracketBefore(line[4..]);
    assert line[4..][..n] == line[4..4 + n];
    var rest := line[4 + n..];
    assert line == line[..4] + line[4..4 + n] + rest && rest == rest[..4] + rest[4..];
  }

  function FirstOf(lines: Text): Option<Line> {
    if lines == [] then None else Some(lines[0])
  }

  /** The first line below the Unreleased heading that is not blank. */
  function FirstBelow(text: Text): Option<Line> {
    if UNRELEASED !in text then None else FirstOf(Content(text[PastFirst(text, UNRELEASED)..]))
  }

  /** `version_cut`. */
  function VersionCut(base: Text, next: Text): Option<Cut> {
    var line := FirstBelow(next);
    if line.Some? && ParseHeading(line.value).Some? && line != FirstBelow(base) then ParseHeading(line.value) else None
  }

  lemma {:induction false} ContentAppends(a: Text, b: Text)
    ensures Content(a + b) == Content(a) + Content(b)
    decreases |a|
  {
    if a == [] {
      assert a + b == b;
    } else {
      assert (a + b)[0] == a[0] && (a + b)[1..] == a[1..] + b;
      ContentAppends(a[1..], b);
    }
  }

  lemma {:induction false} ContentOfStart(text: Text)
    ensures Content(DropEmpty(text)) == Content(text)
    decreases |text|
  {
    if text != [] && text[0] == "" { ContentOfStart(text[1..]); }
  }

  lemma {:induction false} ContentOfEnd(text: Text)
    ensures Content(DropEmptyEnd(text)) == Content(text)
    decreases |text|
  {
    if text != [] && text[|text| - 1] == "" {
      var rest := text[..|text| - 1];
      ContentOfEnd(rest);
      assert text == rest + [""];
      ContentAppends(rest, [""]);
      assert Content([""]) == [];
    }
  }

  lemma BlankIsNoMarker(line: Line)
    requires Blank(line)
    ensures MarkerOf(line) == None
  {
    var indent := RunLength(line, ' ');
    assert indent < |line| ==> IsSpace(line[indent]);
  }

  /** The first line that is not blank always shows. */
  lemma {:induction false} FirstContentShows(text: Text)
    ensures FirstOf(Content(Visible(None, text))) == FirstOf(Content(text))
    decreases |text|
  {
    if text != [] {
      if Blank(text[0]) {
        BlankIsNoMarker(text[0]);
        FirstContentShows(text[1..]);
        assert Visible(None, text) == [text[0]] + Visible(None, text[1..]);
        ContentAppends([text[0]], Visible(None, text[1..]));
        ContentAppends([text[0]], text[1..]);
        assert text == [text[0]] + text[1..] && Content([text[0]]) == [];
      } else {
        var rest := Visible(Next(None, text[0]), text[1..]);
        ContentAppends([text[0]], rest);
        assert Content([text[0]]) == [text[0]];
      }
    }
  }

  /** What a roll-up puts first below the heading: the version, or a fragment's entry. */
  lemma FirstOfRollUp(base: Text, fragments: seq<Text>, cut: Option<Cut>)
    requires UNRELEASED in base && fragments != [] && Acceptable(fragments[0])
    ensures var first := FirstBelow(Render(base, fragments, cut).value);
            first.Some? && if cut.Some? then first.value == Heading(cut.value) else IsEntry(first.value)
  {
    var at, blocks := PastFirst(base, UNRELEASED), AllBlocks(fragments, cut);
    BlocksOpen(fragments, cut);
    RollUpKeepsTheRest(base, fragments, cut);
    BelowSplice(base[..at], Joined(blocks), Tail(base[at..]));
    SpliceOpens(blocks, Tail(base[at..]));
  }

  lemma BelowSplice(above: Text, middle: Text, tail: Text)
    ensures (above + [""] + middle + tail)[|above|..] == [""] + middle + tail
  {
    assert above + [""] + middle + tail == above + ([""] + middle + tail);
  }

  lemma BlocksOpen(fragments: seq<Text>, cut: Option<Cut>)
    requires fragments != [] && Acceptable(fragments[0])
    ensures var blocks := AllBlocks(fragments, cut);
            && blocks != [] && Content(blocks[0]) != []
            && if cut.Some? then Content(blocks[0])[0] == Heading(cut.value) else IsEntry(Content(blocks[0])[0])
  {
    var blocks := AllBlocks(fragments, cut);
    if cut.Some? {
      HeadingIsContent(cut.value);
      assert blocks[0] == [Heading(cut.value)];
    } else {
      FragmentOpens(fragments[0]);
      assert blocks[0] == Stripped(fragments[0]);
    }
  }

  lemma SpliceOpens(blocks: seq<Text>, tail: Text)
    requires blocks != [] && Content(blocks[0]) != []
    ensures FirstOf(Content([""] + Joined(blocks) + tail)) == FirstOf(Content(blocks[0]))
  {
    JoinedOpens(blocks);
    ContentAppends([""], Joined(blocks));
    ContentAppends([""] + Joined(blocks), tail);
    assert Content([""]) == [];
  }

  lemma HeadingIsContent(cut: Cut)
    ensures Content([Heading(cut)]) == [Heading(cut)]
  {
    assert Heading(cut)[0] == '#';
  }

  lemma FragmentOpens(fragment: Text)
    requires Acceptable(fragment)
    ensures FirstOf(Content(Stripped(fragment))).Some? && IsEntry(Content(Stripped(fragment))[0])
  {
    FirstContentShows(fragment);
    ContentOfStart(fragment);
    ContentOfEnd(DropEmpty(fragment));
  }

  lemma JoinedOpens(blocks: seq<Text>)
    requires blocks != [] && Content(blocks[0]) != []
    ensures FirstOf(Content(Joined(blocks))) == FirstOf(Content(blocks[0]))
  {
    if |blocks| > 1 {
      ContentAppends(blocks[0], [""]);
      ContentAppends(blocks[0] + [""], Joined(blocks[1..]));
    }
  }

  // ---- the checker accepts exactly the assembler's output ----

  /** The roll-up arm of `check`: recompute with the version the text itself shows. */
  predicate Accepted(base: Text, next: Text, fragments: seq<Text>) {
    Render(base, fragments, VersionCut(base, next)) == Some(next)
  }

  /** `version_cut` recovers the version given, unless the changelog already
      began with that very heading. */
  lemma CutRecovered(base: Text, fragments: seq<Text>, cut: Option<Cut>)
    requires UNRELEASED in base && fragments != [] && Acceptable(fragments[0])
    requires cut.Some? ==> ValidCut(cut.value)
    ensures VersionCut(base, Render(base, fragments, cut).value) ==
            if cut.Some? && FirstBelow(base) == Some(Heading(cut.value)) then None else cut
  {
    FirstOfRollUp(base, fragments, cut);
    if cut.Some? {
      HeadingRoundTrip(cut.value);
    } else {
      var first := FirstBelow(Render(base, fragments, cut).value).value;
      assert first[2] == ENTRY[2];
    }
  }

  /** A roll-up is accepted exactly when its version heading is new. */
  lemma RollUpAccepted(base: Text, fragments: seq<Text>, cut: Option<Cut>)
    requires UNRELEASED in base && fragments != [] && Acceptable(fragments[0])
    requires cut.Some? ==> ValidCut(cut.value)
    ensures Accepted(base, Render(base, fragments, cut).value, fragments) <==>
            (cut.Some? ==> FirstBelow(base) != Some(Heading(cut.value)))
  {
    CutRecovered(base, fragments, cut);
    if cut.Some? { VersionShows(base, fragments, cut.value); }
  }

  /** With and without a version, the roll-up is not the same text. */
  lemma VersionShows(base: Text, fragments: seq<Text>, cut: Cut)
    requires UNRELEASED in base && fragments != [] && Acceptable(fragments[0])
    ensures Render(base, fragments, None) != Render(base, fragments, Some(cut))
  {
    FirstOfRollUp(base, fragments, Some(cut));
    FirstOfRollUp(base, fragments, None);
    assert Heading(cut)[2] == ' ' && ENTRY[2] == '#';
  }

  /** Nothing else is accepted: a text passes as a roll-up exactly when it is what
      the assembler writes without a version, or with one whose heading is new. */
  lemma OnlyRollUpsAccepted(base: Text, next: Text, fragments: seq<Text>)
    requires UNRELEASED in base && fragments != [] && Acceptable(fragments[0])
    ensures Accepted(base, next, fragments) <==>
            Some(next) == Render(base, fragments, None) ||
            exists cut :: ValidCut(cut) && FirstBelow(base) != Some(Heading(cut)) && Some(next) == Render(base, fragments, Some(cut))
  {
    if Accepted(base, next, fragments) {
      var cut := VersionCut(base, next);
      if cut.Some? { ParsedIsPrinted(FirstBelow(next).value); }
    }
    if Some(next) == Render(base, fragments, None) {
      RollUpAccepted(base, fragments, None);
    }
    forall cut | ValidCut(cut) && FirstBelow(base) != Some(Heading(cut)) && Some(next) == Render(base, fragments, Some(cut))
      ensures Accepted(base, next, fragments)
    {
      RollUpAccepted(base, fragments, Some(cut));
    }
  }

  /** `assemble`: refuses every bad fragment, then writes the roll-up. */
  method Assemble(base: Text, fragments: seq<Text>, cut: Option<Cut>) returns (next: Option<Text>)
    ensures fragments == [] && cut.None? ==> next == Some(base)
    ensures fragments != [] || cut.Some? ==>
              (next.Some? <==> UNRELEASED in base && forall i | 0 <= i < |fragments| :: Acceptable(fragments[i]))
    ensures (fragments != [] || cut.Some?) && next.Some? ==> next == Render(base, fragments, cut)
  {
    if fragments == [] && cut.None? {
      return Some(base);
    }
    for i := 0 to |fragments|
      invariant forall k | 0 <= k < i :: Acceptable(fragments[k])
    {
      var problems := FragmentProblems(fragments[i]);
      if problems != [] {
        return None;
      }
    }
    next := Render(base, fragments, cut);
  }

  predicate NoMarkers(text: Text) {
    forall i | 0 <= i < |text| :: MarkerOf(text[i]).None?
  }

  lemma {:induction false} HiddenInFence(fence: Fence, text: Text)
    requires fence.Some? && NoMarkers(text)
    ensures After(fence, text) == fence && Visible(fence, text) == []
    decreases |text|
  {
    if text != [] {
      assert MarkerOf(text[0]).None?;
      HiddenInFence(fence, text[1..]);
    }
  }

  /** Where the first Unreleased heading lies inside a fence, it is taken all the same.
      Fragments that leave that fence as it was then count only what shows inside it: the
      roll-up conserves entries exactly if none of theirs is hidden. */
  lemma FencedHeadingConserves(base: Text, fragments: seq<Text>, cut: Option<Cut>)
    requires UNRELEASED in base && AllBlocks(fragments, cut) != [] && Closed(fragments)
    requires var fence := After(None, base[..PastFirst(base, UNRELEASED)]);
             After(fence, Joined(AllBlocks(fragments, cut))) == fence
    ensures var fence := After(None, base[..PastFirst(base, UNRELEASED)]);
            var middle := Joined(AllBlocks(fragments, cut));
            Entries(Render(base, fragments, cut).value) == Entries(base) + Sum(fragments)
            <==> EntriesFrom(fence, middle) == Entries(middle)
  {
    var at, blocks := PastFirst(base, UNRELEASED), AllBlocks(fragments, cut);
    var above, below := base[..at], base[at..];
    RenderSplices(base, fragments, cut);
    assert base == above + below;
    FencedSplice(above, Joined(blocks), below);
    AllBlocksAddUp(fragments, cut);
    JoinedAddsUp(blocks);
  }

  lemma FencedSplice(before: Text, middle: Text, below: Text)
    requires After(After(None, before), middle) == After(None, before)
    ensures Entries(before + [""] + middle + Tail(below)) == Entries(before + below) + EntriesFrom(After(None, before), middle)
  {
    var fence := After(None, before);
    EmptyLineIsNothing(fence);
    EntriesCompose(None, before, [""]);
    EntriesCompose(None, before + [""], middle);
    EntriesCompose(None, before + [""] + middle, Tail(below));
    TailKeepsIn(fence, below);
    EntriesCompose(None, before, below);
  }

  /** Fragments without fences of their own lose every entry there. */
  lemma FencedHeadingHidesEntries(base: Text, fragments: seq<Text>)
    requires UNRELEASED in base && fragments != []
    requires After(None, base[..PastFirst(base, UNRELEASED)]).Some?
    requires NoMarkers(Joined(Blocks(fragments)))
    ensures Entries(Render(base, fragments, None).value) == Entries(base)
  {
    var at, blocks := PastFirst(base, UNRELEASED), Blocks(fragments);
    var above, below := base[..at], base[at..];
    assert [] + blocks == blocks;
    RenderSplices(base, fragments, None);
    assert base == above + below;
    HiddenInFence(After(None, above), Joined(blocks));
    assert CountEntries([]) == 0;
    FencedSplice(above, Joined(blocks), below);
  }

  lemma TailKeepsIn(fence: Fence, text: Text)
    ensures EntriesFrom(fence, Tail(text)) == EntriesFrom(fence, text)
  {
    DropEmptyKeeps(fence, text);
    EmptyLineIsNothing(fence);
    EntriesCompose(fence, [""], DropEmpty(text));
    assert [""] + [] == [""];
  }
}
