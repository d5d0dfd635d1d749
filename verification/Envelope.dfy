/** The reference-refresh envelope that a handoff file may open with: its printer and
    the parser that splits it off again, on texts as their lines. */
module Envelope {
  import opened Common

  type Line = string
  /** A text split at its newlines: one line more than it has newlines. */
  type Text = seq<Line>

  datatype Field = ReferencesRefreshed | LastUpdated

  function Key(field: Field): Line {
    match field
    case ReferencesRefreshed => "references_refreshed: "
    case LastUpdated => "last_updated: "
  }

  const RULE: Line := "---"
  const OWNER: Line := "<!-- claudlobby first-adoption"
  const MARK: Line := OWNER + " reference refresh"
  const BEGIN: Line := MARK + " begin -->"
  const END: Line := MARK + " end -->"

  /** The lines from the begin line to the empty one, around what the reader is told. */
  function Note(told: Text): Text {
    [BEGIN] + told + [END, ""]
  }

  /** `_refresh_envelope`: the lines it writes, each ended by its newline. */
  function Refresh(told: Text, directory: Text, timestamp: Line, field: Field): Text
    requires directory != []
  {
    Head(directory, timestamp, field) + Note(told)
  }

  function Head(directory: Text, timestamp: Line, field: Field): Text
    requires directory != []
  {
    [RULE] + Fields(directory, timestamp, field) + [RULE]
  }

  function Fields(directory: Text, timestamp: Line, field: Field): Text
    requires directory != []
  {
    ["cwd: " + directory[0]] + directory[1..] + [Key(field) + timestamp, "schema_version: 2"]
  }

  // ---- what the parser looks for ----

  predicate IsByteSpace(c: char) {
    c == ' ' || '\t' <= c <= '\r'
  }

  predicate Word(text: Line) {
    text != [] && forall k | 0 <= k < |text| :: !IsByteSpace(text[k])
  }

  /** The shape of a timestamp: four digits, two digits, and so on to the Z. */
  predicate Timestamp(text: Line) {
    |text| == 20 && forall k | 0 <= k < 20 :: Shaped(k, text[k])
  }

  predicate Shaped(k: nat, c: char) {
    if k == 4 || k == 7 then c == '-'
    else if k == 10 then c == 'T'
    else if k == 13 || k == 16 then c == ':'
    else if k == 19 then c == 'Z'
    else '0' <= c <= '9'
  }

  /** The number of lines before the first rule. */
  function UpToRule(text: Text): (n: nat)
    ensures n <= |text| && RULE !in text[..n]
    ensures n < |text| ==> text[n] == RULE
  {
    if text == [] || text[0] == RULE then 0 else 1 + UpToRule(text[1..])
  }

  /** The word on the first line that is a key and one word. */
  function Search(text: Text, key: Line): Option<Line> {
    if text == [] then None
    else if key <= text[0] && Word(text[0][|key|..]) then Some(text[0][|key|..])
    else Search(text[1..], key)
  }

  /** Whether the text starts with these lines and their newlines. */
  predicate StartsWith(text: Text, lines: Text) {
    lines <= text && |lines| < |text|
  }

  /** Where the frontmatter ends: after the first rule below the opening one that has
      its newline; the number of lines up to there. */
  function Frontmatter(text: Text): Option<nat> {
    if !StartsWith(text, [RULE]) then None
    else
      var n := UpToRule(text[1..]) + 2;
      if n < |text| then Some(n) else None
  }

  datatype Result = Rest(text: Text) | Malformed

  /** The text after the envelope that the timestamp of one field gives, if it opens so. */
  function After(told: Text, text: Text, directory: Text, head: Text, field: Field): Option<Text>
    requires directory != []
  {
    var found := Search(head, Key(field));
    if found.Some? && Timestamp(found.value) && StartsWith(text, Refresh(told, directory, found.value, field))
    then Some(text[|Refresh(told, directory, found.value, field)|..])
    else None
  }

  /** `_strip_envelope`. */
  function Strip(told: Text, previous: Text, directory: Text): Result
    requires directory != []
  {
    var end := Frontmatter(previous);
    if end.None? || !StartsWith(previous[end.value..], [BEGIN]) then Rest(previous)
    else
      var head := previous[..end.value];
      var refreshed := After(told, previous, directory, head, ReferencesRefreshed);
      var updated := After(told, previous, directory, head, LastUpdated);
      if refreshed.Some? then Rest(refreshed.value)
      else if updated.Some? then Rest(updated.value)
      else Malformed
  }

  // ---- the printed form, read back ----

  lemma {:induction false} UpToRuleIs(lines: Text, more: Text)
    requires RULE !in lines
    ensures UpToRule(lines + [RULE] + more) == |lines|
    decreases |lines|
  {
    if lines != [] {
      UpToRuleIs(lines[1..], more);
      assert (lines + [RULE] + more)[1..] == lines[1..] + [RULE] + more;
    }
  }

  predicate Shows(line: Line, key: Line) {
    key <= line && Word(line[|key|..])
  }

  /** A search passes over lines that do not show the key. */
  lemma {:induction false} SearchPast(lines: Text, more: Text, key: Line)
    requires forall k | 0 <= k < |lines| :: !Shows(lines[k], key)
    ensures Search(lines + more, key) == Search(more, key)
    decreases |lines|
  {
    if lines == [] {
      assert lines + more == more;
    } else {
      SearchPast(lines[1..], more, key);
      assert (lines + more)[1..] == lines[1..] + more;
      assert !Shows(lines[0], key);
    }
  }

  lemma TimestampIsWord(timestamp: Line)
    requires Timestamp(timestamp)
    ensures Word(timestamp)
  {
    forall k | 0 <= k < |timestamp| ensures !IsByteSpace(timestamp[k]) {
      assert Shaped(k, timestamp[k]);
    }
  }

  /** No other printed line shows a key: their first characters differ. */
  lemma OtherLines(directory: Line, timestamp: Line, field: Field, key: Line)
    requires key == Key(ReferencesRefreshed) || key == Key(LastUpdated)
    ensures !Shows(RULE, key) && !Shows("cwd: " + directory, key) && !Shows("schema_version: 2", key)
    ensures key != Key(field) ==> !Shows(Key(field) + timestamp, key)
    ensures RULE != "cwd: " + directory && RULE != Key(field) + timestamp && RULE != "schema_version: 2"
  {
    assert key[0] == 'r' || key[0] == 'l';
    assert ("cwd: " + directory)[0] == 'c' && (Key(field) + timestamp)[0] == Key(field)[0];
    assert Key(ReferencesRefreshed)[0] == 'r' && Key(LastUpdated)[0] == 'l';
  }

  /** The printed header shows its timestamp under its key, and none under the other. */
  lemma HeadShows(directory: Line, timestamp: Line, field: Field, other: Field)
    requires Timestamp(timestamp)
    ensures Search(Head([directory], timestamp, field), Key(other)) == if other == field then Some(timestamp) else None
  {
    TimestampIsWord(timestamp);
    var key := Key(other);
    OtherLines(directory, timestamp, field, key);
    var before, line, after := [RULE, "cwd: " + directory], Key(field) + timestamp, ["schema_version: 2", RULE];
    assert Head([directory], timestamp, field) == before + ([line] + after);
    SearchPast(before, [line] + after, key);
    SearchPast(after, [], key);
    assert after + [] == after;
    if other == field {
      assert line[|key|..] == timestamp;
    } else {
      KeysDiffer(other, field);
      SearchPast([line], after, key);
    }
  }

  lemma KeysDiffer(a: Field, b: Field)
    requires a != b
    ensures Key(a) != Key(b)
  {
    assert Key(ReferencesRefreshed)[0] == 'r' && Key(LastUpdated)[0] == 'l';
  }

  /** The printed frontmatter ends where its last rule is. */
  lemma HeadEnds(directory: Line, timestamp: Line, field: Field, more: Text)
    requires more != []
    ensures Frontmatter(Head([directory], timestamp, field) + more) == Some(5)
  {
    OtherLines(directory, timestamp, field, Key(field));
    var fields := Fields([directory], timestamp, field);
    assert fields == ["cwd: " + directory, Key(field) + timestamp, "schema_version: 2"];
    UpToRuleIs(fields, more);
    assert (Head([directory], timestamp, field) + more)[1..] == fields + [RULE] + more;
  }

  /** Parsing undoes printing, whatever follows the envelope. */
  lemma RoundTrip(told: Text, directory: Line, timestamp: Line, field: Field, rest: Text)
    requires Timestamp(timestamp) && rest != []
    ensures Strip(told, Refresh(told, [directory], timestamp, field) + rest, [directory]) == Rest(rest)
  {
    var head := Head([directory], timestamp, field);
    var text := Refresh(told, [directory], timestamp, field) + rest;
    assert text == head + (Note(told) + rest);
    HeadEnds(directory, timestamp, field, Note(told) + rest);
    HeadShows(directory, timestamp, field, ReferencesRefreshed);
    HeadShows(directory, timestamp, field, LastUpdated);
    assert |head| == 5 && text[..5] == head && text[5..] == Note(told) + rest;
    assert After(told, text, [directory], head, field) == Some(rest);
  }

  // ---- exactly what is split off ----

  /** A file that opens with a frontmatter, from its opening rule to the next one, and
      at once the begin line. */
  ghost predicate Opens(text: Text) {
    exists n :: 2 <= n < |text| - 1 && IsFrontmatter(text[..n]) && text[n] == BEGIN
  }

  ghost predicate IsFrontmatter(lines: Text) {
    |lines| >= 2 && lines[0] == RULE && lines[|lines| - 1] == RULE && RULE !in lines[1..|lines| - 1]
  }

  lemma OpensIsTheBranch(text: Text)
    ensures Opens(text) <==> Frontmatter(text).Some? && StartsWith(text[Frontmatter(text).value..], [BEGIN])
  {
    if n :| 2 <= n < |text| - 1 && IsFrontmatter(text[..n]) && text[n] == BEGIN {
      FrontmatterEnds(text, n);
    }
    var end := Frontmatter(text);
    if end.Some? && StartsWith(text[end.value..], [BEGIN]) {
      EndIsFrontmatter(text, end.value);
      assert text[end.value..][0] == BEGIN;
    }
  }

  lemma FrontmatterEnds(text: Text, n: nat)
    requires 2 <= n < |text| && IsFrontmatter(text[..n])
    ensures Frontmatter(text) == Some(n)
  {
    var lines, fields := text[..n], text[1..n - 1];
    assert lines[1..n - 1] == fields && lines[0] == text[0] && lines[n - 1] == text[n - 1];
    UpToRuleIs(fields, text[n..]);
    assert text[1..] == fields + [text[n - 1]] + text[n..];
  }

  lemma EndIsFrontmatter(text: Text, n: nat)
    requires Frontmatter(text) == Some(n)
    ensures 2 <= n < |text| && IsFrontmatter(text[..n])
  {
    assert text[..n][1..n - 1] == text[1..][..n - 2];
    assert text[..n][n - 1] == text[1..][n - 2];
  }

  /** A session's own handoff is never touched. */
  lemma OwnTextStays(told: Text, previous: Text, directory: Text)
    requires directory != [] && !Opens(previous)
    ensures Strip(told, previous, directory) == Rest(previous)
  {
    OpensIsTheBranch(previous);
  }

  /** Of a file that opens like an envelope, the parser gives up a rest if and only if
      the file is an envelope the printer prints for this directory, then that rest;
      every other one is refused. */
  lemma StripsExactlyThePrinted(told: Text, previous: Text, directory: Line, rest: Text)
    requires Opens(previous) && rest != []
    ensures Strip(told, previous, [directory]) == Rest(rest) <==>
            exists timestamp, field :: Timestamp(timestamp) && previous == Refresh(told, [directory], timestamp, field) + rest
  {
    OpensIsTheBranch(previous);
    if timestamp, field :| Timestamp(timestamp) && previous == Refresh(told, [directory], timestamp, field) + rest {
      RoundTrip(told, directory, timestamp, field, rest);
    }
    if Strip(told, previous, [directory]) == Rest(rest) {
      var head := previous[..Frontmatter(previous).value];
      if After(told, previous, [directory], head, ReferencesRefreshed).Some? {
        AfterIsPrinted(told, previous, directory, head, ReferencesRefreshed);
      } else {
        AfterIsPrinted(told, previous, directory, head, LastUpdated);
      }
    }
  }

  lemma AfterIsPrinted(told: Text, text: Text, directory: Line, head: Text, field: Field)
    requires After(told, text, [directory], head, field).Some?
    ensures exists timestamp ::
              Timestamp(timestamp) && text == Refresh(told, [directory], timestamp, field) + After(told, text, [directory], head, field).value
  {
    var timestamp := Search(head, Key(field)).value;
    assert Timestamp(timestamp);
  }

  // ---- the same law on the text itself ----

  /** A text at its newlines. */
  function Split(text: string): (lines: Text)
    ensures lines != []
  {
    if text == "" then [""]
    else
      var rest := Split(text[1..]);
      if text[0] == '\n' then [""] + rest else [[text[0]] + rest[0]] + rest[1..]
  }

  function Join(lines: Text): string
    requires lines != []
  {
    if |lines| == 1 then lines[0] else lines[0] + "\n" + Join(lines[1..])
  }

  /** Lines, each with its newline. */
  function Ended(lines: Text): string {
    if lines == [] then "" else lines[0] + "\n" + Ended(lines[1..])
  }

  lemma {:induction false} JoinSplit(text: string)
    ensures Join(Split(text)) == text
    decreases |text|
  {
    if text != "" {
      JoinSplit(text[1..]);
      var rest := Split(text[1..]);
      assert text == [text[0]] + text[1..];
      if text[0] == '\n' {
        assert ([""] + rest)[1..] == rest;
      } else {
        assert Join([[text[0]] + rest[0]] + rest[1..]) == [text[0]] + Join(rest);
      }
    }
  }

  lemma {:induction false} SplitLine(line: Line, more: string)
    requires '\n' !in line
    ensures Split(line + "\n" + more) == [line] + Split(more)
    decreases |line|
  {
    var text := line + "\n" + more;
    if line == "" {
      assert text[1..] == more;
    } else {
      SplitLine(line[1..], more);
      assert text[1..] == line[1..] + "\n" + more;
      assert [line[0]] + line[1..] == line;
    }
  }

  predicate Lines(text: Text) {
    forall k | 0 <= k < |text| :: '\n' !in text[k]
  }

  lemma {:induction false} SplitEnded(lines: Text, rest: string)
    requires Lines(lines)
    ensures Split(Ended(lines) + rest) == lines + Split(rest)
    decreases |lines|
  {
    if lines == [] {
      assert Ended(lines) + rest == rest;
    } else {
      SplitEnded(lines[1..], rest);
      SplitLine(lines[0], Ended(lines[1..]) + rest);
      assert Ended(lines) + rest == lines[0] + "\n" + (Ended(lines[1..]) + rest);
    }
  }

  lemma NoteIsLines(told: Text)
    requires Lines(told)
    ensures Lines(Note(told))
  {
    assert '\n' !in MARK;
    LinesAppend([BEGIN], told);
    LinesAppend([BEGIN] + told, [END, ""]);
  }

  lemma RefreshIsLines(told: Text, directory: Line, timestamp: Line, field: Field)
    requires '\n' !in directory && Timestamp(timestamp) && Lines(told)
    ensures Lines(Refresh(told, [directory], timestamp, field))
  {
    NoteIsLines(told);
    TimestampIsWord(timestamp);
    assert '\n' !in timestamp;
    var fields := Fields([directory], timestamp, field);
    assert fields == ["cwd: " + directory, Key(field) + timestamp, "schema_version: 2"];
    LinesAppend([RULE], fields);
    LinesAppend([RULE] + fields, [RULE]);
    LinesAppend(Head([directory], timestamp, field), Note(told));
  }

  lemma LinesAppend(a: Text, b: Text)
    requires Lines(a) && Lines(b)
    ensures Lines(a + b)
  {
  }

  /** The printed bytes and then any bytes at all give back exactly those bytes. */
  lemma TextRoundTrip(told: Text, directory: Line, timestamp: Line, field: Field, rest: string)
    requires '\n' !in directory && Timestamp(timestamp) && Lines(told)
    ensures var result := Strip(told, Split(Ended(Refresh(told, [directory], timestamp, field)) + rest), [directory]);
            result.Rest? && result.text != [] && Join(result.text) == rest
  {
    RefreshIsLines(told, directory, timestamp, field);
    SplitEnded(Refresh(told, [directory], timestamp, field), rest);
    RoundTrip(told, directory, timestamp, field, Split(rest));
    JoinSplit(rest);
  }

  /** Only a directory of one line reads back: one whose name goes on with a rule and
      the begin line is printed and then refused. */
  lemma SplitDirectoryIsRefused(told: Text, name: Line, timestamp: Line, field: Field, rest: Text)
    requires rest != []
    ensures var directory := [name, RULE, BEGIN];
            Strip(told, Refresh(told, directory, timestamp, field) + rest, directory) == Malformed
  {
    var directory := [name, RULE, BEGIN];
    var text := Refresh(told, directory, timestamp, field) + rest;
    OtherLines(name, timestamp, field, Key(field));
    var head := [RULE, "cwd: " + name, RULE];
    var more := [BEGIN, Key(field) + timestamp, "schema_version: 2", RULE] + Note(told) + rest;
    assert text == head + more;
    UpToRuleIs(["cwd: " + name], more);
    assert text[1..] == ["cwd: " + name] + [RULE] + more;
    assert text[..3] == head && text[3..] == more;
    forall other: Field ensures Search(head, Key(other)) == None {
      OtherLines(name, timestamp, field, Key(other));
      SearchPast(head, [], Key(other));
      assert head + [] == head;
    }
  }
}
