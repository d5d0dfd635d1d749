/** Complete lines of a transcript and the compaction rows in them. */
module Transcripts {
  import opened Common

  const NEWLINE: Byte := 10
  /** The bytes `"compact_boundary"`, quotes included. */
  const MARKER: Bytes :=
    [0x22, 0x63, 0x6f, 0x6d, 0x70, 0x61, 0x63, 0x74, 0x5f, 0x62, 0x6f, 0x75, 0x6e, 0x64, 0x61, 0x72, 0x79, 0x22]

  /** One boundary row, as the transcript reader parses it from a line. */
  datatype Entry = Entry(uuid: string, at: string, session: string, trigger: string)

  /** The reader of one line: any function at all. */
  type Parser = Bytes -> Option<Entry>

  predicate Contains(line: Bytes, part: Bytes) {
    part <= line || (line != [] && Contains(line[1..], part))
  }

  function RowOfLine(parse: Parser, line: Bytes): Option<Entry> {
    if Contains(line, MARKER) then parse(line) else None
  }

  function RowsOfLine(parse: Parser, line: Bytes): seq<Entry> {
    var row := RowOfLine(parse, line);
    if row.Some? then [row.value] else []
  }

  /** The rows of the lines that end within `b`, the first of which began with
      `begun`; a line without its newline has none yet. */
  function Scan(parse: Parser, begun: Bytes, b: Bytes): seq<Entry>
    decreases |b|
  {
    if b == [] then []
    else if b[0] == NEWLINE then RowsOfLine(parse, begun) + Scan(parse, [], b[1..])
    else Scan(parse, begun + [b[0]], b[1..])
  }

  /** The line still open at the end of `b`. */
  function Open(begun: Bytes, b: Bytes): Bytes
    decreases |b|
  {
    if b == [] then begun
    else Open(if b[0] == NEWLINE then [] else begun + [b[0]], b[1..])
  }

  /** The rows of the complete lines, in order. */
  function Rows(parse: Parser, b: Bytes): seq<Entry> {
    Scan(parse, [], b)
  }

  /** Just past a newline, or at the start of the file. */
  predicate LineStart(b: Bytes, at: nat)
    requires at <= |b|
  {
    at == 0 || b[at - 1] == NEWLINE
  }

  lemma {:induction false} ScanAppend(parse: Parser, begun: Bytes, a: Bytes, b: Bytes)
    ensures Scan(parse, begun, a + b) == Scan(parse, begun, a) + Scan(parse, Open(begun, a), b)
    decreases |a|
  {
    if a == [] {
      assert a + b == b;
    } else {
      assert (a + b)[0] == a[0] && (a + b)[1..] == a[1..] + b;
      ScanAppend(parse, if a[0] == NEWLINE then [] else begun + [a[0]], a[1..], b);
    }
  }

  lemma {:induction false} NothingOpen(begun: Bytes, a: Bytes)
    requires a != [] && a[|a| - 1] == NEWLINE
    ensures Open(begun, a) == []
    decreases |a|
  {
    if |a| > 1 {
      NothingOpen(if a[0] == NEWLINE then [] else begun + [a[0]], a[1..]);
    }
  }

  lemma {:induction false} ScanUnfinished(parse: Parser, begun: Bytes, rest: Bytes)
    requires NEWLINE !in rest
    ensures Scan(parse, begun, rest) == [] && Open(begun, rest) == begun + rest
    decreases |rest|
  {
    if rest != [] {
      ScanUnfinished(parse, begun + [rest[0]], rest[1..]);
      assert begun + [rest[0]] + rest[1..] == begun + rest;
    }
  }

  /** Reading composes at line starts. */
  lemma RowsAppend(parse: Parser, a: Bytes, b: Bytes)
    requires LineStart(a, |a|)
    ensures Rows(parse, a + b) == Rows(parse, a) + Rows(parse, b)
  {
    ScanAppend(parse, [], a, b);
    if a != [] { NothingOpen([], a); }
  }

  /** Two reads that meet at a line start are one read. */
  lemma RowsSplit(parse: Parser, b: Bytes, lo: nat, mid: nat, hi: nat)
    requires lo <= mid <= hi <= |b| && LineStart(b, mid)
    ensures Rows(parse, b[lo..hi]) == Rows(parse, b[lo..mid]) + Rows(parse, b[mid..hi])
  {
    assert b[lo..hi] == b[lo..mid] + b[mid..hi];
    if lo < mid { assert b[lo..mid][mid - lo - 1] == b[mid - 1]; }
    RowsAppend(parse, b[lo..mid], b[mid..hi]);
  }

  /** One line and its newline. */
  lemma RowsLine(parse: Parser, line: Bytes, rest: Bytes)
    requires NEWLINE !in line
    ensures Rows(parse, line + [NEWLINE] + rest) == RowsOfLine(parse, line) + Rows(parse, rest)
  {
    assert line + [NEWLINE] + rest == line + ([NEWLINE] + rest);
    ScanAppend(parse, [], line, [NEWLINE] + rest);
    ScanUnfinished(parse, [], line);
    assert ([NEWLINE] + rest)[1..] == rest && [] + line == line;
  }

  method FindNewline(data: Bytes) returns (at: nat)
    ensures at <= |data| && (at < |data| ==> data[at] == NEWLINE)
    ensures NEWLINE !in data[..at]
  {
    at := 0;
    while at < |data| && data[at] != NEWLINE
      invariant 0 <= at <= |data|
      invariant NEWLINE !in data[..at]
    {
      at := at + 1;
    }
  }

  /** rfind: how many bytes up to and including the last newline. */
  method PastLastNewline(data: Bytes) returns (n: nat)
    ensures n <= |data| && LineStart(data, n)
    ensures NEWLINE !in data[n..]
    ensures n == 0 <==> NEWLINE !in data
  {
    n := |data|;
    while n > 0 && data[n - 1] != NEWLINE
      invariant 0 <= n <= |data|
      invariant NEWLINE !in data[n..]
    {
      n := n - 1;
    }
    assert n == 0 ==> data[0..] == data;
  }

  /** The loop over `complete.split(b"\n")`. */
  method CollectRows(parse: Parser, complete: Bytes) returns (rows: seq<Entry>)
    ensures rows == Rows(parse, complete)
  {
    rows := [];
    var rest := complete;
    var k := FindNewline(rest);
    while k < |rest|
      invariant 0 <= k <= |rest| && (k < |rest| ==> rest[k] == NEWLINE) && NEWLINE !in rest[..k]
      invariant Rows(parse, complete) == rows + Rows(parse, rest)
      decreases |rest|
    {
      var line := rest[..k];
      RowsLine(parse, line, rest[k + 1..]);
      assert rest == line + [NEWLINE] + rest[k + 1..];
      rows := rows + RowsOfLine(parse, line);
      rest := rest[k + 1..];
      k := FindNewline(rest);
    }
    assert rest[..k] == rest;
    ScanUnfinished(parse, [], rest);
  }

  /** `_boundaries`: one read of bytes [start, end), whose first whole line
      begins at `from`. `None` is the error for a file that shrank. */
  method Boundaries(parse: Parser, file: Bytes, start: nat, end: nat, aligned: bool)
    returns (read: Option<(seq<Entry>, nat)>, from: nat)
    requires start <= end
    ensures read.Some? <==> end <= |file|
    ensures read.Some? ==> Read(parse, file, start, end, aligned, read.value.0, read.value.1, from)
  {
    from := start;
    if |file| < end { return None, from; }
    var data := file[start..end];
    var n := PastLastNewline(data);
    if n == 0 {
      assert file[start..start] == [];
      return Some(([], start)), from;
    }
    var complete := data[..n];
    assert complete == file[start..start + n] && data[n..] == file[start + n..end];
    assert file[start + n - 1] == data[n - 1] == NEWLINE;
    if !aligned {
      var k := FindNewline(complete);
      assert k < n by { assert complete[n - 1] == NEWLINE; }
      assert file[start + k] == complete[k] && file[start..start + k] == complete[..k];
      complete := complete[k + 1..];
      from := start + k + 1;
      assert complete == file[from..start + n];
    }
    var rows := CollectRows(parse, complete);
    read := Some((rows, start + n));
  }

  /** What one read returns: the rows of the whole lines it completes, and the
      offset just past the last of them. */
  ghost predicate Read(parse: Parser, file: Bytes, start: nat, end: nat, aligned: bool,
                       rows: seq<Entry>, next: nat, from: nat) {
    && start <= from <= next <= end <= |file|
    && rows == Rows(parse, file[from..next])
    && NEWLINE !in file[next..end]
    && (start < next ==> LineStart(file, next))
    && (start == next <==> NEWLINE !in file[start..end])
    && (if aligned || start == next then from == start
        else start < from && LineStart(file, from) && NEWLINE !in file[start..from - 1])
  }

  /** A cursor stays on a line start exactly when the read began on one or
      completed a line. */
  lemma CursorOnLineStart(parse: Parser, file: Bytes, start: nat, end: nat, aligned: bool,
                          rows: seq<Entry>, next: nat, from: nat)
    requires Read(parse, file, start, end, aligned, rows, next, from)
    ensures LineStart(file, next) <==> LineStart(file, start) || NEWLINE in file[start..end]
  {
  }

  /** A read that begins inside a line and completes none leaves its cursor there. */
  lemma CursorInsideLine(parse: Parser)
    ensures exists file: Bytes, start: nat ::
              (start <= |file| && !LineStart(file, start) && Read(parse, file, start, |file|, false, [], start, start))
  {
    var file: Bytes := [0x7b, 0x7d];
    ScanUnfinished(parse, [], []);
    assert !LineStart(file, 1) && file[1..1] == [];
    assert Read(parse, file, 1, 2, false, [], 1, 1);
  }

  /** The complete line at [a, b), its newline included. */
  ghost predicate LineAt(file: Bytes, a: nat, b: nat) {
    a < b <= |file| && LineStart(file, a) && file[b - 1] == NEWLINE && NEWLINE !in file[a..b - 1]
  }

  /** The row of a line inside a stretch, among the stretch's rows. */
  lemma LineInSpan(parse: Parser, file: Bytes, lo: nat, a: nat, b: nat, hi: nat)
    requires LineAt(file, a, b) && lo <= a && b <= hi <= |file|
    ensures Rows(parse, file[lo..hi]) == Rows(parse, file[lo..a]) + RowsOfLine(parse, file[a..b - 1]) + Rows(parse, file[b..hi])
  {
    RowsSplit(parse, file, lo, a, hi);
    RowsSplit(parse, file, a, b, hi);
    RowsLine(parse, file[a..b - 1], []);
    ScanUnfinished(parse, [], []);
    assert file[a..b] == file[a..b - 1] + [NEWLINE] + [];
  }

  lemma Bare(file: Bytes, lo: nat, hi: nat)
    requires lo <= hi <= |file| && NEWLINE !in file[lo..hi]
    ensures forall k | lo <= k < hi :: file[k] != NEWLINE
  {
    forall k | lo <= k < hi ensures file[k] != NEWLINE { assert file[lo..hi][k - lo] == file[k]; }
  }

  /** A complete line in the read window is read, with its row, unless the read is not
      aligned and begins on that very line's start: then it goes for the rest of a line. */
  lemma LineReadUnlessFirst(parse: Parser, file: Bytes, start: nat, end: nat, aligned: bool,
                            rows: seq<Entry>, next: nat, from: nat, a: nat, b: nat)
    requires Read(parse, file, start, end, aligned, rows, next, from)
    requires LineAt(file, a, b) && start <= a && b <= end
    ensures b <= next
    ensures from <= a <==> aligned || a != start
    ensures from <= a ==> rows == Rows(parse, file[from..a]) + RowsOfLine(parse, file[a..b - 1]) + Rows(parse, file[b..next])
    ensures a < from ==> from == b && rows == Rows(parse, file[b..next])
  {
    assert NEWLINE in file[start..end] by { assert file[start..end][b - 1 - start] == file[b - 1]; }
    Bare(file, next, end);
    Bare(file, a, b - 1);
    if !aligned { Bare(file, start, from - 1); }
    if from <= a { LineInSpan(parse, file, from, a, b, next); }
  }

  /** So a whole boundary line can be lost uncounted: the cap's window begins just past
      a newline, and the row of the line that starts there is never recorded. */
  lemma WholeLineDropped(parse: Parser, row: Entry)
    requires parse(MARKER) == Some(row)
    ensures var file: Bytes := [0x41, NEWLINE] + MARKER + [NEWLINE];
            && |file| == 21 && LineStart(file, 2) && Rows(parse, file[2..21]) == [row]
            && Read(parse, file, 2, 21, false, [], 21, 21)
  {
    var file: Bytes := [0x41, NEWLINE] + MARKER + [NEWLINE];
    assert forall k | 0 <= k < |MARKER| :: MARKER[k] != NEWLINE;
    assert file[2..21] == MARKER + [NEWLINE] + [] && file[2..20] == MARKER;
    RowsLine(parse, MARKER, []);
    assert Contains(MARKER, MARKER);
    ScanUnfinished(parse, [], []);
    assert file[21..21] == [] && file[20] == NEWLINE;
    assert file[2..21][18] == NEWLINE;
  }

  /** One saved pass over a followed transcript: its bytes then, and the size listed. */
  datatype Pass = Pass(file: Bytes, end: nat)

  ghost predicate Appending(passes: seq<Pass>) {
    && (forall i | 0 <= i < |passes| :: passes[i].end <= |passes[i].file|)
    && forall i | 0 < i < |passes| :: passes[i - 1].file <= passes[i].file && passes[i - 1].end <= passes[i].end
  }

  lemma RowsOfPrefix(parse: Parser, file: Bytes, grown: Bytes, lo: nat, hi: nat)
    requires file <= grown && lo <= hi <= |file|
    ensures grown[lo..hi] == file[lo..hi]
  {
  }

  /** Incremental reading is one whole read: every row once, in order, and the
      cursor always just past a newline with no complete line left behind it. */
  method Follow(parse: Parser, passes: seq<Pass>, start: nat) returns (rows: seq<Entry>, cursor: nat)
    requires Appending(passes) && passes != []
    requires start <= passes[0].end && LineStart(passes[0].file, start)
    ensures var last := passes[|passes| - 1];
            && start <= cursor <= last.end && LineStart(last.file, cursor)
            && rows == Rows(parse, last.file[start..cursor])
            && NEWLINE !in last.file[cursor..last.end]
  {
    rows, cursor := [], start;
    var i := 0;
    while i < |passes|
      invariant 0 <= i <= |passes| && start <= cursor
      invariant i == 0 ==> rows == [] && cursor == start
      invariant i > 0 ==> cursor <= passes[i - 1].end && LineStart(passes[i - 1].file, cursor)
      invariant i > 0 ==> rows == Rows(parse, passes[i - 1].file[start..cursor])
      invariant i > 0 ==> NEWLINE !in passes[i - 1].file[cursor..passes[i - 1].end]
    {
      var pass := passes[i];
      if i > 0 { RowsOfPrefix(parse, passes[i - 1].file, pass.file, start, cursor); }
      else { ScanUnfinished(parse, [], pass.file[start..start]); }
      assert rows == Rows(parse, pass.file[start..cursor]) && LineStart(pass.file, cursor);
      var read, from := Boundaries(parse, pass.file, cursor, pass.end, true);
      RowsSplit(parse, pass.file, start, cursor, read.value.1);
      rows, cursor := rows + read.value.0, read.value.1;
      i := i + 1;
    }
  }
}
