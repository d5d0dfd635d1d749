/** Recording each bot's compactions once: one pass after another over growing
    transcripts, with a saved cursor and a plane that may refuse or fail. */
module Compactions {
  import opened Common
  import opened Transcripts

  const SEPARATOR: char := '\U{001f}'

  /** An event ID is derived from its material; the digest is taken as injective. */
  datatype EventId = Derived(material: string)
  datatype Event = Event(id: EventId, bot: string, row: Entry)

  function Material(fleet: string, bot: string, session: string, key: string): string {
    "compaction" + [SEPARATOR] + fleet + [SEPARATOR] + bot + [SEPARATOR] + session + [SEPARATOR] + key
  }

  /** `compaction_event`: the row's own session if it names one, its uuid if it has one. */
  function EventOf(fleet: string, bot: string, stem: string, row: Entry): Event {
    Event(Derived(Material(fleet, bot,
                           if row.session != "" then row.session else stem,
                           if row.uuid != "" then row.uuid else row.at)), bot, row)
  }

  function EventsOf(fleet: string, bot: string, stem: string, rows: seq<Entry>): seq<Event> {
    seq(|rows|, i requires 0 <= i < |rows| => EventOf(fleet, bot, stem, rows[i]))
  }

  lemma {:induction false} FieldsOfJoin(a: string, x: string, b: string, y: string)
    requires SEPARATOR !in a && SEPARATOR !in b
    requires a + [SEPARATOR] + x == b + [SEPARATOR] + y
    ensures a == b && x == y
    decreases |a|
  {
    var s, t := a + [SEPARATOR] + x, b + [SEPARATOR] + y;
    if a == [] || b == [] {
      assert s[0] == t[0];
      assert s[1..] == x || a != [];
      assert t[1..] == y || b != [];
    } else {
      assert s[0] == a[0] && t[0] == b[0];
      assert s[1..] == a[1..] + [SEPARATOR] + x && t[1..] == b[1..] + [SEPARATOR] + y;
      FieldsOfJoin(a[1..], x, b[1..], y);
    }
  }

  /** Different rows get different IDs, as long as no field holds the separator. */
  lemma MaterialInjective(fleet: string, bot: string, session: string, key: string,
                          bot': string, session': string, key': string)
    requires SEPARATOR !in fleet && SEPARATOR !in bot && SEPARATOR !in bot'
    requires Material(fleet, bot, session, key) == Material(fleet, bot', session', key')
    ensures bot == bot'
    ensures SEPARATOR !in session && SEPARATOR !in session' ==> session == session' && key == key'
  {
    var head := "compaction";
    var x, y := session + [SEPARATOR] + key, session' + [SEPARATOR] + key';
    assert Material(fleet, bot, session, key) ==
           head + [SEPARATOR] + (fleet + [SEPARATOR] + (bot + [SEPARATOR] + x));
    assert Material(fleet, bot', session', key') ==
           head + [SEPARATOR] + (fleet + [SEPARATOR] + (bot' + [SEPARATOR] + y));
    FieldsOfJoin(head, fleet + [SEPARATOR] + (bot + [SEPARATOR] + x), head, fleet + [SEPARATOR] + (bot' + [SEPARATOR] + y));
    FieldsOfJoin(fleet, bot + [SEPARATOR] + x, fleet, bot' + [SEPARATOR] + y);
    FieldsOfJoin(bot, x, bot', y);
    if SEPARATOR !in session && SEPARATOR !in session' {
      FieldsOfJoin(session, key, session', key');
    }
  }

  // ---- one bot's pass ----

  type Disk = map<string, Bytes>

  /** One directory entry, as the listing saw it. */
  datatype Listed = Listed(name: string, size: nat, mtime: int)

  /** What a bot's transcript directory says to a pass. */
  datatype Directory =
    | Issue(reason: string)
    | Sessions(listed: seq<Listed>, newestIssue: Option<string>, newest: Option<string>, unreadable: set<string>)

  datatype BotState = BotState(passAt: Option<int>, files: map<string, nat>)

  /** What became of a stretch of a transcript: bytes from before the bot was
      followed, bytes skipped for the cap and counted, what an unaligned read drops
      up to its first newline, or bytes read. */
  datatype Kind = Before | Skipped | Dropped | Taken
  datatype Span = Span(kind: Kind, lo: nat, hi: nat)
  type Trace = seq<Span>

  /** The spans lie end to end from 0 to `at`. */
  ghost predicate Contiguous(trace: Trace, at: nat)
    decreases |trace|
  {
    if trace == [] then at == 0
    else
      var last := trace[|trace| - 1];
      last.lo <= last.hi == at && Contiguous(trace[..|trace| - 1], last.lo)
  }

  function Stem(name: string): string {
    if |name| >= 6 then name[..|name| - 6] else []
  }

  /** A stretch is what its kind says: read up to a line start with every row's ID
      among `ids`, or dropped up to its only newline. */
  ghost predicate SpanHolds(parse: Parser, fleet: string, bot: string, name: string, file: Bytes, span: Span, ids: set<EventId>)
  {
    && span.lo <= span.hi <= |file|
    && (span.kind.Taken? ==>
          (span.lo < span.hi ==> LineStart(file, span.hi))
          && forall row | row in Rows(parse, file[span.lo..span.hi]) :: EventOf(fleet, bot, Stem(name), row).id in ids)
    && (span.kind.Dropped? && span.lo < span.hi ==> file[span.hi - 1] == NEWLINE && NEWLINE !in file[span.lo..span.hi - 1])
  }

  /** A cursor with the whole history behind it, nothing read unaccounted for. */
  ghost predicate Accounted(parse: Parser, fleet: string, bot: string, name: string, file: Bytes,
                            trace: Trace, at: nat, ids: set<EventId>)
  {
    && at <= |file| && Contiguous(trace, at)
    && forall i | 0 <= i < |trace| :: SpanHolds(parse, fleet, bot, name, file, trace[i], ids)
  }

  /** Appending to the file and accepting more events keeps every account. */
  lemma AccountedLater(parse: Parser, fleet: string, bot: string, name: string, file: Bytes, grown: Bytes,
                       trace: Trace, at: nat, ids: set<EventId>, more: set<EventId>)
    requires Accounted(parse, fleet, bot, name, file, trace, at, ids)
    requires file <= grown && ids <= more
    ensures Accounted(parse, fleet, bot, name, grown, trace, at, more)
  {
    forall i | 0 <= i < |trace| ensures SpanHolds(parse, fleet, bot, name, grown, trace[i], more) {
      assert SpanHolds(parse, fleet, bot, name, file, trace[i], ids);
      var span := trace[i];
      assert grown[span.lo..span.hi] == file[span.lo..span.hi];
      if span.kind.Dropped? && span.lo < span.hi {
        assert grown[span.lo..span.hi - 1] == file[span.lo..span.hi - 1];
      }
    }
  }

  lemma AccountedSpan(parse: Parser, fleet: string, bot: string, name: string, file: Bytes,
                      trace: Trace, at: nat, ids: set<EventId>, span: Span)
    requires Accounted(parse, fleet, bot, name, file, trace, at, ids)
    requires span.lo == at <= span.hi <= |file| && SpanHolds(parse, fleet, bot, name, file, span, ids)
    ensures Accounted(parse, fleet, bot, name, file, trace + [span], span.hi, ids)
  {
    assert (trace + [span])[..|trace|] == trace;
  }

  /** Nothing lay before the follow, nothing was skipped and nothing dropped. */
  ghost predicate Unbroken(trace: Trace) {
    forall i | 0 <= i < |trace| :: trace[i].lo < trace[i].hi ==> trace[i].kind.Taken?
  }

  lemma AccountedRest(parse: Parser, fleet: string, bot: string, name: string, file: Bytes,
                      trace: Trace, at: nat, ids: set<EventId>)
    requires Accounted(parse, fleet, bot, name, file, trace, at, ids) && trace != []
    ensures var last, rest := trace[|trace| - 1], trace[..|trace| - 1];
            && SpanHolds(parse, fleet, bot, name, file, last, ids) && last.hi == at
            && Accounted(parse, fleet, bot, name, file, rest, last.lo, ids)
            && (Unbroken(trace) ==> Unbroken(rest))
  {
    var last, rest := trace[|trace| - 1], trace[..|trace| - 1];
    assert SpanHolds(parse, fleet, bot, name, file, last, ids);
    forall i | 0 <= i < |rest| ensures SpanHolds(parse, fleet, bot, name, file, rest[i], ids) {
      assert rest[i] == trace[i];
    }
  }

  /** A transcript followed without a break has every row of its complete lines
      up to the cursor accepted, and its cursor on a line start. */
  lemma {:induction false} NothingMissed(parse: Parser, fleet: string, bot: string, name: string, file: Bytes,
                                         trace: Trace, at: nat, ids: set<EventId>)
    requires Accounted(parse, fleet, bot, name, file, trace, at, ids) && Unbroken(trace)
    ensures LineStart(file, at)
    ensures forall row | row in Rows(parse, file[..at]) :: EventOf(fleet, bot, Stem(name), row).id in ids
    decreases |trace|
  {
    if trace == [] {
      assert file[..at] == [];
    } else {
      var last, rest := trace[|trace| - 1], trace[..|trace| - 1];
      AccountedRest(parse, fleet, bot, name, file, trace, at, ids);
      NothingMissed(parse, fleet, bot, name, file, rest, last.lo, ids);
      RowsSplit(parse, file, 0, last.lo, at);
      assert file[0..at] == file[..at] && file[0..last.lo] == file[..last.lo];
      if last.lo == at { assert file[last.lo..at] == []; }
    }
  }

  predicate Overlaps(span: Span, a: nat, b: nat) {
    span.lo < span.hi && span.lo < b && a < span.hi
  }

  /** Something of the line was not read. */
  ghost predicate Touched(trace: Trace, a: nat, b: nat) {
    exists i | 0 <= i < |trace| :: !trace[i].kind.Taken? && Overlaps(trace[i], a, b)
  }

  /** What holds for every transcript, however it was read: a complete line below the
      cursor has its row accepted, unless some of it lay before the follow, was
      skipped and counted, or was dropped by an unaligned read. */
  lemma {:induction false} LineIsAccounted(parse: Parser, fleet: string, bot: string, name: string, file: Bytes,
                                           trace: Trace, at: nat, ids: set<EventId>, a: nat, b: nat)
    requires Accounted(parse, fleet, bot, name, file, trace, at, ids) && LineAt(file, a, b) && b <= at
    ensures Touched(trace, a, b)
            || forall row | row in RowsOfLine(parse, file[a..b - 1]) :: EventOf(fleet, bot, Stem(name), row).id in ids
    decreases |trace|
  {
    var last, rest := trace[|trace| - 1], trace[..|trace| - 1];
    AccountedRest(parse, fleet, bot, name, file, trace, at, ids);
    if b <= last.lo {
      LineIsAccounted(parse, fleet, bot, name, file, rest, last.lo, ids, a, b);
      TouchedMore(trace, a, b);
    } else if !last.kind.Taken? {
      assert Overlaps(last, a, b);
    } else if last.lo <= a {
      LineInSpan(parse, file, last.lo, a, b, last.hi);
    } else {
      CrossingIsTouched(parse, fleet, bot, name, file, rest, last.lo, ids, a, b);
      TouchedMore(trace, a, b);
    }
  }

  lemma TouchedMore(trace: Trace, a: nat, b: nat)
    requires trace != []
    ensures Touched(trace[..|trace| - 1], a, b) ==> Touched(trace, a, b)
  {
    if i :| 0 <= i < |trace| - 1 && !trace[i].kind.Taken? && Overlaps(trace[i], a, b) {
      assert trace[..|trace| - 1][i] == trace[i];
    }
  }

  /** A line that a stretch ends inside was not read there: readings end on line starts. */
  lemma {:induction false} CrossingIsTouched(parse: Parser, fleet: string, bot: string, name: string, file: Bytes,
                                             trace: Trace, at: nat, ids: set<EventId>, a: nat, b: nat)
    requires Accounted(parse, fleet, bot, name, file, trace, at, ids) && LineAt(file, a, b) && a < at < b
    ensures Touched(trace, a, b)
    decreases |trace|
  {
    var last := trace[|trace| - 1];
    AccountedRest(parse, fleet, bot, name, file, trace, at, ids);
    if last.lo == at {
      CrossingIsTouched(parse, fleet, bot, name, file, trace[..|trace| - 1], at, ids, a, b);
      TouchedMore(trace, a, b);
    } else {
      assert file[a..b - 1][at - 1 - a] == file[at - 1];
      assert !last.kind.Taken? && Overlaps(last, a, b);
    }
  }

  function IdsOf(events: seq<Event>): set<EventId> {
    set e | e in events :: e.id
  }

  datatype Limits = Limits(readCap: nat, firstRead: nat, keepAfter: int)

  /** What one transcript comes to in a pass: left out of the cursor, followed up
      to an offset, or a failure of the bot's whole pass. */
  datatype Outcome = Unfollowed | FollowedTo(offset: nat) | Unreadable

  /** The saved account of a transcript, when its cursor still fits the file. */
  ghost predicate AccountIn(parse: Parser, fleet: string, bot: string, disk: Disk, state: BotState,
                            traces: map<string, Trace>, name: string, ids: set<EventId>)
  {
    name in state.files ==>
      name in traces && name in disk && Accounted(parse, fleet, bot, name, disk[name], traces[name], state.files[name], ids)
  }

  /** A saved cursor that still lies within the file. */
  predicate Follows(entry: Listed, state: BotState) {
    entry.name in state.files && state.files[entry.name] <= entry.size
  }

  /** A transcript that no cursor will name after this pass: long idle, or from
      before the bot was followed. */
  predicate LeftOut(entry: Listed, state: BotState, newest: Option<string>, limits: Limits) {
    if Follows(entry, state) then state.files[entry.name] == entry.size && entry.mtime < limits.keepAfter
    else if state.passAt.None? then Some(entry.name) != newest
    else entry.mtime <= state.passAt.value
  }

  /** Where this pass starts to read: the cursor or the first-read window, moved
      up to the cap. */
  function Window(entry: Listed, state: BotState, limits: Limits): (nat, bool) {
    Capped(entry, limits, Begins(entry, state, limits))
  }

  function Capped(entry: Listed, limits: Limits, window: (nat, bool)): (nat, bool) {
    if entry.size - window.0 > limits.readCap then (entry.size - limits.readCap, false) else window
  }

  /** Bytes skipped for the cap when a read would start at `start`. */
  function Overflow(entry: Listed, limits: Limits, start: nat): nat {
    if entry.size - start > limits.readCap then entry.size - limits.readCap - start else 0
  }

  /** Where a pass would start to read, the cap apart. */
  function Begins(entry: Listed, state: BotState, limits: Limits): (nat, bool) {
    if Follows(entry, state) then (state.files[entry.name], true)
    else if entry.size > limits.firstRead then (entry.size - limits.firstRead, false)
    else (0, true)
  }

  /** The events of one read and the cursor it leaves. */
  ghost predicate ReadOnce(parse: Parser, fleet: string, bot: string, entry: Listed, file: Bytes, window: (nat, bool),
                           events: seq<Event>, from: nat, next: nat)
  {
    && from <= next <= |file|
    && var rows := Rows(parse, file[from..next]);
    && Read(parse, file, window.0, entry.size, window.1, rows, next, from)
    && events == EventsOf(fleet, bot, Stem(entry.name), rows)
  }

  /** What one turn of a pass made of one transcript. */
  datatype Reading = Reading(outcome: Outcome, events: seq<Event>, from: nat, skipped: nat, bytesRead: nat)

  const Nothing := Reading(Unfollowed, [], 0, 0, 0)

  /** Already read to its end. */
  predicate Current(entry: Listed, state: BotState) {
    Follows(entry, state) && state.files[entry.name] == entry.size
  }

  predicate Fails(disk: Disk, unreadable: set<string>, entry: Listed, state: BotState, newest: Option<string>, limits: Limits)
    requires entry.name in disk
  {
    && !LeftOut(entry, state, newest, limits) && !Current(entry, state)
    && (entry.name in unreadable || entry.size > |disk[entry.name]|)
  }

  ghost predicate ReadsAs(parse: Parser, fleet: string, bot: string, disk: Disk, unreadable: set<string>, entry: Listed,
                          state: BotState, newest: Option<string>, limits: Limits, r: Reading)
    requires entry.name in disk
  {
    var begins := Begins(entry, state, limits);
    if LeftOut(entry, state, newest, limits) then r == Nothing
    else if Current(entry, state) then r == Nothing.(outcome := FollowedTo(entry.size))
    else if Fails(disk, unreadable, entry, state, newest, limits) then
      r == Nothing.(outcome := Unreadable, skipped := Overflow(entry, limits, begins.0))
    else
      (&& r.outcome.FollowedTo? && r.skipped == Overflow(entry, limits, begins.0)
       && r.skipped + r.bytesRead == entry.size - begins.0
       && ReadOnce(parse, fleet, bot, entry, disk[entry.name], Window(entry, state, limits), r.events, r.from, r.outcome.offset))
  }

  /** The account of one read: what it skipped, dropped and took, after what was there. */
  function Extended(begun: Trace, entry: Listed, limits: Limits, start: nat, from: nat, next: nat): Trace {
    var first := start + Overflow(entry, limits, start);
    begun + (if first > start then [Span(Skipped, start, first)] else []) + [Span(Dropped, first, from)] + [Span(Taken, from, next)]
  }

  /** The account of a transcript after one turn, in terms of the one before. */
  ghost predicate TracesAs(entry: Listed, state: BotState, limits: Limits, traces: map<string, Trace>, r: Reading, trace: Trace)
    requires r.outcome.FollowedTo? && (entry.name in state.files ==> entry.name in traces)
  {
    if Current(entry, state) then trace == traces[entry.name]
    else
      var begins := Begins(entry, state, limits);
      trace == Extended(if Follows(entry, state) then traces[entry.name] else [Span(Before, 0, begins.0)],
                        entry, limits, begins.0, r.from, r.outcome.offset)
  }

  /** Bytes over the cap are skipped and counted; the rest is read. */
  method ReadWindow(parse: Parser, fleet: string, bot: string, entry: Listed, file: Bytes, window: (nat, bool), limits: Limits,
                    ghost begun: Trace, ghost ids: set<EventId>)
    returns (events: seq<Event>, next: nat, bytesRead: nat, skipped: nat, from: nat, ghost trace: Trace)
    requires window.0 <= entry.size <= |file| && Accounted(parse, fleet, bot, entry.name, file, begun, window.0, ids)
    ensures ReadOnce(parse, fleet, bot, entry, file, Capped(entry, limits, window), events, from, next)
    ensures forall e | e in events :: FromBot(fleet, bot, e)
    ensures Accounted(parse, fleet, bot, entry.name, file, trace, next, ids + IdsOf(events))
    ensures trace == Extended(begun, entry, limits, window.0, from, next)
    ensures skipped == Overflow(entry, limits, window.0)
    ensures skipped + bytesRead == entry.size - window.0 && bytesRead <= limits.readCap
  {
    var start, aligned := window.0, window.1;
    skipped := 0;
    if entry.size - start > limits.readCap {
      skipped := entry.size - start - limits.readCap;
      start, aligned := entry.size - limits.readCap, false;
    }
    var read;
    read, from := Boundaries(parse, file, start, entry.size, aligned);
    bytesRead := entry.size - start;
    events := EventsOf(fleet, bot, Stem(entry.name), read.value.0);
    next := read.value.1;
    trace := Extended(begun, entry, limits, window.0, from, next);
    AccountedWindow(parse, fleet, bot, entry, file, begun, window, limits, ids, from, next, events);
  }

  /** The account of a read: what it skipped, then what it dropped and took. */
  lemma AccountedWindow(parse: Parser, fleet: string, bot: string, entry: Listed, file: Bytes, begun: Trace, window: (nat, bool),
                        limits: Limits, ids: set<EventId>, from: nat, next: nat, events: seq<Event>)
    requires window.0 <= entry.size <= |file| && Accounted(parse, fleet, bot, entry.name, file, begun, window.0, ids)
    requires ReadOnce(parse, fleet, bot, entry, file, Capped(entry, limits, window), events, from, next)
    ensures Accounted(parse, fleet, bot, entry.name, file, Extended(begun, entry, limits, window.0, from, next), next, ids + IdsOf(events))
  {
    var capped := Capped(entry, limits, window);
    var trace := begun;
    if capped.0 > window.0 {
      AccountedSpan(parse, fleet, bot, entry.name, file, begun, window.0, ids, Span(Skipped, window.0, capped.0));
      trace := begun + [Span(Skipped, window.0, capped.0)];
    } else {
      assert begun + [] == begun;
    }
    AccountedRead(parse, fleet, bot, entry.name, file, trace, capped.0, capped.1, entry.size, ids, from, next, events);
  }

  /** One turn of the loop over a bot's transcripts. */
  method ReadTranscript(parse: Parser, fleet: string, bot: string, disk: Disk, unreadable: set<string>, entry: Listed,
                        state: BotState, newest: Option<string>, limits: Limits,
                        ghost traces: map<string, Trace>, ghost ids: set<EventId>)
    returns (r: Reading, ghost trace: Trace)
    requires AccountIn(parse, fleet, bot, disk, state, traces, entry.name, ids)
    requires entry.name in disk
    ensures ReadsAs(parse, fleet, bot, disk, unreadable, entry, state, newest, limits, r)
    ensures forall e | e in r.events :: FromBot(fleet, bot, e)
    ensures r.outcome.FollowedTo? ==>
              Accounted(parse, fleet, bot, entry.name, disk[entry.name], trace, r.outcome.offset, ids + IdsOf(r.events))
    ensures r.outcome.FollowedTo? ==> TracesAs(entry, state, limits, traces, r, trace)
  {
    r, trace := Nothing, [];
    var start: nat, aligned := 0, true;
    var follows := Follows(entry, state);
    if follows {
      start := state.files[entry.name];
      trace := traces[entry.name];
      if start == entry.size {
        if entry.mtime >= limits.keepAfter { r := r.(outcome := FollowedTo(start)); }
        return;
      }
    } else if (if state.passAt.None? then Some(entry.name) != newest else entry.mtime <= state.passAt.value) {
      return;
    } else {
      start := if entry.size > limits.firstRead then entry.size - limits.firstRead else 0;
      aligned := start == 0;
    }
    if entry.name in unreadable || entry.size > |disk[entry.name]| {
      r := r.(outcome := Unreadable, skipped := Overflow(entry, limits, start));
      return;
    }
    var file := disk[entry.name];
    if !follows {
      AccountedSpan(parse, fleet, bot, entry.name, file, [], 0, ids, Span(Before, 0, start));
      trace := [Span(Before, 0, start)];
      assert [] + trace == trace;
    }
    var events, next, bytesRead, skipped, from;
    events, next, bytesRead, skipped, from, trace :=
      ReadWindow(parse, fleet, bot, entry, file, (start, aligned), limits, trace, ids);
    r := Reading(FollowedTo(next), events, from, skipped, bytesRead);
  }

  /** The dropped rest of a line and the bytes read, once their events are counted in. */
  lemma AccountedRead(parse: Parser, fleet: string, bot: string, name: string, file: Bytes, trace: Trace, start: nat,
                      aligned: bool, end: nat, ids: set<EventId>, from: nat, next: nat, events: seq<Event>)
    requires Accounted(parse, fleet, bot, name, file, trace, start, ids)
    requires start <= from <= next <= end <= |file| && Read(parse, file, start, end, aligned, Rows(parse, file[from..next]), next, from)
    requires events == EventsOf(fleet, bot, Stem(name), Rows(parse, file[from..next]))
    ensures Accounted(parse, fleet, bot, name, file, trace + [Span(Dropped, start, from)] + [Span(Taken, from, next)], next,
                      ids + IdsOf(events))
  {
    var all := ids + IdsOf(events);
    AccountedLater(parse, fleet, bot, name, file, file, trace, start, ids, all);
    AccountedSpan(parse, fleet, bot, name, file, trace, start, all, Span(Dropped, start, from));
    var rows := Rows(parse, file[from..next]);
    forall row | row in rows ensures EventOf(fleet, bot, Stem(name), row).id in all {
      var i :| 0 <= i < |rows| && rows[i] == row;
      assert events[i] in events;
    }
    AccountedSpan(parse, fleet, bot, name, file, trace + [Span(Dropped, start, from)], from, all, Span(Taken, from, next));
  }

  datatype Result = Result(bot: string, rows: nat, recorded: nat, duplicates: nat, bytesRead: nat, skipped: nat,
                           reason: Option<string>)

  /** Every followed transcript of a bot is accounted for. */
  ghost predicate BotAccounted(parse: Parser, fleet: string, bot: string, disk: Disk, files: map<string, nat>,
                               traces: map<string, Trace>, ids: set<EventId>)
  {
    traces.Keys == files.Keys &&
    forall name | name in files ::
      name in disk && Accounted(parse, fleet, bot, name, disk[name], traces[name], files[name], ids)
  }

  ghost predicate DistinctNames(listed: seq<Listed>) {
    forall i, j | 0 <= i < j < |listed| :: listed[i].name != listed[j].name
  }

  /** A listing is of files that exist. */
  ghost predicate ListsDisk(directory: Directory, disk: Disk) {
    directory.Sessions? ==>
      DistinctNames(directory.listed) && forall i | 0 <= i < |directory.listed| :: directory.listed[i].name in disk
  }

  function EventsIn(readings: seq<Reading>): seq<Event> {
    if readings == [] then [] else EventsIn(readings[..|readings| - 1]) + readings[|readings| - 1].events
  }

  function SkippedIn(readings: seq<Reading>): nat {
    if readings == [] then 0 else SkippedIn(readings[..|readings| - 1]) + readings[|readings| - 1].skipped
  }

  /** The transcripts one by one: what each turn made of it, and what it leaves. */
  ghost predicate ReadEach(parse: Parser, fleet: string, bot: string, directory: Directory, disk: Disk, state: BotState, limits: Limits,
                           readings: seq<Reading>, files: map<string, nat>)
    requires directory.Sessions? && |readings| <= |directory.listed|
    requires forall k | 0 <= k < |directory.listed| :: directory.listed[k].name in disk
  {
    && (forall k | 0 <= k < |readings| ::
          ReadsAs(parse, fleet, bot, disk, directory.unreadable, directory.listed[k], state, directory.newest, limits, readings[k]))
    && FilesFrom(directory.listed, readings, files)
  }

  /** The next state follows exactly the transcripts followed, each to where it was read. */
  ghost predicate FilesFrom(listed: seq<Listed>, readings: seq<Reading>, files: map<string, nat>)
    requires |readings| <= |listed|
  {
    && (forall k | 0 <= k < |readings| :: FileFrom(listed[k].name, readings[k].outcome, files))
    && forall name | name in files :: exists k | 0 <= k < |readings| :: listed[k].name == name
  }

  predicate FileFrom(name: string, outcome: Outcome, files: map<string, nat>) {
    if outcome.FollowedTo? then name in files && files[name] == outcome.offset else name !in files
  }

  lemma FilesMore(listed: seq<Listed>, readings: seq<Reading>, files: map<string, nat>, r: Reading)
    requires |readings| < |listed| && DistinctNames(listed) && FilesFrom(listed, readings, files)
    ensures FilesFrom(listed, readings + [r],
                      if r.outcome.FollowedTo? then files[listed[|readings|].name := r.outcome.offset] else files)
  {
    var name := listed[|readings|].name;
    assert name !in files;
    var more := if r.outcome.FollowedTo? then files[name := r.outcome.offset] else files;
    forall m | m in more ensures exists k | 0 <= k < |readings| + 1 :: listed[k].name == m {
      if m in files {
        var k :| 0 <= k < |readings| && listed[k].name == m;
        assert listed[k].name == m;
      } else {
        assert listed[|readings|].name == m;
      }
    }
  }

  /** The accounts one by one: each is what its turn made of the one before. */
  ghost predicate TraceEach(directory: Directory, state: BotState, limits: Limits, traces: map<string, Trace>,
                            readings: seq<Reading>, nextTraces: map<string, Trace>)
    requires directory.Sessions? && |readings| <= |directory.listed|
  {
    forall k | 0 <= k < |readings| && readings[k].outcome.FollowedTo? ::
      TracedAs(directory.listed[k], state, limits, traces, readings[k], nextTraces)
  }

  ghost predicate TracedAs(entry: Listed, state: BotState, limits: Limits, traces: map<string, Trace>, r: Reading,
                           nextTraces: map<string, Trace>)
    requires r.outcome.FollowedTo?
  {
    && (entry.name in state.files ==> entry.name in traces) && entry.name in nextTraces
    && TracesAs(entry, state, limits, traces, r, nextTraces[entry.name])
  }

  lemma TraceEachMore(directory: Directory, disk: Disk, state: BotState, limits: Limits, traces: map<string, Trace>,
                      readings: seq<Reading>, nextTraces: map<string, Trace>, r: Reading, trace: Trace)
    requires ListsDisk(directory, disk) && directory.Sessions? && |readings| < |directory.listed|
    requires TraceEach(directory, state, limits, traces, readings, nextTraces)
    requires var entry := directory.listed[|readings|];
             && (entry.name in state.files ==> entry.name in traces)
             && (r.outcome.FollowedTo? ==> TracesAs(entry, state, limits, traces, r, trace))
    ensures TraceEach(directory, state, limits, traces, readings + [r],
                      if r.outcome.FollowedTo? then nextTraces[directory.listed[|readings|].name := trace] else nextTraces)
  {
    var name := directory.listed[|readings|].name;
    var more := if r.outcome.FollowedTo? then nextTraces[name := trace] else nextTraces;
    forall k | 0 <= k < |readings| + 1 && (readings + [r])[k].outcome.FollowedTo?
      ensures TracedAs(directory.listed[k], state, limits, traces, (readings + [r])[k], more)
    {
      if k < |readings| {
        assert TracedAs(directory.listed[k], state, limits, traces, readings[k], nextTraces);
        assert directory.listed[k].name != name;
      }
    }
  }

  /** No transcript has anything but what was read, and none begins anywhere but at 0. */
  ghost predicate Seamless(traces: map<string, Trace>) {
    forall name | name in traces :: Unbroken(traces[name])
  }

  /** Every read of the pass begins where an earlier one ended, or at 0. */
  predicate Gentle(directory: Directory, state: BotState, limits: Limits) {
    directory.Sessions? ==>
      forall k | 0 <= k < |directory.listed| ::
        var entry := directory.listed[k];
        LeftOut(entry, state, directory.newest, limits) || Window(entry, state, limits).1
  }

  predicate CannotStart(directory: Directory, state: BotState) {
    directory.Issue? || (state.passAt.None? && directory.newestIssue.Some?)
  }

  /** `_read_bot`: a pass over one bot's transcripts. No next state keeps the old one whole. */
  method ReadBot(parse: Parser, fleet: string, bot: string, directory: Directory, disk: Disk, state: BotState,
                 startedAt: int, limits: Limits, ghost traces: map<string, Trace>, ghost ids: set<EventId>)
    returns (out: Result, events: seq<Event>, next: Option<BotState>,
             ghost readings: seq<Reading>, ghost nextTraces: map<string, Trace>)
    requires ListsDisk(directory, disk) && BotAccounted(parse, fleet, bot, disk, state.files, traces, ids)
    ensures out.bot == bot && forall e | e in events :: FromBot(fleet, bot, e)
    ensures next.None? <==> out.reason.Some?
    ensures next.None? ==> events == []
    ensures next.None? <==> CannotStart(directory, state) || exists k | 0 <= k < |directory.listed| ::
                              Fails(disk, directory.unreadable, directory.listed[k], state, directory.newest, limits)
    ensures next.Some? ==>
              && |readings| == |directory.listed| && events == EventsIn(readings)
              && ReadEach(parse, fleet, bot, directory, disk, state, limits, readings, next.value.files)
              && TraceEach(directory, state, limits, traces, readings, nextTraces)
              && out.skipped == SkippedIn(readings)
    ensures next.Some? ==> out.rows == |events| && next.value.passAt == Some(startedAt)
    ensures next.Some? ==>
              BotAccounted(parse, fleet, bot, disk, next.value.files, nextTraces, ids + IdsOf(events))
    ensures next.Some? && Seamless(traces) && Gentle(directory, state, limits) ==> Seamless(nextTraces)
  {
    out := Result(bot, 0, 0, 0, 0, 0, None);
    events, next, readings, nextTraces := [], None, [], map[];
    match directory
    case Issue(reason) =>
      out := out.(reason := Some(reason));
    case Sessions(listed, newestIssue, newest, unreadable) =>
      if state.passAt.None? && newestIssue.Some? {
        out := out.(reason := newestIssue);
        return;
      }
      out, events, next, readings, nextTraces := ReadSessions(parse, fleet, bot, directory, disk, state, startedAt, limits, traces, ids);
  }

  /** The loop over a bot's transcripts. */
  method ReadSessions(parse: Parser, fleet: string, bot: string, directory: Directory, disk: Disk, state: BotState,
                      startedAt: int, limits: Limits, ghost traces: map<string, Trace>, ghost ids: set<EventId>)
    returns (out: Result, events: seq<Event>, next: Option<BotState>,
             ghost readings: seq<Reading>, ghost nextTraces: map<string, Trace>)
    requires directory.Sessions? && ListsDisk(directory, disk)
    requires BotAccounted(parse, fleet, bot, disk, state.files, traces, ids)
    ensures out.bot == bot && (next.None? <==> out.reason.Some?)
    ensures next.None? ==> events == [] && exists k | 0 <= k < |directory.listed| ::
                             Fails(disk, directory.unreadable, directory.listed[k], state, directory.newest, limits)
    ensures next.Some? ==>
              && |readings| == |directory.listed| && next.value.passAt == Some(startedAt)
              && out.rows == |events| && out.skipped == SkippedIn(readings)
              && ReadSoFar(parse, fleet, bot, directory, disk, state, limits, traces, ids, readings, events, next.value.files, nextTraces)
  {
    var listed := directory.listed;
    out := Result(bot, 0, 0, 0, 0, 0, None);
    events, next, readings, nextTraces := [], None, [], map[];
    var files: map<string, nat> := map[];
    for i := 0 to |listed|
      invariant out.bot == bot && out.reason.None? && out.rows == |events| && next.None?
      invariant out.skipped == SkippedIn(readings)
      invariant |readings| == i && ReadSoFar(parse, fleet, bot, directory, disk, state, limits, traces, ids,
                                             readings, events, files, nextTraces)
    {
      var r;
      r, files, nextTraces := ReadNext(parse, fleet, bot, directory, disk, state, limits, i, files, traces, ids, readings, events, nextTraces);
      out := out.(bytesRead := out.bytesRead + r.bytesRead, skipped := out.skipped + r.skipped);
      if r.outcome.Unreadable? {
        out := out.(reason := Some("unreadable_transcript_file"));
        events := [];
        return;
      }
      out := out.(rows := out.rows + |r.events|);
      events := events + r.events;
      SkippedMore(readings, r);
      readings := readings + [r];
    }
    next := Some(BotState(Some(startedAt), files));
  }

  /** One turn of it. */
  method ReadNext(parse: Parser, fleet: string, bot: string, directory: Directory, disk: Disk, state: BotState, limits: Limits,
                  i: nat, files: map<string, nat>, ghost traces: map<string, Trace>, ghost ids: set<EventId>,
                  ghost readings: seq<Reading>, ghost events: seq<Event>, ghost sofar: map<string, Trace>)
    returns (r: Reading, next: map<string, nat>, ghost nextTraces: map<string, Trace>)
    requires directory.Sessions? && ListsDisk(directory, disk) && i == |readings| < |directory.listed|
    requires BotAccounted(parse, fleet, bot, disk, state.files, traces, ids)
    requires ReadSoFar(parse, fleet, bot, directory, disk, state, limits, traces, ids, readings, events, files, sofar)
    ensures if r.outcome.Unreadable? then
              Fails(disk, directory.unreadable, directory.listed[i], state, directory.newest, limits)
            else
              ReadSoFar(parse, fleet, bot, directory, disk, state, limits, traces, ids, readings + [r], events + r.events, next, nextTraces)
  {
    var entry := directory.listed[i];
    ghost var trace;
    r, trace := ReadTranscript(parse, fleet, bot, disk, directory.unreadable, entry, state, directory.newest, limits, traces, ids);
    next, nextTraces := files, sofar;
    if !r.outcome.Unreadable? {
      ReadOneMore(parse, fleet, bot, directory, disk, state, limits, traces, ids, readings, events, files, sofar, r, trace);
      if r.outcome.FollowedTo? {
        next := files[entry.name := r.outcome.offset];
        nextTraces := sofar[entry.name := trace];
      }
    }
  }

  /** What the loop over a bot's transcripts keeps. */
  ghost predicate ReadSoFar(parse: Parser, fleet: string, bot: string, directory: Directory, disk: Disk, state: BotState, limits: Limits,
                            traces: map<string, Trace>, ids: set<EventId>, readings: seq<Reading>, events: seq<Event>,
                            files: map<string, nat>, nextTraces: map<string, Trace>)
    requires directory.Sessions? && |readings| <= |directory.listed|
    requires forall k | 0 <= k < |directory.listed| :: directory.listed[k].name in disk
  {
    && events == EventsIn(readings) && (forall e | e in events :: FromBot(fleet, bot, e))
    && BotAccounted(parse, fleet, bot, disk, files, nextTraces, ids + IdsOf(events))
    && ReadEach(parse, fleet, bot, directory, disk, state, limits, readings, files)
    && TraceEach(directory, state, limits, traces, readings, nextTraces)
    && (forall k | 0 <= k < |readings| :: !Fails(disk, directory.unreadable, directory.listed[k], state, directory.newest, limits))
    && (Seamless(traces) && Gentle(directory, state, limits) ==> Seamless(nextTraces))
  }

  lemma ReadOneMore(parse: Parser, fleet: string, bot: string, directory: Directory, disk: Disk, state: BotState, limits: Limits,
                    traces: map<string, Trace>, ids: set<EventId>, readings: seq<Reading>, events: seq<Event>,
                    files: map<string, nat>, nextTraces: map<string, Trace>, r: Reading, trace: Trace)
    requires ListsDisk(directory, disk) && directory.Sessions? && |readings| < |directory.listed|
    requires ReadSoFar(parse, fleet, bot, directory, disk, state, limits, traces, ids, readings, events, files, nextTraces)
    requires var entry := directory.listed[|readings|];
             && ReadsAs(parse, fleet, bot, disk, directory.unreadable, entry, state, directory.newest, limits, r)
             && !r.outcome.Unreadable? && (forall e | e in r.events :: FromBot(fleet, bot, e))
             && (entry.name in state.files ==> entry.name in traces)
             && (r.outcome.FollowedTo? ==>
                   (TracesAs(entry, state, limits, traces, r, trace)
                    && Accounted(parse, fleet, bot, entry.name, disk[entry.name], trace, r.outcome.offset, ids + IdsOf(r.events))))
    ensures var name := directory.listed[|readings|].name;
            ReadSoFar(parse, fleet, bot, directory, disk, state, limits, traces, ids, readings + [r], events + r.events,
                      if r.outcome.FollowedTo? then files[name := r.outcome.offset] else files,
                      if r.outcome.FollowedTo? then nextTraces[name := trace] else nextTraces)
  {
    var entry := directory.listed[|readings|];
    assert entry.name !in files;
    MoreEvents(parse, fleet, bot, disk, files, nextTraces, ids, events, r.events, entry.name, r.outcome, trace);
    if Seamless(traces) && Gentle(directory, state, limits) && r.outcome.FollowedTo? {
      GentleRead(entry, state, directory.newest, limits, traces, r, trace);
    }
    ReadEachMore(parse, fleet, bot, directory, disk, state, limits, readings, files, r);
    TraceEachMore(directory, disk, state, limits, traces, readings, nextTraces, r, trace);
    assert (readings + [r])[..|readings|] == readings;
  }

  lemma SkippedMore(readings: seq<Reading>, r: Reading)
    ensures SkippedIn(readings + [r]) == SkippedIn(readings) + r.skipped
  {
    assert (readings + [r])[..|readings|] == readings;
  }

  lemma ReadEachMore(parse: Parser, fleet: string, bot: string, directory: Directory, disk: Disk, state: BotState, limits: Limits,
                     readings: seq<Reading>, files: map<string, nat>, r: Reading)
    requires ListsDisk(directory, disk) && directory.Sessions? && |readings| < |directory.listed|
    requires ReadEach(parse, fleet, bot, directory, disk, state, limits, readings, files)
    requires ReadsAs(parse, fleet, bot, disk, directory.unreadable, directory.listed[|readings|], state, directory.newest, limits, r)
    ensures ReadEach(parse, fleet, bot, directory, disk, state, limits, readings + [r],
                     if r.outcome.FollowedTo? then files[directory.listed[|readings|].name := r.outcome.offset] else files)
  {
    FilesMore(directory.listed, readings, files, r);
  }

  /** A read that begins where an earlier one ended, or at 0, leaves no gap. */
  lemma GentleRead(entry: Listed, state: BotState, newest: Option<string>, limits: Limits, traces: map<string, Trace>,
                   r: Reading, trace: Trace)
    requires r.outcome.FollowedTo? && (entry.name in state.files ==> entry.name in traces)
    requires TracesAs(entry, state, limits, traces, r, trace)
    requires Seamless(traces) && Window(entry, state, limits).1
    requires Current(entry, state) || r.from == Begins(entry, state, limits).0
    ensures Unbroken(trace)
  {
  }

  lemma MoreEvents(parse: Parser, fleet: string, bot: string, disk: Disk, files: map<string, nat>,
                   traces: map<string, Trace>, ids: set<EventId>, events: seq<Event>, found: seq<Event>,
                   name: string, outcome: Outcome, trace: Trace)
    requires BotAccounted(parse, fleet, bot, disk, files, traces, ids + IdsOf(events)) && name !in files
    requires outcome.FollowedTo? ==>
               name in disk && Accounted(parse, fleet, bot, name, disk[name], trace, outcome.offset, ids + IdsOf(found))
    ensures var all := ids + IdsOf(events + found);
            if outcome.FollowedTo? then
              BotAccounted(parse, fleet, bot, disk, files[name := outcome.offset], traces[name := trace], all)
            else BotAccounted(parse, fleet, bot, disk, files, traces, all)
  {
    var all := ids + IdsOf(events + found);
    assert IdsOf(events) <= all && IdsOf(found) <= all;
    forall m | m in files ensures Accounted(parse, fleet, bot, m, disk[m], traces[m], files[m], all) {
      AccountedLater(parse, fleet, bot, m, disk[m], disk[m], traces[m], files[m], ids + IdsOf(events), all);
    }
    if outcome.FollowedTo? {
      AccountedLater(parse, fleet, bot, name, disk[name], disk[name], trace, outcome.offset, ids + IdsOf(found), all);
    }
  }

  // ---- the plane and the recorder ----

  datatype Status = Committed | Duplicate | Spooled | Rejected

  predicate Accepted(status: Status) {
    !status.Rejected?
  }

  /** What the plane and the machine do to one pass: which events are taken, how
      many outcomes come back, whether the call raises after that, and whether
      the pass lives to save its cursor. */
  datatype Fate = Fate(takes: seq<bool>, spools: seq<bool>, answers: nat, raises: bool, saves: bool)

  ghost predicate DistinctIds(events: seq<Event>) {
    forall i, j | 0 <= i < j < |events| :: events[i].id != events[j].id
  }

  ghost predicate NoneTwice(ledger: seq<EventId>) {
    forall i, j | 0 <= i < j < |ledger| :: ledger[i] != ledger[j]
  }

  function Stored(ledger: seq<EventId>): set<EventId> {
    set id | id in ledger
  }

  /** The batch dictionary: one event for each ID. */
  method Unique(events: seq<Event>) returns (batch: seq<Event>)
    ensures DistinctIds(batch) && IdsOf(batch) == IdsOf(events)
    ensures forall e | e in batch :: e in events
  {
    batch := [];
    for i := 0 to |events|
      invariant DistinctIds(batch) && IdsOf(batch) == IdsOf(events[..i])
      invariant forall e | e in batch :: e in events
    {
      assert events[..i + 1] == events[..i] + [events[i]];
      assert IdsOf(events[..i + 1]) == IdsOf(events[..i]) + {events[i].id};
      batch := PutById(batch, events[i]);
    }
    assert events[..|events|] == events;
  }

  /** `dict[event_id] = event`: in place of the event with that ID, or at the end. */
  method PutById(batch: seq<Event>, event: Event) returns (next: seq<Event>)
    requires DistinctIds(batch)
    ensures DistinctIds(next) && IdsOf(next) == IdsOf(batch) + {event.id}
    ensures forall e | e in next :: e in batch || e == event
  {
    var at := 0;
    while at < |batch| && batch[at].id != event.id
      invariant 0 <= at <= |batch|
      invariant forall k | 0 <= k < at :: batch[k].id != event.id
    {
      at := at + 1;
    }
    next := if at < |batch| then batch[at := event] else batch + [event];
    forall id | id in IdsOf(batch) + {event.id} ensures id in IdsOf(next) {
      if id == event.id {
        assert next[at] == event;
        assert event in next;
      } else {
        var e :| e in batch && e.id == id;
        var k :| 0 <= k < |batch| && batch[k] == e;
        assert next[k] == e;
        assert e in next;
      }
    }
  }

  /** The plane stores an ID at most once; what it answers may be cut short or lost. */
  method Emit(ledger: seq<EventId>, batch: seq<Event>, fate: Fate) returns (outcomes: Option<seq<Status>>, next: seq<EventId>)
    requires NoneTwice(ledger) && DistinctIds(batch)
    ensures NoneTwice(next) && ledger <= next
    ensures Stored(next) <= Stored(ledger) + IdsOf(batch)
    ensures outcomes.Some? ==> |outcomes.value| <= |batch|
    ensures outcomes.Some? ==> forall i | 0 <= i < |outcomes.value| && Accepted(outcomes.value[i]) :: batch[i].id in Stored(next)
    ensures outcomes.Some? ==> forall i | 0 <= i < |outcomes.value| ::
                outcomes.value[i].Duplicate? ==> batch[i].id in Stored(ledger)
  {
    var statuses: seq<Status>;
    statuses, next := StoreEach(ledger, batch, fate);
    if fate.raises {
      outcomes := None;
    } else {
      outcomes := Some(if fate.answers < |batch| then statuses[..fate.answers] else statuses);
    }
  }

  /** One event after another: stored, known already, or not taken. */
  method StoreEach(ledger: seq<EventId>, batch: seq<Event>, fate: Fate) returns (statuses: seq<Status>, next: seq<EventId>)
    requires NoneTwice(ledger) && DistinctIds(batch)
    ensures NoneTwice(next) && ledger <= next && |statuses| == |batch|
    ensures Stored(next) <= Stored(ledger) + IdsOf(batch)
    ensures forall i | 0 <= i < |batch| :: StatusHolds(statuses[i], batch[i].id, ledger, next)
  {
    next, statuses := ledger, [];
    for i := 0 to |batch|
      invariant NoneTwice(next) && ledger <= next && |statuses| == i
      invariant Stored(next) <= Stored(ledger) + IdsOf(batch[..i])
      invariant forall k | 0 <= k < i :: StatusHolds(statuses[k], batch[k].id, ledger, next)
    {
      var id := batch[i].id;
      OneMoreId(batch, next, i);
      if i >= |fate.takes| || !fate.takes[i] {
        statuses := statuses + [Rejected];
      } else if id in ledger {
        statuses := statuses + [Duplicate];
      } else {
        NotYet(ledger, next, batch, i);
        next := next + [id];
        statuses := statuses + [if i < |fate.spools| && fate.spools[i] then Spooled else Committed];
      }
    }
    assert batch[..|batch|] == batch;
  }

  predicate StatusHolds(status: Status, id: EventId, ledger: seq<EventId>, next: seq<EventId>) {
    (Accepted(status) ==> id in next) && (status.Duplicate? ==> id in ledger)
  }

  lemma OneMoreId(batch: seq<Event>, next: seq<EventId>, i: nat)
    requires i < |batch|
    ensures IdsOf(batch[..i + 1]) == IdsOf(batch[..i]) + {batch[i].id}
    ensures Stored(next + [batch[i].id]) == Stored(next) + {batch[i].id}
  {
    assert batch[..i + 1] == batch[..i] + [batch[i]];
  }

  lemma NotYet(ledger: seq<EventId>, next: seq<EventId>, batch: seq<Event>, i: nat)
    requires i < |batch| && DistinctIds(batch) && batch[i].id !in ledger
    requires Stored(next) <= Stored(ledger) + IdsOf(batch[..i])
    ensures batch[i].id !in next
  {
    forall e | e in batch[..i] ensures e.id != batch[i].id {
      var k :| 0 <= k < i && batch[k] == e;
    }
    assert batch[i].id !in IdsOf(batch[..i]);
    assert forall id | id in next :: id in Stored(next);
  }

  /** An event of this bot, under an ID derived for it. */
  ghost predicate FromBot(fleet: string, bot: string, e: Event) {
    e.bot == bot && exists session, key :: e.id == Derived(Material(fleet, bot, session, key))
  }

  lemma SameIdSameBot(fleet: string, d: Event, e: Event)
    requires FromBot(fleet, d.bot, d) && FromBot(fleet, e.bot, e) && d.id == e.id
    requires SEPARATOR !in fleet && SEPARATOR !in d.bot && SEPARATOR !in e.bot
    ensures d.bot == e.bot
  {
    var session, key :| d.id == Derived(Material(fleet, d.bot, session, key));
    var session', key' :| e.id == Derived(Material(fleet, e.bot, session', key'));
    MaterialInjective(fleet, d.bot, session, key, e.bot, session', key');
  }

  /** What the loop over bots hands to the rest of a pass. */
  datatype Gathered = Gathered(events: seq<Event>, nexts: map<string, BotState>, rows: seq<Result>)

  ghost predicate GatheredFrom(parse: Parser, fleet: string, disks: map<string, Disk>, g: Gathered,
                               own: map<string, seq<Event>>, traces: map<string, map<string, Trace>>, ids: set<EventId>)
  {
    && traces.Keys == own.Keys == g.nexts.Keys
    && (forall e | e in g.events :: SEPARATOR !in e.bot && FromBot(fleet, e.bot, e) && e.bot in own && e in own[e.bot])
    && (forall bot | bot in own :: SEPARATOR !in bot && bot in disks && forall e | e in own[bot] :: e in g.events && e.bot == bot)
    && forall bot | bot in own ::
         BotAccounted(parse, fleet, bot, disks[bot], g.nexts[bot].files, traces[bot], ids + IdsOf(own[bot]))
  }

  /** A bot's next state, its events and its accounts are what its readings made them. */
  ghost predicate TookFrom(parse: Parser, fleet: string, bot: string, directory: Directory, disk: Disk, state: BotState, limits: Limits,
                           took: seq<Reading>, next: BotState, events: seq<Event>,
                           traces: map<string, Trace>, nextTraces: map<string, Trace>)
  {
    && directory.Sessions? && |took| == |directory.listed| && events == EventsIn(took)
    && (forall k | 0 <= k < |directory.listed| :: directory.listed[k].name in disk)
    && ReadEach(parse, fleet, bot, directory, disk, state, limits, took, next.files)
    && TraceEach(directory, state, limits, traces, took, nextTraces)
  }

  ghost predicate Gained(parse: Parser, fleet: string, bot: string, directory: Directory, disk: Disk, state: BotState, limits: Limits,
                         next: BotState, events: seq<Event>, traces: map<string, Trace>, nextTraces: map<string, Trace>)
  {
    exists took :: TookFrom(parse, fleet, bot, directory, disk, state, limits, took, next, events, traces, nextTraces)
  }

  /** The accounts a bot's pass starts from. */
  function TracesOf(saved: map<string, BotState>, kept: map<string, map<string, Trace>>, bot: string): map<string, Trace> {
    if bot in saved && bot in kept then kept[bot] else map[]
  }

  ghost predicate AllGained(parse: Parser, fleet: string, directories: map<string, Directory>, disks: map<string, Disk>,
                            saved: map<string, BotState>, limits: Limits, g: Gathered, own: map<string, seq<Event>>,
                            kept: map<string, map<string, Trace>>, found: map<string, map<string, Trace>>)
  {
    forall bot | bot in g.nexts ::
      && bot in directories && bot in disks && bot in own && bot in found
      && Gained(parse, fleet, bot, directories[bot], disks[bot], StateOf(saved, bot), limits, g.nexts[bot], own[bot],
                TracesOf(saved, kept, bot), found[bot])
  }

  lemma {:induction false} EventsOfReading(readings: seq<Reading>, k: nat)
    requires k < |readings|
    ensures forall e | e in readings[k].events :: e in EventsIn(readings)
    decreases |readings|
  {
    if k < |readings| - 1 { EventsOfReading(readings[..|readings| - 1], k); }
  }

  /** What a pass makes sure of that anyone can see: once a bot's events are on the plane,
      so is the row of every complete line in each window that was read, but the one an
      unaligned read begins on. */
  lemma WindowLineRecorded(parse: Parser, fleet: string, bot: string, directory: Directory, disk: Disk, state: BotState, limits: Limits,
                           took: seq<Reading>, next: BotState, events: seq<Event>, traces: map<string, Trace>,
                           nextTraces: map<string, Trace>, ids: set<EventId>, k: nat, a: nat, b: nat)
    requires TookFrom(parse, fleet, bot, directory, disk, state, limits, took, next, events, traces, nextTraces)
    requires IdsOf(events) <= ids && k < |directory.listed|
    requires var entry := directory.listed[k];
             && took[k].outcome.FollowedTo? && !Current(entry, state)
             && LineAt(disk[entry.name], a, b)
             && Window(entry, state, limits).0 <= a && b <= entry.size
             && (Window(entry, state, limits).1 || a != Window(entry, state, limits).0)
    ensures var entry := directory.listed[k];
            forall row | row in RowsOfLine(parse, disk[entry.name][a..b - 1]) :: EventOf(fleet, bot, Stem(entry.name), row).id in ids
  {
    var entry, r := directory.listed[k], took[k];
    var file, window := disk[entry.name], Window(entry, state, limits);
    assert ReadsAs(parse, fleet, bot, disk, directory.unreadable, entry, state, directory.newest, limits, r);
    var next, from := r.outcome.offset, r.from;
    var rows := Rows(parse, file[from..next]);
    LineReadUnlessFirst(parse, file, window.0, entry.size, window.1, rows, next, from, a, b);
    EventsOfReading(took, k);
    forall row | row in RowsOfLine(parse, file[a..b - 1]) ensures EventOf(fleet, bot, Stem(entry.name), row).id in ids {
      assert row in rows;
      var i :| 0 <= i < |rows| && rows[i] == row;
      assert r.events[i] in events && r.events[i].id in IdsOf(events);
    }
  }

  /** Every bot's events in the gathered ones are its own. */
  ghost predicate Shared(g: Gathered, own: map<string, seq<Event>>) {
    forall bot, e | bot in own :: e in own[bot] <==> e in g.events && e.bot == bot
  }

  /** What the loop over the bots keeps. */
  ghost predicate GatheredSoFar(parse: Parser, fleet: string, directories: map<string, Directory>, disks: map<string, Disk>,
                                saved: map<string, BotState>, limits: Limits, kept: map<string, map<string, Trace>>, ids: set<EventId>,
                                bots: seq<string>, i: nat, g: Gathered, own: map<string, seq<Event>>, found: map<string, map<string, Trace>>)
    requires i <= |bots|
  {
    && GatheredFrom(parse, fleet, disks, g, own, found, ids) && RowsFor(bots[..i], g)
    && AllGained(parse, fleet, directories, disks, saved, limits, g, own, kept, found)
    && (AllSeamless(kept) && GentlePass(bots, directories, saved, limits) ==> AllSeamless(found))
  }

  lemma GatherOne(parse: Parser, fleet: string, directories: map<string, Directory>, disks: map<string, Disk>,
                  saved: map<string, BotState>, limits: Limits, kept: map<string, map<string, Trace>>, ids: set<EventId>,
                  bots: seq<string>, i: nat, g: Gathered, own: map<string, seq<Event>>, found: map<string, map<string, Trace>>,
                  row: Result, events: seq<Event>, next: BotState, took: seq<Reading>, traces: map<string, Trace>)
    requires i < |bots| && bots[i] in directories && bots[i] in disks && SEPARATOR !in bots[i]
    requires GatheredSoFar(parse, fleet, directories, disks, saved, limits, kept, ids, bots, i, g, own, found) && bots[i] !in g.nexts
    requires RowsFor(bots[..i + 1], Gathered(g.events + events, g.nexts[bots[i] := next], g.rows + [row]))
    requires forall e | e in events :: FromBot(fleet, bots[i], e)
    requires TookFrom(parse, fleet, bots[i], directories[bots[i]], disks[bots[i]], StateOf(saved, bots[i]), limits, took, next, events,
                      TracesOf(saved, kept, bots[i]), traces)
    requires BotAccounted(parse, fleet, bots[i], disks[bots[i]], next.files, traces, ids + IdsOf(events))
    requires AllSeamless(kept) && Gentle(directories[bots[i]], StateOf(saved, bots[i]), limits) ==> Seamless(traces)
    ensures GatheredSoFar(parse, fleet, directories, disks, saved, limits, kept, ids, bots, i + 1,
                          Gathered(g.events + events, g.nexts[bots[i] := next], g.rows + [row]),
                          own[bots[i] := events], found[bots[i] := traces])
  {
    GatherMore(parse, fleet, disks, g, own, found, ids, bots[i], row, events, next, traces);
    GainMore(parse, fleet, directories, disks, saved, limits, g, own, kept, found, bots[i], row, events, next, took, traces);
  }

  lemma SharesGathered(parse: Parser, fleet: string, disks: map<string, Disk>, g: Gathered, own: map<string, seq<Event>>,
                       found: map<string, map<string, Trace>>, ids: set<EventId>)
    requires GatheredFrom(parse, fleet, disks, g, own, found, ids)
    ensures Shared(g, own)
  {
  }

  /** One row for each bot, in order; a bot has a next state unless its row gives a reason. */
  ghost predicate RowsFor(bots: seq<string>, g: Gathered) {
    && |g.rows| == |bots| && (forall bot | bot in g.nexts :: bot in bots)
    && forall i | 0 <= i < |bots| :: g.rows[i].bot == bots[i] && (bots[i] in g.nexts <==> g.rows[i].reason.None?)
  }

  lemma RowMore(bots: seq<string>, i: nat, g: Gathered, row: Result, events: seq<Event>, next: Option<BotState>)
    requires i < |bots| && forall j, k | 0 <= j < k < |bots| :: bots[j] != bots[k]
    requires RowsFor(bots[..i], g) && row.bot == bots[i] && (next.None? <==> row.reason.Some?)
    ensures bots[i] !in g.nexts
    ensures RowsFor(bots[..i + 1], Gathered(if next.Some? then g.events + events else g.events,
                                            if next.Some? then g.nexts[bots[i] := next.value] else g.nexts, g.rows + [row]))
  {
    assert bots[..i + 1] == bots[..i] + [bots[i]];
  }

  lemma GainMore(parse: Parser, fleet: string, directories: map<string, Directory>, disks: map<string, Disk>,
                 saved: map<string, BotState>, limits: Limits, g: Gathered, own: map<string, seq<Event>>,
                 kept: map<string, map<string, Trace>>, found: map<string, map<string, Trace>>,
                 bot: string, row: Result, events: seq<Event>, next: BotState, took: seq<Reading>, traces: map<string, Trace>)
    requires AllGained(parse, fleet, directories, disks, saved, limits, g, own, kept, found)
    requires bot in directories && bot in disks
    requires TookFrom(parse, fleet, bot, directories[bot], disks[bot], StateOf(saved, bot), limits, took, next, events,
                      TracesOf(saved, kept, bot), traces)
    ensures AllGained(parse, fleet, directories, disks, saved, limits,
                      Gathered(g.events + events, g.nexts[bot := next], g.rows + [row]), own[bot := events], kept, found[bot := traces])
  {
    assert Gained(parse, fleet, bot, directories[bot], disks[bot], StateOf(saved, bot), limits, next, events,
                  TracesOf(saved, kept, bot), traces);
  }

  /** The bots any of these events belongs to. */
  function Owners(events: seq<Event>): set<string> {
    set e | e in events :: e.bot
  }

  /** A bot with an event has that event's ID in the batch, under its own name. */
  lemma OwnerInBatch(parse: Parser, fleet: string, disks: map<string, Disk>, g: Gathered, own: map<string, seq<Event>>,
                     traces: map<string, map<string, Trace>>, ids: set<EventId>, batch: seq<Event>, bot: string)
    requires SEPARATOR !in fleet && GatheredFrom(parse, fleet, disks, g, own, traces, ids) && bot in own
    requires IdsOf(batch) == IdsOf(g.events) && forall e | e in batch :: e in g.events
    ensures IdsOf(own[bot]) <= IdsOf(batch)
    ensures own[bot] != [] ==> bot in Owners(batch)
  {
    forall e | e in own[bot] ensures e.id in IdsOf(batch) && bot in Owners(batch) {
      assert e in g.events && e.id in IdsOf(g.events);
      var d :| d in batch && d.id == e.id;
      SameIdSameBot(fleet, d, e);
    }
    if own[bot] != [] { assert own[bot][0] in own[bot]; }
  }

  class Recorder {
    const parse: Parser
    const fleet: string
    /** The cursor file: what a crash leaves is what was last saved. */
    var cursor: map<string, BotState>
    /** The IDs the plane has taken, in order. */
    var ledger: seq<EventId>
    /** Each bot's transcripts as they are now. */
    var disks: map<string, Disk>
    ghost var traces: map<string, map<string, Trace>>

    /** Every row read below a saved cursor is on the plane, and nothing is there twice. */
    ghost predicate Valid()
      reads this
    {
      && SEPARATOR !in fleet && NoneTwice(ledger)
      && AllAccounted(parse, fleet, disks, cursor, traces, Stored(ledger))
    }

    constructor (parse: Parser, fleet: string)
      requires SEPARATOR !in fleet
      ensures Valid() && this.fleet == fleet && cursor == map[] && ledger == [] && disks == map[]
    {
      this.parse, this.fleet := parse, fleet;
      cursor, ledger, disks, traces := map[], [], map[], map[];
    }

    /** Sessions append to their transcripts between passes; new ones appear. */
    method Append(grown: map<string, Disk>)
      requires Valid() && Extends(disks, grown)
      modifies this`disks
      ensures Valid() && disks == grown
    {
      AllAccountedLater(parse, fleet, disks, grown, cursor, traces, Stored(ledger), Stored(ledger));
      disks := grown;
    }

    /** One declared bot's pass from its saved state. */
    method ReadOne(saved: map<string, BotState>, bot: string, directory: Directory, startedAt: int, limits: Limits,
                   ghost kept: map<string, map<string, Trace>>)
      returns (row: Result, events: seq<Event>, next: Option<BotState>, ghost took: seq<Reading>, ghost traces: map<string, Trace>)
      requires AllAccounted(parse, fleet, disks, saved, kept, Stored(ledger))
      requires bot in disks && ListsDisk(directory, disks[bot])
      ensures row.bot == bot && (next.None? <==> row.reason.Some?) && (forall e | e in events :: FromBot(fleet, bot, e))
      ensures next.Some? ==> TookFrom(parse, fleet, bot, directory, disks[bot], StateOf(saved, bot), limits, took, next.value, events,
                                      TracesOf(saved, kept, bot), traces)
      ensures next.Some? ==> BotAccounted(parse, fleet, bot, disks[bot], next.value.files, traces, Stored(ledger) + IdsOf(events))
      ensures next.Some? && AllSeamless(kept) && Gentle(directory, StateOf(saved, bot), limits) ==> Seamless(traces)
    {
      row, events, next, took, traces :=
        ReadBot(parse, fleet, bot, directory, disks[bot], StateOf(saved, bot), startedAt, limits,
                TracesOf(saved, kept, bot), Stored(ledger));
    }

    /** The loop over the declared bots. */
    method ReadAll(saved: map<string, BotState>, bots: seq<string>, directories: map<string, Directory>, startedAt: int, limits: Limits,
                   ghost kept: map<string, map<string, Trace>>)
      returns (g: Gathered, ghost own: map<string, seq<Event>>, ghost found: map<string, map<string, Trace>>)
      requires SEPARATOR !in fleet && AllAccounted(parse, fleet, disks, saved, kept, Stored(ledger))
      requires Declared(bots, directories, disks)
      ensures GatheredFrom(parse, fleet, disks, g, own, found, Stored(ledger))
      ensures RowsFor(bots, g)
      ensures AllGained(parse, fleet, directories, disks, saved, limits, g, own, kept, found)
      ensures AllSeamless(kept) && GentlePass(bots, directories, saved, limits) ==> AllSeamless(found)
    {
      g, own, found := Gathered([], map[], []), map[], map[];
      for i := 0 to |bots|
        invariant GatheredSoFar(parse, fleet, directories, disks, saved, limits, kept, Stored(ledger), bots, i, g, own, found)
      {
        var bot := bots[i];
        var row, events, next, took, traces := ReadOne(saved, bot, directories[bot], startedAt, limits, kept);
        RowMore(bots, i, g, row, events, next);
        if next.Some? {
          GatherOne(parse, fleet, directories, disks, saved, limits, kept, Stored(ledger), bots, i, g, own, found,
                    row, events, next.value, took, traces);
          own, found := own[bot := events], found[bot := traces];
          g := Gathered(g.events + events, g.nexts[bot := next.value], g.rows + [row]);
        } else {
          g := Gathered(g.events, g.nexts, g.rows + [row]);
        }
      }
      assert bots[..|bots|] == bots;
    }

    /** Hand the batch to the plane, if there is one to hand. */
    method Record(batch: seq<Event>, fate: Fate) returns (error: bool)
      requires Valid() && DistinctIds(batch)
      modifies this`ledger
      ensures Valid() && old(ledger) <= ledger
      ensures !error ==> IdsOf(batch) <= Stored(ledger)
      ensures Stored(old(ledger)) <= Stored(ledger) <= Stored(old(ledger)) + IdsOf(batch)
    {
      error := false;
      if batch != [] {
        var outcomes, next := Emit(ledger, batch, fate);
        error := outcomes.None? || |outcomes.value| != |batch|
                 || exists i | 0 <= i < |outcomes.value| :: !Accepted(outcomes.value[i]);
        StoredGrows(ledger, next);
        if !error { AllStored(batch, outcomes.value, next); }
        AllAccountedLater(parse, fleet, disks, disks, cursor, traces, Stored(ledger), Stored(next));
        ledger := next;
      }
    }

    /** A pass from the cursor it finds. `fate` is everything that can go wrong after the reads. */
    method PassFrom(bots: seq<string>, directories: map<string, Directory>, startedAt: int, limits: Limits, fate: Fate)
      returns (error: bool, g: Gathered, ghost own: map<string, seq<Event>>, ghost found: map<string, map<string, Trace>>)
      requires Valid() && Declared(bots, directories, disks)
      modifies this`cursor, this`ledger, this`traces
      ensures Valid() && old(ledger) <= ledger
      ensures !fate.saves ==> cursor == old(cursor) && traces == old(traces)
      ensures fate.saves ==> AllMoved(old(cursor), old(traces), g, own, found, error, cursor, traces, Stored(ledger), bots)
      ensures RowsFor(bots, g) && Shared(g, own)
      ensures AllGained(parse, fleet, directories, disks, old(cursor), limits, g, own, old(traces), found)
      ensures !error ==> IdsOf(g.events) <= Stored(ledger)
      ensures Stored(ledger) <= Stored(old(ledger)) + IdsOf(g.events)
      ensures old(AllSeamless(traces)) && GentlePass(bots, directories, old(cursor), limits) ==> AllSeamless(traces)
    {
      ghost var before := Stored(ledger);
      g, own, found := ReadAll(cursor, bots, directories, startedAt, limits, traces);
      SharesGathered(parse, fleet, disks, g, own, found, before);
      error := Deliver(bots, g, fate, own, found);
    }

    /** The batch goes to the plane, and the cursor moves if the pass lives to save it. */
    method Deliver(bots: seq<string>, g: Gathered, fate: Fate,
                   ghost own: map<string, seq<Event>>, ghost found: map<string, map<string, Trace>>) returns (error: bool)
      requires Valid() && GatheredFrom(parse, fleet, disks, g, own, found, Stored(ledger))
      modifies this`cursor, this`ledger, this`traces
      ensures Valid() && old(ledger) <= ledger
      ensures !fate.saves ==> cursor == old(cursor) && traces == old(traces)
      ensures fate.saves ==> AllMoved(old(cursor), old(traces), g, own, found, error, cursor, traces, Stored(ledger), bots)
      ensures !error ==> IdsOf(g.events) <= Stored(ledger)
      ensures Stored(ledger) <= Stored(old(ledger)) + IdsOf(g.events)
      ensures old(AllSeamless(traces)) && AllSeamless(found) ==> AllSeamless(traces)
    {
      ghost var before := Stored(ledger);
      var batch := Unique(g.events);
      error := Record(batch, fate);
      if fate.saves {
        Settle(bots, g, batch, error, own, found, before);
      }
    }

    /** One pass of `record_compactions`. `lost` is a cursor file set aside as unreadable. */
    method Pass(bots: seq<string>, directories: map<string, Directory>, startedAt: int, limits: Limits, lost: bool, fate: Fate)
      returns (error: bool, g: Gathered, ghost own: map<string, seq<Event>>, ghost found: map<string, map<string, Trace>>)
      requires Valid() && Declared(bots, directories, disks)
      modifies this`cursor, this`ledger, this`traces
      ensures Valid() && old(ledger) <= ledger
      ensures var saved, kept := if lost then map[] else old(cursor), if lost then map[] else old(traces);
              && (!fate.saves ==> cursor == saved && traces == kept)
              && (fate.saves ==> AllMoved(saved, kept, g, own, found, error, cursor, traces, Stored(ledger), bots))
              && AllGained(parse, fleet, directories, disks, saved, limits, g, own, kept, found)
              && (old(AllSeamless(traces)) && GentlePass(bots, directories, saved, limits) ==> AllSeamless(traces))
      ensures RowsFor(bots, g) && Shared(g, own)
      ensures !error ==> IdsOf(g.events) <= Stored(ledger)
      ensures Stored(ledger) <= Stored(old(ledger)) + IdsOf(g.events)
    {
      if lost {
        cursor, traces := map[], map[];
      }
      error, g, own, found := PassFrom(bots, directories, startedAt, limits, fate);
    }

    /** The cursor lies on a line start, and every row of the lines before it is on the plane. */
    ghost predicate Complete(bot: string, name: string)
      reads this
      requires Valid() && bot in cursor && name in cursor[bot].files
    {
      var file, at := disks[bot][name], cursor[bot].files[name];
      LineStart(file, at) && forall row | row in Rows(parse, file[..at]) :: EventOf(fleet, bot, Stem(name), row).id in Stored(ledger)
    }

    lemma SeamlessIsComplete()
      requires Valid() && AllSeamless(traces)
      ensures forall bot, name | bot in cursor && name in cursor[bot].files :: Complete(bot, name)
    {
      forall bot, name | bot in cursor && name in cursor[bot].files ensures Complete(bot, name) {
        NothingMissed(parse, fleet, bot, name, disks[bot][name], traces[bot][name], cursor[bot].files[name], Stored(ledger));
      }
    }

    /** And however it was read: a complete line below a saved cursor has its row on the
        plane, unless some of it lay before the follow, was skipped and counted, or was
        dropped by an unaligned read. */
    lemma EveryLineAccounted(bot: string, name: string, a: nat, b: nat)
      requires Valid() && bot in cursor && name in cursor[bot].files
      requires LineAt(disks[bot][name], a, b) && b <= cursor[bot].files[name]
      ensures Touched(traces[bot][name], a, b) || forall row | row in RowsOfLine(parse, disks[bot][name][a..b - 1]) ::
                EventOf(fleet, bot, Stem(name), row).id in Stored(ledger)
    {
      LineIsAccounted(parse, fleet, bot, name, disks[bot][name], traces[bot][name], cursor[bot].files[name], Stored(ledger), a, b);
    }

    /** One turn of a run. The accounts it leaves are the ones its pass reads. */
    method Take(t: Turn)
      returns (error: bool, g: Gathered, ghost own: map<string, seq<Event>>, ghost found: map<string, map<string, Trace>>)
      requires Valid() && NextTurn(disks, t)
      modifies this
      ensures Valid() && old(ledger) <= ledger && disks == t.grown
      ensures var saved, kept := if t.lost then map[] else old(cursor), if t.lost then map[] else old(traces);
              && (!t.fate.saves ==> cursor == saved && traces == kept)
              && (t.fate.saves ==> AllMoved(saved, kept, g, own, found, error, cursor, traces, Stored(ledger), t.bots))
              && AllGained(parse, fleet, t.directories, t.grown, saved, t.limits, g, own, kept, found)
      ensures RowsFor(t.bots, g) && Shared(g, own) && (!error ==> IdsOf(g.events) <= Stored(ledger))
      ensures Stored(ledger) <= Stored(old(ledger)) + IdsOf(g.events)
      ensures old(AllSeamless(traces)) && Modest(t) ==> AllSeamless(traces)
    {
      Append(t.grown);
      if Modest(t) { ModestIsGentle(t, if t.lost then map[] else cursor); }
      error, g, own, found := Pass(t.bots, t.directories, t.startedAt, t.limits, t.lost, t.fate);
    }

    /** Any run: transcripts grow, passes fail where they will, a lost cursor starts over.
        Nothing is on the plane twice; and from an empty cursor, while no transcript is
        longer than a first read and a pass may take, every row of every complete line
        below a saved cursor is there. */
    method Run(turns: seq<Turn>)
      requires Valid() && Coming(disks, turns)
      modifies this
      ensures Valid() && old(ledger) <= ledger && NoneTwice(ledger)
      ensures old(cursor) == map[] && (forall i | 0 <= i < |turns| :: Modest(turns[i])) ==>
                forall bot, name | bot in cursor && name in cursor[bot].files :: Complete(bot, name)
    {
      for i := 0 to |turns|
        invariant Valid() && old(ledger) <= ledger
        invariant disks == Until(old(disks), turns, i)
        invariant old(cursor) == map[] && (forall k | 0 <= k < i :: Modest(turns[k])) ==> AllSeamless(traces)
      {
        ComingAt(old(disks), turns, i);
        var _, _, _, _ := Take(turns[i]);
      }
      if AllSeamless(traces) { SeamlessIsComplete(); }
    }

    /** The cursor of a pass becomes durable. */
    method Settle(bots: seq<string>, g: Gathered, batch: seq<Event>, error: bool,
                  ghost own: map<string, seq<Event>>, ghost found: map<string, map<string, Trace>>, ghost before: set<EventId>)
      requires Valid() && before <= Stored(ledger)
      requires GatheredFrom(parse, fleet, disks, g, own, found, before)
      requires IdsOf(batch) == IdsOf(g.events) && forall e | e in batch :: e in g.events
      requires !error ==> IdsOf(batch) <= Stored(ledger)
      modifies this`cursor, this`traces
      ensures Valid()
      ensures AllMoved(old(cursor), old(traces), g, own, found, error, cursor, traces, Stored(ledger), bots)
      ensures old(AllSeamless(traces)) && AllSeamless(found) ==> AllSeamless(traces)
    {
      var refused := if error then Owners(batch) else {};
      SettleMoves(parse, fleet, disks, cursor, traces, g, own, found, before, batch, error, Stored(ledger), bots);
      SettleAccounted(parse, fleet, disks, cursor, traces, g, own, found, before, Stored(ledger), batch, error, bots);
      traces := NextTraces(traces, g.nexts, found, refused, NextCursor(cursor, g.nexts, refused, bots));
      cursor := NextCursor(cursor, g.nexts, refused, bots);
    }
  }

  /** One turn of a run: what the transcripts have become, and a pass over them. */
  datatype Turn = Turn(grown: map<string, Disk>, bots: seq<string>, directories: map<string, Directory>,
                       startedAt: int, limits: Limits, lost: bool, fate: Fate)

  ghost predicate Coming(disks: map<string, Disk>, turns: seq<Turn>) {
    forall i | 0 <= i < |turns| :: NextTurn(Until(disks, turns, i), turns[i])
  }

  /** The transcripts before turn `i`. */
  function Until(disks: map<string, Disk>, turns: seq<Turn>, i: nat): map<string, Disk>
    requires i <= |turns|
  {
    if i == 0 then disks else turns[i - 1].grown
  }

  ghost predicate NextTurn(disks: map<string, Disk>, t: Turn) {
    Extends(disks, t.grown) && Declared(t.bots, t.directories, t.grown)
  }

  lemma ComingAt(disks: map<string, Disk>, turns: seq<Turn>, i: nat)
    requires Coming(disks, turns) && i < |turns|
    ensures NextTurn(Until(disks, turns, i), turns[i])
  {
  }

  /** No transcript is longer than a first read, nor than a pass may take. */
  predicate Modest(t: Turn) {
    forall i | 0 <= i < |t.bots| && t.bots[i] in t.directories && t.directories[t.bots[i]].Sessions? ::
      forall k | 0 <= k < |t.directories[t.bots[i]].listed| ::
        t.directories[t.bots[i]].listed[k].size <= t.limits.firstRead && t.directories[t.bots[i]].listed[k].size <= t.limits.readCap
  }

  function StateOf(saved: map<string, BotState>, bot: string): BotState {
    if bot in saved then saved[bot] else BotState(None, map[])
  }

  ghost predicate GentlePass(bots: seq<string>, directories: map<string, Directory>, saved: map<string, BotState>, limits: Limits) {
    forall i | 0 <= i < |bots| && bots[i] in directories :: Gentle(directories[bots[i]], StateOf(saved, bots[i]), limits)
  }

  lemma ModestIsGentle(t: Turn, saved: map<string, BotState>)
    requires Modest(t)
    ensures GentlePass(t.bots, t.directories, saved, t.limits)
  {
    forall i | 0 <= i < |t.bots| && t.bots[i] in t.directories
      ensures Gentle(t.directories[t.bots[i]], StateOf(saved, t.bots[i]), t.limits)
    {
      var d := t.directories[t.bots[i]];
      if d.Sessions? {
        forall k | 0 <= k < |d.listed| ensures Window(d.listed[k], StateOf(saved, t.bots[i]), t.limits).1 {
          assert d.listed[k].size <= t.limits.readCap;
        }
      }
    }
  }

  ghost predicate AllSeamless(traces: map<string, map<string, Trace>>) {
    forall bot | bot in traces :: Seamless(traces[bot])
  }

  /** The cursor moves for every bot when the plane took everything, and
      otherwise only for bots none of whose events were in the batch. */
  function NextCursor(saved: map<string, BotState>, nexts: map<string, BotState>, refused: set<string>, bots: seq<string>)
    : map<string, BotState>
  {
    map bot | bot in bots && (bot in saved || Moves(nexts, refused, bot)) ::
      if Moves(nexts, refused, bot) then nexts[bot] else saved[bot]
  }

  predicate Moves(nexts: map<string, BotState>, refused: set<string>, bot: string) {
    bot in nexts && bot !in refused
  }

  ghost function NextTraces(kept: map<string, map<string, Trace>>, nexts: map<string, BotState>,
                            found: map<string, map<string, Trace>>, refused: set<string>, next: map<string, BotState>)
    : map<string, map<string, Trace>>
    requires nexts.Keys <= found.Keys && next.Keys <= kept.Keys + nexts.Keys
    requires forall bot | bot in next && bot !in kept :: Moves(nexts, refused, bot)
  {
    map bot | bot in next :: if Moves(nexts, refused, bot) then found[bot] else kept[bot]
  }

  lemma SettleMoves(parse: Parser, fleet: string, disks: map<string, Disk>, saved: map<string, BotState>,
                    kept: map<string, map<string, Trace>>, g: Gathered,
                    own: map<string, seq<Event>>, found: map<string, map<string, Trace>>, before: set<EventId>,
                    batch: seq<Event>, error: bool, ids: set<EventId>, bots: seq<string>)
    requires SEPARATOR !in fleet && GatheredFrom(parse, fleet, disks, g, own, found, before) && saved.Keys == kept.Keys
    requires IdsOf(batch) == IdsOf(g.events) && forall e | e in batch :: e in g.events
    requires !error ==> IdsOf(batch) <= ids
    ensures var refused := if error then Owners(batch) else {};
            var next := NextCursor(saved, g.nexts, refused, bots);
            AllMoved(saved, kept, g, own, found, error, next, NextTraces(kept, g.nexts, found, refused, next), ids, bots)
  {
    var refused := if error then Owners(batch) else {};
    forall bot | bot in own
      ensures (bot in Owners(batch) <==> !Idle(g, bot)) && IdsOf(own[bot]) <= IdsOf(batch) && (Idle(g, bot) ==> own[bot] == [])
    {
      OwnerIsBusy(parse, fleet, disks, g, own, found, before, batch, bot);
    }
    MovesFollow(saved, kept, g, own, found, error, refused, ids, bots);
  }

  lemma MovesFollow(saved: map<string, BotState>, kept: map<string, map<string, Trace>>, g: Gathered,
                    own: map<string, seq<Event>>, found: map<string, map<string, Trace>>, error: bool, refused: set<string>,
                    ids: set<EventId>, bots: seq<string>)
    requires saved.Keys == kept.Keys && found.Keys == own.Keys == g.nexts.Keys
    requires forall bot | bot in own :: (Moves(g.nexts, refused, bot) <==> MovesOn(g, error, bot))
    requires forall bot | bot in own && MovesOn(g, error, bot) :: IdsOf(own[bot]) <= ids
    ensures var next := NextCursor(saved, g.nexts, refused, bots);
            AllMoved(saved, kept, g, own, found, error, next, NextTraces(kept, g.nexts, found, refused, next), ids, bots)
  {
    var next := NextCursor(saved, g.nexts, refused, bots);
    forall bot | bot in bots ensures Moved(saved, kept, g, found, error, next, NextTraces(kept, g.nexts, found, refused, next), bot) {
      if bot in own { assert Moves(g.nexts, refused, bot) <==> MovesOn(g, error, bot); }
    }
  }

  lemma OwnerIsBusy(parse: Parser, fleet: string, disks: map<string, Disk>, g: Gathered, own: map<string, seq<Event>>,
                    found: map<string, map<string, Trace>>, before: set<EventId>, batch: seq<Event>, bot: string)
    requires SEPARATOR !in fleet && GatheredFrom(parse, fleet, disks, g, own, found, before) && bot in own
    requires IdsOf(batch) == IdsOf(g.events) && forall e | e in batch :: e in g.events
    ensures (bot in Owners(batch) <==> !Idle(g, bot)) && IdsOf(own[bot]) <= IdsOf(batch) && (Idle(g, bot) ==> own[bot] == [])
  {
    OwnerInBatch(parse, fleet, disks, g, own, found, before, batch, bot);
    if own[bot] != [] { assert own[bot][0] in g.events && own[bot][0].bot == bot; }
    if !Idle(g, bot) {
      var e :| e in g.events && e.bot == bot;
      assert e in own[bot];
    }
  }

  lemma SettleAccounted(parse: Parser, fleet: string, disks: map<string, Disk>, saved: map<string, BotState>,
                        kept: map<string, map<string, Trace>>, g: Gathered, own: map<string, seq<Event>>,
                        found: map<string, map<string, Trace>>, before: set<EventId>, after: set<EventId>,
                        batch: seq<Event>, error: bool, bots: seq<string>)
    requires SEPARATOR !in fleet && before <= after
    requires AllAccounted(parse, fleet, disks, saved, kept, after)
    requires GatheredFrom(parse, fleet, disks, g, own, found, before)
    requires IdsOf(batch) == IdsOf(g.events) && forall e | e in batch :: e in g.events
    requires !error ==> IdsOf(batch) <= after
    ensures var refused := if error then Owners(batch) else {};
            var next := NextCursor(saved, g.nexts, refused, bots);
            AllAccounted(parse, fleet, disks, next, NextTraces(kept, g.nexts, found, refused, next), after)
  {
    var refused := if error then Owners(batch) else {};
    var next := NextCursor(saved, g.nexts, refused, bots);
    var traces := NextTraces(kept, g.nexts, found, refused, next);
    forall bot | bot in next
      ensures bot in disks && BotAccounted(parse, fleet, bot, disks[bot], next[bot].files, traces[bot], after)
    {
      if Moves(g.nexts, refused, bot) {
        OwnerInBatch(parse, fleet, disks, g, own, found, before, batch, bot);
        assert error ==> IdsOf(own[bot]) == {};
        BotAccountedLater(parse, fleet, bot, disks[bot], disks[bot], next[bot].files, found[bot],
                          before + IdsOf(own[bot]), after);
      }
    }
  }

  lemma StoredGrows(ledger: seq<EventId>, next: seq<EventId>)
    requires ledger <= next
    ensures Stored(ledger) <= Stored(next)
  {
  }

  lemma AllStored(batch: seq<Event>, outcomes: seq<Status>, ledger: seq<EventId>)
    requires |outcomes| == |batch|
    requires forall i | 0 <= i < |batch| :: Accepted(outcomes[i]) && batch[i].id in Stored(ledger)
    ensures IdsOf(batch) <= Stored(ledger)
  {
  }

  /** The pass has no event of this bot. */
  ghost predicate Idle(g: Gathered, bot: string) {
    forall e | e in g.events :: e.bot != bot
  }

  /** A bot moves on with its pass, unless the pass had no next state for it or an error
      came while it had events in the batch. */
  ghost predicate MovesOn(g: Gathered, error: bool, bot: string) {
    bot in g.nexts && (error ==> Idle(g, bot))
  }

  /** How one bot's saved state and its accounts move. */
  ghost predicate Moved(saved: map<string, BotState>, kept: map<string, map<string, Trace>>, g: Gathered,
                        found: map<string, map<string, Trace>>, error: bool,
                        next: map<string, BotState>, traces: map<string, map<string, Trace>>, bot: string)
  {
    if MovesOn(g, error, bot) then
      bot in next && next[bot] == g.nexts[bot] && bot in traces && bot in found && traces[bot] == found[bot]
    else if bot in saved then
      bot in next && next[bot] == saved[bot] && bot in traces && bot in kept && traces[bot] == kept[bot]
    else bot !in next
  }

  /** Every bot's, and a bot that moves on has its events on the plane. */
  ghost predicate AllMoved(saved: map<string, BotState>, kept: map<string, map<string, Trace>>, g: Gathered,
                           own: map<string, seq<Event>>, found: map<string, map<string, Trace>>, error: bool,
                           next: map<string, BotState>, traces: map<string, map<string, Trace>>, ids: set<EventId>, bots: seq<string>)
  {
    && (forall bot | bot in bots :: Moved(saved, kept, g, found, error, next, traces, bot))
    && (forall bot | bot in bots && MovesOn(g, error, bot) :: bot in own && IdsOf(own[bot]) <= ids)
    && (forall bot | bot in next :: bot in bots)
  }

  ghost predicate AllAccounted(parse: Parser, fleet: string, disks: map<string, Disk>, cursor: map<string, BotState>,
                               traces: map<string, map<string, Trace>>, ids: set<EventId>)
  {
    traces.Keys == cursor.Keys &&
    forall bot | bot in cursor ::
      bot in disks && BotAccounted(parse, fleet, bot, disks[bot], cursor[bot].files, traces[bot], ids)
  }

  /** Transcripts are append-only. */
  ghost predicate Extends(disks: map<string, Disk>, grown: map<string, Disk>) {
    forall bot | bot in disks :: bot in grown &&
                                 forall name | name in disks[bot] :: name in grown[bot] && disks[bot][name] <= grown[bot][name]
  }

  lemma BotAccountedLater(parse: Parser, fleet: string, bot: string, disk: Disk, grown: Disk, files: map<string, nat>,
                          traces: map<string, Trace>, ids: set<EventId>, more: set<EventId>)
    requires BotAccounted(parse, fleet, bot, disk, files, traces, ids) && ids <= more
    requires forall name | name in disk :: name in grown && disk[name] <= grown[name]
    ensures BotAccounted(parse, fleet, bot, grown, files, traces, more)
  {
    forall name | name in files
      ensures name in grown && Accounted(parse, fleet, bot, name, grown[name], traces[name], files[name], more)
    {
      AccountedLater(parse, fleet, bot, name, disk[name], grown[name], traces[name], files[name], ids, more);
    }
  }

  lemma AllAccountedLater(parse: Parser, fleet: string, disks: map<string, Disk>, grown: map<string, Disk>,
                          cursor: map<string, BotState>, traces: map<string, map<string, Trace>>,
                          ids: set<EventId>, more: set<EventId>)
    requires AllAccounted(parse, fleet, disks, cursor, traces, ids) && Extends(disks, grown) && ids <= more
    ensures AllAccounted(parse, fleet, grown, cursor, traces, more)
  {
    forall bot | bot in cursor
      ensures bot in grown && BotAccounted(parse, fleet, bot, grown[bot], cursor[bot].files, traces[bot], more)
    {
      BotAccountedLater(parse, fleet, bot, disks[bot], grown[bot], cursor[bot].files, traces[bot], ids, more);
    }
  }

  /** The fleet's bots, each with a directory to list; names hold no separator. */
  ghost predicate Declared(bots: seq<string>, directories: map<string, Directory>, disks: map<string, Disk>) {
    && (forall i, j | 0 <= i < j < |bots| :: bots[i] != bots[j])
    && forall i | 0 <= i < |bots| :: SEPARATOR !in bots[i] && bots[i] in directories && bots[i] in disks
                                     && ListsDisk(directories[bots[i]], disks[bots[i]])
  }

  lemma GatherMore(parse: Parser, fleet: string, disks: map<string, Disk>, g: Gathered, own: map<string, seq<Event>>,
                   found: map<string, map<string, Trace>>, ids: set<EventId>, bot: string, row: Result,
                   events: seq<Event>, next: BotState, traces: map<string, Trace>)
    requires GatheredFrom(parse, fleet, disks, g, own, found, ids) && bot !in g.nexts
    requires SEPARATOR !in bot && bot in disks && forall e | e in events :: FromBot(fleet, bot, e)
    requires BotAccounted(parse, fleet, bot, disks[bot], next.files, traces, ids + IdsOf(events))
    ensures GatheredFrom(parse, fleet, disks, Gathered(g.events + events, g.nexts[bot := next], g.rows + [row]),
                         own[bot := events], found[bot := traces], ids)
  {
  }
}
