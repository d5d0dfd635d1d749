/** Bot automation controls and run records in the host-shared fleet state. */
module AutomationLog {
  import opened Common

  datatype Verb = Pause | Resume | Record

  datatype Input = Reason(text: string) | Nothing | Outcome(outcome: string, pr: Option<string>, issue: Option<string>)

  const OUTCOMES: set<string> := {"completed", "bypassed", "needs-input", "blocked", "partial"}
  const MAX_REASON := 4096

  datatype Entry = Entry(request: string, action: Verb, input: Input, timestamp: string, actor: string)
  datatype PauseState = PauseState(reason: string, since: string, actor: string)

  /** A bot's row: its fleet stamp, the automation keys, and everything else in it. */
  datatype Row = Row(fleet: string, controls: seq<Entry>, runs: seq<Entry>, pause: Option<PauseState>, others: string)
  datatype State = State(bots: map<string, Row>, updated: string)

  datatype Code = InvalidArgument | Unavailable | Conflict
  datatype Result = Committed | Unchanged | Refused(code: Code)

  /** How the write ends: done, failed before the file was replaced, or after. */
  datatype Write = Written | FailsBefore | FailsAfter

  /** The input a verb accepts, already in its retained form. Text is bounded as
      one byte a character. */
  predicate ValidInput(verb: Verb, input: Input) {
    match verb
    case Pause =>
      input.Reason? && 0 < |input.text| <= MAX_REASON && '\0' !in input.text
      && !IsSpace(input.text[0]) && !IsSpace(input.text[|input.text| - 1])
    case Resume => input.Nothing?
    case Record => input.Outcome? && input.outcome in OUTCOMES
  }

  function Find(entries: seq<Entry>, request: string): Option<Entry> {
    if entries == [] then None
    else if entries[0].request == request then Some(entries[0])
    else Find(entries[1..], request)
  }

  // ---- the log a row is a view of ----

  function Controls(log: seq<Entry>): seq<Entry> {
    if log == [] then []
    else Controls(log[..|log| - 1]) + if log[|log| - 1].action.Record? then [] else [log[|log| - 1]]
  }

  function Runs(log: seq<Entry>): seq<Entry> {
    if log == [] then []
    else Runs(log[..|log| - 1]) + if log[|log| - 1].action.Record? then [log[|log| - 1]] else []
  }

  /** Paused exactly while the last control is a pause, as that control said. */
  function PausedBy(controls: seq<Entry>): Option<PauseState> {
    if controls == [] then None
    else
      var last := controls[|controls| - 1];
      if last.action.Pause? && last.input.Reason? then Some(PauseState(last.input.text, last.timestamp, last.actor)) else None
  }

  ghost predicate OnceEach(log: seq<Entry>) {
    forall i, j | 0 <= i < j < |log| :: log[i].request != log[j].request
  }

  predicate AllValid(log: seq<Entry>) {
    forall i | 0 <= i < |log| :: ValidInput(log[i].action, log[i].input)
  }

  lemma AllValidMore(log: seq<Entry>, entry: Entry)
    requires AllValid(log) && ValidInput(entry.action, entry.input)
    ensures AllValid(log + [entry])
  {
  }

  ghost predicate ViewOf(row: Row, log: seq<Entry>) {
    && row.controls == Controls(log) && row.runs == Runs(log) && row.pause == PausedBy(row.controls)
    && OnceEach(log) && AllValid(log)
  }

  lemma {:induction false} ViewHolds(log: seq<Entry>)
    ensures forall e :: e in log <==> e in Controls(log) || e in Runs(log)
    ensures forall e | e in Controls(log) :: !e.action.Record?
    ensures forall e | e in Runs(log) :: e.action.Record?
    decreases |log|
  {
    if log != [] {
      ViewHolds(log[..|log| - 1]);
      assert log == log[..|log| - 1] + [log[|log| - 1]];
    }
  }

  lemma {:induction false} FindFinds(entries: seq<Entry>, request: string)
    ensures Find(entries, request).None? <==> forall e | e in entries :: e.request != request
    ensures Find(entries, request).Some? ==> Find(entries, request).value in entries
    ensures Find(entries, request).Some? ==> Find(entries, request).value.request == request
    decreases |entries|
  {
    if entries != [] {
      FindFinds(entries[1..], request);
      assert entries == [entries[0]] + entries[1..];
    }
  }

  lemma AppendView(log: seq<Entry>, entry: Entry)
    ensures Controls(log + [entry]) == Controls(log) + if entry.action.Record? then [] else [entry]
    ensures Runs(log + [entry]) == Runs(log) + if entry.action.Record? then [entry] else []
  {
    assert (log + [entry])[..|log|] == log;
  }

  /** The entry a request names, if the log has one: there is only one. */
  lemma LookupIsUnique(log: seq<Entry>, row: Row, request: string)
    requires ViewOf(row, log)
    ensures Find(row.controls + row.runs, request).None? <==> forall e | e in log :: e.request != request
    ensures forall e | e in log && e.request == request :: Find(row.controls + row.runs, request) == Some(e)
  {
    ViewHolds(log);
    var all := row.controls + row.runs;
    FindFinds(all, request);
    forall e | e in log ensures e in all { }
    forall e | e in log && e.request == request ensures Find(all, request) == Some(e) {
      var f := Find(all, request).value;
      assert f in log;
      var i :| 0 <= i < |log| && log[i] == e;
      var j :| 0 <= j < |log| && log[j] == f;
      assert i == j;
    }
  }

  class Store {
    /** The fleet state file; `None` where there is none. */
    var state: Option<State>
    /** Every entry committed for a bot, in order. */
    ghost var logs: map<string, seq<Entry>>

    /** Each bot whose row began without automation history shows exactly its log. */
    ghost predicate Valid()
      reads this
    {
      forall bot | bot in logs :: state.Some? && bot in state.value.bots && ViewOf(state.value.bots[bot], logs[bot])
    }

    constructor (state: State)
      ensures this.state == Some(state) && Valid()
      ensures logs.Keys == set bot | bot in state.bots && Fresh(state.bots[bot])
    {
      this.state := Some(state);
      this.logs := map bot | bot in state.bots && Fresh(state.bots[bot]) :: [];
    }

    /** Append one new entry to a bot's row and to its log. */
    method Commit(bot: string, entry: Entry)
      requires Valid() && state.Some? && bot in state.value.bots && ValidInput(entry.action, entry.input)
      requires Find(state.value.bots[bot].controls + state.value.bots[bot].runs, entry.request).None?
      modifies this
      ensures Valid() && state == Some(Appended(old(state).value, bot, entry))
      ensures logs == Logged(old(logs), bot, entry)
    {
      var row := state.value.bots[bot];
      if entry.action.Record? {
        row := row.(runs := row.runs + [entry]);
      } else {
        row := row.(controls := row.controls + [entry],
        pause := if entry.action.Pause? then Some(PauseState(entry.input.text, entry.timestamp, entry.actor)) else None);
      }
      if bot in logs {
        LookupIsUnique(logs[bot], state.value.bots[bot], entry.request);
        ViewGrows(logs[bot], state.value.bots[bot], row, entry);
        logs := logs[bot := logs[bot] + [entry]];
      }
      state := Some(State(state.value.bots[bot := row], entry.timestamp));
    }

    /** `mutate`: one control or run record under the writer's lock. */
    method Mutate(fleet: string, bot: string, verb: Verb, actor: string, request: string, input: Input,
                  now: string, lockFree: bool, write: Write)
      returns (result: Result)
      requires Valid()
      modifies this
      ensures Valid()
      ensures !ValidInput(verb, input) ==> result == Refused(InvalidArgument)
      ensures !lockFree || !Stamped(old(state), fleet, bot) ==> result.Refused?
      ensures var entry := Entry(request, verb, input, now, actor);
              if Accepts(old(state), fleet, bot, entry) && lockFree && !write.FailsBefore? then
                state == Some(Appended(old(state).value, bot, entry)) && logs == Logged(old(logs), bot, entry)
              else state == old(state) && logs == old(logs)
      ensures result.Committed? <==> Accepts(old(state), fleet, bot, Entry(request, verb, input, now, actor)) && lockFree && write.Written?
      ensures bot in old(logs) && ValidInput(verb, input) && lockFree && Stamped(old(state), fleet, bot) ==>
                result == Answer(old(logs)[bot], Entry(request, verb, input, now, actor), write)
    {
      if !ValidInput(verb, input) { return Refused(InvalidArgument); }
      if !lockFree || state.None? || bot !in state.value.bots { return Refused(Unavailable); }
      var row := state.value.bots[bot];
      if row.fleet != fleet { return Refused(Conflict); }
      var entry := Entry(request, verb, input, now, actor);
      var previous := Find(row.controls + row.runs, request);
      if bot in logs { AnswerFound(logs[bot], row, entry, write); }
      if previous.Some? {
        return if SameRequest(previous.value, entry) then Unchanged else Refused(Conflict);
      }
      if write.FailsBefore? { return Refused(Unavailable); }
      Commit(bot, entry);
      result := if write.Written? then Committed else Refused(Unavailable);
    }

    /** One call of a run. */
    method ServeOne(c: Call) returns (result: Result)
      requires Valid()
      modifies this
      ensures Valid() && Grown(old(logs), logs) && Kept(old(state), state, [c])
      ensures result.Committed? && c.bot in logs ==> !Holds(old(logs)[c.bot], c.request) && Holds(logs[c.bot], c.request)
    {
      result := Mutate(c.fleet, c.bot, c.verb, c.actor, c.request, c.input, c.now, c.lockFree, c.write);
      StepEffect(old(state), state, old(logs), logs, c);
      if result.Committed? && c.bot in logs {
        LookupIsUnique(old(logs)[c.bot], old(state).value.bots[c.bot], c.request);
      }
    }

    /** A run of calls: histories only grow, a bot nobody called keeps its row, and
        no request is committed twice for a bot. */
    method Serve(calls: seq<Call>) returns (results: seq<Result>)
      requires Valid()
      modifies this
      ensures Valid() && |results| == |calls|
      ensures Grown(old(logs), logs) && Kept(old(state), state, calls)
      ensures CommittedOnce(calls, results, logs.Keys)
    {
      results := [];
      for k := 0 to |calls|
        invariant Valid() && |results| == k
        invariant Grown(old(logs), logs) && Kept(old(state), state, calls[..k])
        invariant AllHeld(calls[..k], results, logs) && CommittedOnce(calls[..k], results, logs.Keys)
      {
        ghost var before, had := state, logs;
        var result := ServeOne(calls[k]);
        assert calls[..k + 1] == calls[..k] + [calls[k]];
        KeptOnwards(old(state), before, state, calls[..k], calls[k]);
        CommitOnwards(calls[..k], results, had, calls[k], result, logs);
        results := results + [result];
      }
      assert calls[..|calls|] == calls;
    }

    /** `status`: fails closed without a row. */
    method Status(fleet: string, bot: string, configured: bool) returns (eligible: bool, paused: bool, runs: nat, stamped: bool)
      requires Valid()
      ensures stamped <==> Stamped(state, fleet, bot)
      ensures stamped && bot in logs ==> paused == PausedBy(Controls(logs[bot])).Some? && runs == |Runs(logs[bot])|
      ensures stamped ==> paused == state.value.bots[bot].pause.Some? && runs == |state.value.bots[bot].runs|
      ensures eligible <==> configured && stamped && !paused
    {
      eligible, paused, runs, stamped := false, false, 0, false;
      if state.Some? && bot in state.value.bots && state.value.bots[bot].fleet == fleet {
        var row := state.value.bots[bot];
        stamped, paused, runs := true, row.pause.Some?, |row.runs|;
        eligible := configured && !paused;
      }
    }
  }

  datatype Call = Call(fleet: string, bot: string, verb: Verb, actor: string, request: string, input: Input,
                       now: string, lockFree: bool, write: Write)

  ghost predicate NotCalled(calls: seq<Call>, bot: string) {
    forall i | 0 <= i < |calls| :: calls[i].bot != bot
  }

  /** Every bot's row is still there, and one that was not called is as it was. */
  ghost predicate Kept(before: Option<State>, after: Option<State>, calls: seq<Call>) {
    before.Some? ==>
      (after.Some? && after.value.bots.Keys == before.value.bots.Keys
       && forall bot | bot in after.value.bots && NotCalled(calls, bot) :: after.value.bots[bot] == before.value.bots[bot])
  }

  ghost predicate Grown(before: map<string, seq<Entry>>, after: map<string, seq<Entry>>) {
    before.Keys == after.Keys && forall bot | bot in before :: before[bot] <= after[bot]
  }

  ghost predicate AllHeld(calls: seq<Call>, results: seq<Result>, logs: map<string, seq<Entry>>)
    requires |results| == |calls|
  {
    forall i | 0 <= i < |calls| && results[i].Committed? && calls[i].bot in logs :: Holds(logs[calls[i].bot], calls[i].request)
  }

  ghost predicate CommittedOnce(calls: seq<Call>, results: seq<Result>, bots: set<string>)
    requires |results| == |calls|
  {
    forall i, j | 0 <= i < j < |calls| && calls[i].bot == calls[j].bot && calls[i].request == calls[j].request && calls[i].bot in bots ::
      !(results[i].Committed? && results[j].Committed?)
  }

  lemma KeptOnwards(first: Option<State>, before: Option<State>, after: Option<State>, calls: seq<Call>, call: Call)
    requires Kept(first, before, calls) && Kept(before, after, [call])
    ensures Kept(first, after, calls + [call])
  {
    forall bot | NotCalled(calls + [call], bot) ensures NotCalled(calls, bot) && NotCalled([call], bot) {
      forall i | 0 <= i < |calls| ensures calls[i].bot != bot { assert (calls + [call])[i].bot != bot; }
      assert (calls + [call])[|calls|].bot != bot;
    }
  }

  lemma CommitOnwards(calls: seq<Call>, results: seq<Result>, before: map<string, seq<Entry>>, call: Call, result: Result, after: map<string, seq<Entry>>)
    requires |results| == |calls| && Grown(before, after)
    requires AllHeld(calls, results, before) && CommittedOnce(calls, results, before.Keys)
    requires result.Committed? && call.bot in after ==> !Holds(before[call.bot], call.request) && Holds(after[call.bot], call.request)
    ensures AllHeld(calls + [call], results + [result], after)
    ensures CommittedOnce(calls + [call], results + [result], after.Keys)
  {
    forall bot, request | bot in before && Holds(before[bot], request) ensures Holds(after[bot], request) {
      var i :| 0 <= i < |before[bot]| && before[bot][i].request == request;
      assert after[bot][i].request == request;
    }
  }

  lemma LoggedGrows(logs: map<string, seq<Entry>>, bot: string, entry: Entry)
    ensures Grown(logs, Logged(logs, bot, entry))
    ensures bot in logs ==> Holds(Logged(logs, bot, entry)[bot], entry.request)
  {
    if bot in logs {
      var log := logs[bot] + [entry];
      assert log[|log| - 1].request == entry.request;
    }
  }

  lemma StepEffect(before: Option<State>, after: Option<State>, had: map<string, seq<Entry>>, has: map<string, seq<Entry>>, c: Call)
    requires var entry := Entry(c.request, c.verb, c.input, c.now, c.actor);
             || (before == after && had == has)
             || (before.Some? && c.bot in before.value.bots && after == Some(Appended(before.value, c.bot, entry)) && has == Logged(had, c.bot, entry))
    ensures Grown(had, has) && Kept(before, after, [c])
    ensures c.bot in had && has == Logged(had, c.bot, Entry(c.request, c.verb, c.input, c.now, c.actor)) ==> Holds(has[c.bot], c.request)
  {
    var entry := Entry(c.request, c.verb, c.input, c.now, c.actor);
    LoggedGrows(had, c.bot, entry);
    if before != after { AppendedKeeps(before.value, c, entry); }
  }

  lemma AppendedKeeps(before: State, call: Call, entry: Entry)
    requires call.bot in before.bots
    ensures Kept(Some(before), Some(Appended(before, call.bot, entry)), [call])
  {
    assert [call][0].bot == call.bot;
  }

  ghost predicate Holds(log: seq<Entry>, request: string) {
    exists i | 0 <= i < |log| :: log[i].request == request
  }

  /** What a row that shows a log says: request IDs are distinct across both of its
      lists, each committed entry is in one of them, and it is paused exactly when
      its last control is a pause. */
  lemma RowIsFold(row: Row, log: seq<Entry>)
    requires ViewOf(row, log)
    ensures OnceEach(row.controls + row.runs)
    ensures |row.controls| + |row.runs| == |log| && forall e :: e in log <==> e in row.controls + row.runs
    ensures row.pause.Some? <==> row.controls != [] && row.controls[|row.controls| - 1].action.Pause?
  {
    ViewHolds(log);
    FoldOnce(log);
    FoldCounts(log);
    if row.controls != [] {
      var last := row.controls[|row.controls| - 1];
      assert last in row.controls;
      assert last in log;
    }
  }

  lemma {:induction false} FoldOnce(log: seq<Entry>)
    requires OnceEach(log)
    ensures OnceEach(Controls(log) + Runs(log))
    decreases |log|
  {
    if log != [] {
      var rest, last := log[..|log| - 1], log[|log| - 1];
      FoldOnce(rest);
      assert log == rest + [last];
      LastIsNew(rest, last);
      if last.action.Record? {
        OnceInserted(Controls(rest) + Runs(rest), [], last);
        assert Controls(log) + Runs(log) == (Controls(rest) + Runs(rest)) + [last] + [];
      } else {
        OnceInserted(Controls(rest), Runs(rest), last);
        assert Controls(log) + Runs(log) == Controls(rest) + [last] + Runs(rest);
      }
    }
  }

  lemma {:induction false} FoldCounts(log: seq<Entry>)
    ensures |Controls(log)| + |Runs(log)| == |log|
    decreases |log|
  {
    if log != [] {
      var rest, last := log[..|log| - 1], log[|log| - 1];
      FoldCounts(rest);
      AppendView(rest, last);
      assert log == rest + [last];
    }
  }

  lemma LastIsNew(rest: seq<Entry>, last: Entry)
    requires OnceEach(rest + [last])
    ensures forall e | e in Controls(rest) + Runs(rest) :: e.request != last.request
  {
    ViewHolds(rest);
    forall e | e in rest ensures e.request != last.request {
      var i :| 0 <= i < |rest| && rest[i] == e;
      assert (rest + [last])[i].request != (rest + [last])[|rest|].request;
    }
  }

  lemma OnceInserted(a: seq<Entry>, b: seq<Entry>, entry: Entry)
    requires OnceEach(a + b)
    requires forall e | e in a + b :: e.request != entry.request
    ensures OnceEach(a + [entry] + b)
  {
    var s := a + [entry] + b;
    forall i, j | 0 <= i < j < |s| ensures s[i].request != s[j].request {
      var p, q := if i < |a| then i else i - 1, if j < |a| then j else j - 1;
      assert i != |a| ==> s[i] == (a + b)[p] && s[i] in a + b;
      assert j != |a| ==> s[j] == (a + b)[q] && s[j] in a + b;
    }
  }

  predicate Fresh(row: Row) {
    row.controls == [] && row.runs == [] && row.pause.None?
  }

  predicate Stamped(state: Option<State>, fleet: string, bot: string) {
    state.Some? && bot in state.value.bots && state.value.bots[bot].fleet == fleet
  }

  predicate SameRequest(previous: Entry, entry: Entry) {
    previous.action == entry.action && previous.input == entry.input && previous.actor == entry.actor
  }

  /** The state with one more entry in one bot's row, and nothing else changed. */
  function Appended(state: State, bot: string, entry: Entry): State
    requires bot in state.bots
  {
    var row := state.bots[bot];
    State(state.bots[bot :=
          if entry.action.Record? then row.(runs := row.runs + [entry])
          else row.(controls := row.controls + [entry], pause := PausedBy(row.controls + [entry]))], entry.timestamp)
  }

  ghost function Logged(logs: map<string, seq<Entry>>, bot: string, entry: Entry): map<string, seq<Entry>> {
    if bot in logs then logs[bot := logs[bot] + [entry]] else logs
  }

  /** A valid request the bot's row has not seen. */
  predicate Accepts(state: Option<State>, fleet: string, bot: string, entry: Entry) {
    && ValidInput(entry.action, entry.input) && Stamped(state, fleet, bot)
    && Find(state.value.bots[bot].controls + state.value.bots[bot].runs, entry.request).None?
  }

  lemma AnswerFound(log: seq<Entry>, row: Row, entry: Entry, write: Write)
    requires ViewOf(row, log)
    ensures var found := Find(row.controls + row.runs, entry.request);
            Answer(log, entry, write) ==
            if found.Some? then (if SameRequest(found.value, entry) then Unchanged else Refused(Conflict))
            else if write.Written? then Committed else Refused(Unavailable)
  {
    LookupIsUnique(log, row, entry.request);
    var found := Find(row.controls + row.runs, entry.request);
    if i :| 0 <= i < |log| && log[i].request == entry.request {
      assert log[i] in log;
      assert found == Some(log[i]);
      assert forall j | 0 <= j < |log| && log[j].request == entry.request :: log[j] in log;
    }
  }

  /** What a request gets, by the log alone: new, a replay, or a conflict. */
  ghost function Answer(log: seq<Entry>, entry: Entry, write: Write): Result {
    if exists i | 0 <= i < |log| :: log[i].request == entry.request then
      if exists i | 0 <= i < |log| :: log[i].request == entry.request && SameRequest(log[i], entry) then Unchanged
      else Refused(Conflict)
    else if write.Written? then Committed else Refused(Unavailable)
  }

  lemma OnceAtEnd(log: seq<Entry>, entry: Entry)
    requires OnceEach(log) && forall e | e in log :: e.request != entry.request
    ensures OnceEach(log + [entry])
  {
    assert log + [entry] == log + [entry] + [];
    assert log + [] == log;
    OnceInserted(log, [], entry);
  }

  lemma ViewGrows(log: seq<Entry>, row: Row, next: Row, entry: Entry)
    requires ViewOf(row, log) && ValidInput(entry.action, entry.input)
    requires forall e | e in log :: e.request != entry.request
    requires next.controls == row.controls + (if entry.action.Record? then [] else [entry])
    requires next.runs == row.runs + (if entry.action.Record? then [entry] else [])
    requires next.pause == if entry.action.Record? then row.pause else PausedBy(next.controls)
    ensures ViewOf(next, log + [entry])
  {
    AppendView(log, entry);
    assert row.controls + [] == row.controls;
    OnceAtEnd(log, entry);
    AllValidMore(log, entry);
  }
}
