/** The session-loop hooks the composer merges into a bot's hooks block. */
module Hooks {

  datatype Hook = Hook(kind: string, command: string)
  /** One entry under an event: a matcher and the hooks it runs. */
  datatype Group = Group(matcher: string, hooks: seq<Hook>)
  type Block = map<string, seq<Group>>

  const EVENTS: seq<string> := ["SessionStart", "PreCompact", "SessionEnd"]

  /** The engine's verb for a loop event. */
  function Verb(event: string): string {
    if event == "SessionStart" then "session-start"
    else if event == "PreCompact" then "pre-compact"
    else "session-end"
  }

  /** The engine's entry for an event; the vault's address comes quoted. */
  function Entry(executable: string, vault: string, event: string): Group {
    Group("", [Hook("command", executable + " --vault " + vault + " hook " + Verb(event))])
  }

  predicate EndsWith(text: string, suffix: string) {
    |suffix| <= |text| && text[|text| - |suffix|..] == suffix
  }

  predicate Runs(hook: Hook, event: string) {
    EndsWith(hook.command, "hook " + Verb(event))
  }

  /** `_is_claudron_hook_entry`: some command in it ends in the engine's verb. */
  predicate IsEngine(group: Group, event: string) {
    exists k | 0 <= k < |group.hooks| :: Runs(group.hooks[k], event)
  }

  function Groups(block: Block, event: string): seq<Group> {
    if event in block then block[event] else []
  }

  /** The entries of one event that are not the engine's. */
  function Foreign(groups: seq<Group>, event: string): seq<Group> {
    Filter(groups, NotEngine(event))
  }

  function NotEngine(event: string): Group -> bool {
    group => !IsEngine(group, event)
  }

  function Filter<T>(s: seq<T>, p: T -> bool): seq<T> {
    if s == [] then [] else (if p(s[0]) then [s[0]] else []) + Filter(s[1..], p)
  }

  lemma ForeignHas(groups: seq<Group>, event: string)
    ensures forall g :: g in Foreign(groups, event) <==> g in groups && !IsEngine(g, event)
  {
    FilterHas(groups, NotEngine(event));
  }

  lemma {:induction false} FilterHas<T>(s: seq<T>, p: T -> bool)
    ensures forall x :: x in Filter(s, p) <==> x in s && p(x)
    decreases |s|
  {
    if s != [] {
      FilterHas(s[1..], p);
      assert s == [s[0]] + s[1..];
    }
  }

  /** The merged block, event by event. */
  function Merged(block: Block, executable: string, vault: string): Block {
    map event | event in block.Keys + (set e | e in EVENTS) ::
      if event in EVENTS then Foreign(Groups(block, event), event) + [Entry(executable, vault, event)] else block[event]
  }

  /** The loop over the entries of one event. */
  method Keep(groups: seq<Group>, event: string) returns (kept: seq<Group>)
    ensures kept == Foreign(groups, event)
  {
    kept := [];
    for j := 0 to |groups|
      invariant kept == Foreign(groups[..j], event)
    {
      ForeignAppend(groups[..j], [groups[j]], event);
      ForeignOne(groups[j], event);
      assert groups[..j + 1] == groups[..j] + [groups[j]];
      if !IsEngine(groups[j], event) { kept := kept + [groups[j]]; }
    }
    assert groups[..|groups|] == groups;
  }

  ghost predicate MergedUpTo(block: Block, merged: Block, executable: string, vault: string, events: seq<string>) {
    && merged.Keys == block.Keys + (set e | e in events)
    && forall event | event in merged ::
         merged[event] == if event in events then Foreign(Groups(block, event), event) + [Entry(executable, vault, event)] else block[event]
  }

  ghost predicate Distinct(events: seq<string>) {
    forall i, j | 0 <= i < j < |events| :: events[i] != events[j]
  }

  lemma OneMore(events: seq<string>, i: nat)
    requires Distinct(events) && i < |events|
    ensures events[i] !in events[..i] && events[..i + 1] == events[..i] + [events[i]]
  {
  }

  lemma EventsDistinct()
    ensures Distinct(EVENTS)
  {
    assert |EVENTS[0]| == 12 && |EVENTS[1]| == |EVENTS[2]| == 10;
    assert EVENTS[1][0] != EVENTS[2][0];
  }

  /** `_merge_claudron_hooks`. */
  method Merge(block: Block, executable: string, vault: string) returns (merged: Block)
    ensures merged == Merged(block, executable, vault)
  {
    EventsDistinct();
    merged := MergeAll(block, executable, vault, EVENTS);
  }

  method MergeAll(block: Block, executable: string, vault: string, events: seq<string>) returns (merged: Block)
    requires Distinct(events)
    ensures MergedUpTo(block, merged, executable, vault, events)
  {
    merged := block;
    for i := 0 to |events|
      invariant MergedUpTo(block, merged, executable, vault, events[..i])
    {
      OneMore(events, i);
      merged := MergeEvent(block, merged, executable, vault, events[..i], events[i]);
    }
    assert events[..|events|] == events;
  }

  method MergeEvent(ghost block: Block, sofar: Block, executable: string, vault: string, ghost done: seq<string>, event: string) returns (merged: Block)
    requires MergedUpTo(block, sofar, executable, vault, done) && event !in done
    ensures MergedUpTo(block, merged, executable, vault, done + [event])
  {
    assert Groups(sofar, event) == Groups(block, event);
    var kept := Keep(Groups(sofar, event), event);
    merged := sofar[event := kept + [Entry(executable, vault, event)]];
  }

  lemma ForeignAppend(a: seq<Group>, b: seq<Group>, event: string)
    ensures Foreign(a + b, event) == Foreign(a, event) + Foreign(b, event)
  {
    FilterAppend(a, b, NotEngine(event));
  }

  lemma ForeignOne(group: Group, event: string)
    ensures Foreign([group], event) == if IsEngine(group, event) then [] else [group]
  {
    assert [group][1..] == [] && Filter([], NotEngine(event)) == [];
    assert NotEngine(event)(group) == !IsEngine(group, event);
  }

  lemma {:induction false} FilterAppend<T>(a: seq<T>, b: seq<T>, p: T -> bool)
    ensures Filter(a + b, p) == Filter(a, p) + Filter(b, p)
    decreases |a|
  {
    if a == [] {
      assert a + b == b;
    } else {
      FilterAppend(a[1..], b, p);
      FilterStep(a[0], a[1..] + b, p);
      FilterStep(a[0], a[1..], p);
      assert [a[0]] + (a[1..] + b) == a + b && [a[0]] + a[1..] == a;
    }
  }

  lemma FilterStep<T>(x: T, more: seq<T>, p: T -> bool)
    ensures Filter([x] + more, p) == (if p(x) then [x] else []) + Filter(more, p)
  {
    assert ([x] + more)[1..] == more;
  }

  lemma ForeignTwice(groups: seq<Group>, event: string)
    ensures Foreign(Foreign(groups, event), event) == Foreign(groups, event)
  {
    FilterTwice(groups, NotEngine(event));
  }

  lemma {:induction false} FilterTwice<T>(s: seq<T>, p: T -> bool)
    ensures Filter(Filter(s, p), p) == Filter(s, p)
    decreases |s|
  {
    if s != [] {
      FilterTwice(s[1..], p);
      var rest := Filter(s[1..], p);
      if p(s[0]) { assert ([s[0]] + rest)[1..] == rest; } else { assert [] + rest == rest; }
    }
  }

  lemma EntryIsEngine(executable: string, vault: string, event: string)
    ensures IsEngine(Entry(executable, vault, event), event)
  {
    var prefix := executable + " --vault " + vault + " ";
    var command := Entry(executable, vault, event).hooks[0].command;
    assert command == prefix + ("hook " + Verb(event));
    assert command[|prefix|..] == "hook " + Verb(event);
    assert Runs(Entry(executable, vault, event).hooks[0], event);
  }

  /** What an event holds after a merge: the foreign entries it had, in order, then the
      one entry of the engine; every event outside the loop is as it was. */
  lemma MergedEvent(block: Block, executable: string, vault: string, event: string)
    ensures var after := Groups(Merged(block, executable, vault), event);
            if event in EVENTS then
              after != [] && after[|after| - 1] == Entry(executable, vault, event) && IsEngine(after[|after| - 1], event)
              && (forall k | 0 <= k < |after| - 1 :: !IsEngine(after[k], event))
              && Foreign(after, event) == Foreign(Groups(block, event), event)
            else after == Groups(block, event)
  {
    if event in EVENTS {
      var kept, entry := Foreign(Groups(block, event), event), Entry(executable, vault, event);
      EntryIsEngine(executable, vault, event);
      ForeignAppend(kept, [entry], event);
      ForeignOne(entry, event);
      ForeignTwice(Groups(block, event), event);
      assert Groups(Merged(block, executable, vault), event) == kept + [entry];
      ForeignHas(Groups(block, event), event);
      forall k | 0 <= k < |kept| ensures !IsEngine((kept + [entry])[k], event) { assert kept[k] in kept; }
    }
  }

  /** The last writer wins: an executable or vault that moved leaves no trace, and so
      merging the same twice is merging once. */
  lemma LastWriterWins(block: Block, executable1: string, vault1: string, executable2: string, vault2: string)
    ensures Merged(Merged(block, executable1, vault1), executable2, vault2) == Merged(block, executable2, vault2)
  {
    var once := Merged(block, executable1, vault1);
    forall event | event in EVENTS
      ensures Foreign(Groups(once, event), event) == Foreign(Groups(block, event), event)
    {
      MergedEvent(block, executable1, vault1, event);
    }
  }

  /** Whether an entry of a loop event runs a command. */
  ghost predicate Ran(groups: seq<Group>, hook: Hook) {
    exists g | g in groups :: hook in g.hooks
  }

  /** Entries are replaced whole: a command the engine does not run survives a merge
      if and only if some entry that runs it holds no engine command beside it. */
  lemma CommandSurvives(block: Block, executable: string, vault: string, event: string, hook: Hook)
    requires event in EVENTS && !Runs(hook, event)
    ensures Ran(Groups(Merged(block, executable, vault), event), hook) <==>
            exists g | g in Groups(block, event) :: hook in g.hooks && !IsEngine(g, event)
  {
    var entry := Entry(executable, vault, event);
    var kept := Foreign(Groups(block, event), event);
    EntryIsEngine(executable, vault, event);
    ForeignHas(Groups(block, event), event);
    assert Groups(Merged(block, executable, vault), event) == kept + [entry];
    assert hook !in entry.hooks;
    if g :| g in Groups(block, event) && hook in g.hooks && !IsEngine(g, event) {
      assert g in kept + [entry];
    }
  }

  /** So a command that shares an entry with the engine's is lost. */
  lemma SharedEntryIsLost(executable: string, vault: string, event: string, hook: Hook)
    requires event in EVENTS && !Runs(hook, event)
    ensures var shared := Group("", [hook] + Entry(executable, vault, event).hooks);
            !Ran(Groups(Merged(map[event := [shared]], executable, vault), event), hook)
  {
    var entry := Entry(executable, vault, event);
    var shared := Group("", [hook] + entry.hooks);
    EntryIsEngine(executable, vault, event);
    assert shared.hooks[1] == entry.hooks[0];
    assert IsEngine(shared, event);
    CommandSurvives(map[event := [shared]], executable, vault, event, hook);
  }

  /** What goes in a merge: exactly the entries with a command that ends as the engine's do. */
  lemma EntrySurvives(block: Block, executable: string, vault: string, event: string, group: Group)
    requires event in EVENTS && group != Entry(executable, vault, event)
    ensures group in Groups(Merged(block, executable, vault), event) <==>
            group in Groups(block, event) && forall k | 0 <= k < |group.hooks| :: !Runs(group.hooks[k], event)
  {
    ForeignHas(Groups(block, event), event);
    assert Groups(Merged(block, executable, vault), event) == Foreign(Groups(block, event), event) + [Entry(executable, vault, event)];
  }

  /** The engine's verb stands apart in the engine's own command. */
  lemma VerbStandsApart(executable: string, vault: string, event: string)
    ensures var command := Entry(executable, vault, event).hooks[0].command; var at := |command| - |Verb(event)| - 6;
                                                                             0 <= at < |command| && command[at] == ' '
  {
    var front := executable + " --vault " + vault;
    var command := Entry(executable, vault, event).hooks[0].command;
    assert command == front + " hook " + Verb(event);
    assert command[|front|] == " hook "[0];
  }

  /** The ending is all that is looked at: a fleet's own command whose last words are the
      engine's goes too. */
  lemma SameEndingIsLost(executable: string, vault: string)
    ensures var own := Group("", [Hook("command", "/opt/web" + "hook session-end")]);
            && own != Entry(executable, vault, "SessionEnd")
            && own !in Groups(Merged(map["SessionEnd" := [own]], executable, vault), "SessionEnd")
  {
    var own := Group("", [Hook("command", "/opt/web" + "hook session-end")]);
    var command := own.hooks[0].command;
    assert Verb("SessionEnd") == "session-end" by {
      assert |"SessionEnd"| != |"SessionStart"|;
      assert "SessionEnd"[0] != "PreCompact"[0];
    }
    assert "hook " + "session-end" == "hook session-end";
    assert command[|"/opt/web"|..] == "hook " + Verb("SessionEnd");
    assert Runs(own.hooks[0], "SessionEnd");
    assert EVENTS[2] == "SessionEnd";
    VerbStandsApart(executable, vault, "SessionEnd");
    assert command[|command| - |Verb("SessionEnd")| - 6] == "/opt/web"[7];
    EntrySurvives(map["SessionEnd" := [own]], executable, vault, "SessionEnd", own);
  }
}
