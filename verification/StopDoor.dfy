/** Deliberate stops: the record goes down before the unit does, and comes off
    only beside an installed unit. */
module StopDoor {

  /** How one step ends: done, refused or failed with a word, lost without one, or the process dies. */
  datatype End = Done | Failed | Lost | Dead

  /** What becomes of one step: whether it took effect, whether a native effect
      had begun, and how it ended. */
  datatype Fate = Fate(effect: bool, began: bool, end: End)

  datatype StopResult = Stopped(changed: bool, recorded: bool) | StopRefused(attempted: bool, written: bool) | StopDied
  datatype StartResult = Running(changed: bool, kept: bool) | StartRefused(attempted: bool) | StartDied

  datatype Operation = Stop | Start(ready: bool) | Restart | Sweep | LoseUnit | RegainUnit

  /** One look at the host: the unit file, the stop record, and whether the unit
      is gone because a stop that had written its record removed it. */
  datatype Moment = Moment(unit: bool, record: bool, meant: bool)

  predicate Sound(m: Moment) {
    m.meant ==> !m.unit && m.record
  }

  /** What was meant is not forgotten while the unit stays away. */
  predicate Remembers(a: Moment, b: Moment) {
    a.meant && !b.unit ==> b.meant
  }

  ghost predicate Remembered(seen: seq<Moment>) {
    forall i | 0 < i < |seen| :: Remembers(seen[i - 1], seen[i])
  }

  /** The fate of the next step; past the end of a list every step goes well. */
  function Coming(fate: seq<Fate>): Fate {
    if fate == [] then Fate(true, true, Done) else fate[0]
  }

  /** The unit is observed, the record is written, and the proof that the bot is
      stopped fails. */
  predicate Unconfirmed(fate: seq<Fate>) {
    |fate| >= 3 && fate[0].end.Done? && fate[1].end.Done? && fate[2].end.Failed?
  }

  function Later(fate: seq<Fate>): seq<Fate> {
    if fate == [] then [] else fate[1..]
  }

  class Door {
    /** The stop record is in the bot's data directory. */
    var record: bool
    /** The bot's unit file is installed. */
    var unit: bool
    var fate: seq<Fate>
    /** The unit is gone because a stop that had written its record removed it. */
    ghost var meant: bool
    /** The last stop asked for its record's removal. */
    ghost var asked: bool

    /** What anyone looking between two steps has found, a crash's leavings included. */
    ghost var seen: seq<Moment>

    /** A unit that a recorded stop removed is never seen absent without the record. */
    ghost predicate Valid()
      reads this
    {
      && Sound(Moment(unit, record, meant)) && (forall m | m in seen :: Sound(m))
      && Remembered(seen + [Moment(unit, record, meant)])
    }

    constructor ()
      ensures Valid() && unit && !record && !meant && seen == []
    {
      record, unit, fate, meant, asked, seen := false, true, [], false, false, [];
    }

    method Draw() returns (next: Fate)
      requires Valid()
      modifies this`fate, this`seen
      ensures Valid() && seen == old(seen) + [Moment(unit, record, meant)]
      ensures next == Coming(old(fate)) && fate == Later(old(fate))
    {
      seen := seen + [Moment(unit, record, meant)];
      next, fate := Coming(fate), Later(fate);
    }

    /** `write_stop`: the record appears at once or not at all. */
    method WriteRecord() returns (end: End)
      requires Valid()
      modifies this`fate, this`seen, this`record
      ensures old(seen) <= seen
      ensures Valid() && (old(record) ==> record)
      ensures end == Coming(old(fate)).end && fate == Later(old(fate))
      ensures end.Done? ==> record
    {
      var f := Draw();
      if f.effect || f.end.Done? {
        record := true;
      }
      end := f.end;
    }

    /** `clear_stop`. */
    method ClearRecord() returns (end: End)
      requires Valid() && !meant
      modifies this`fate, this`seen, this`record, this`asked
      ensures old(seen) <= seen
      ensures Valid() && asked && (record ==> old(record))
      ensures end.Done? ==> !record
    {
      asked := true;
      var f := Draw();
      if f.effect || f.end.Done? {
        record := false;
      }
      end := f.end;
    }

    /** `svc_bot_disenroll_exact`: removes the unit file only after announcing its effect. */
    method Disenroll(ghost recorded: bool) returns (end: End, attempted: bool)
      requires Valid() && (recorded ==> record)
      modifies this`fate, this`seen, this`unit, this`meant
      ensures old(seen) <= seen
      ensures Valid()
      ensures !attempted ==> unit == old(unit) && meant == old(meant)
      ensures end.Done? ==> attempted
      ensures unit ==> old(unit)
      ensures old(unit) && !unit ==> meant == recorded
      ensures old(meant) && !unit ==> meant
    {
      var f := Draw();
      if f.began && f.effect {
        meant := if unit then recorded else meant;
        unit := false;
      }
      end := f.end;
      attempted := f.end.Done? || f.end.Lost? || f.began;
    }

    /** A native observation: of the unit file, or that it cannot be made. */
    method Observe() returns (end: End, installed: bool)
      requires Valid()
      modifies this`fate, this`seen
      ensures old(seen) <= seen
      ensures Valid()
      ensures end == Coming(old(fate)).end && fate == Later(old(fate))
      ensures end.Done? ==> installed == unit
    {
      var f := Draw();
      end, installed := f.end, unit;
    }

    /** The stop arm of `set_bot_running`. */
    method StopBot() returns (result: StopResult)
      requires Valid()
      modifies this
      ensures old(seen) <= seen
      ensures Valid()
      ensures result.Stopped? ==> !unit && (result.recorded ==> record)
      ensures result.Stopped? && result.changed && result.recorded ==> meant
      ensures result.StopRefused? && !result.attempted ==> unit == old(unit)
      ensures result.StopRefused? ==> (asked <==> result.written && !result.attempted && old(unit))
      ensures result.StopRefused? && !result.written ==> unit == old(unit) && record == old(record)
      ensures !old(unit) && Unconfirmed(old(fate)) ==> result == StopRefused(false, true) && record && !asked
      ensures old(meant) && !unit ==> meant
    {
      asked := false;
      var end, installed := Observe();
      if end.Dead? { return StopDied; }
      if !end.Done? {
        return StopRefused(false, false);
      }
      var written := WriteRecord();
      if written.Dead? { return StopDied; }
      var recorded := written.Done?;
      if installed {
        result := Remove(recorded);
      } else {
        var confirmed, there := Observe();
        if confirmed.Dead? { return StopDied; }
        result := if confirmed.Done? && !there then Stopped(false, recorded) else StopRefused(false, true);
      }
    }

    /** Removal, its proof, and the record's fate when nothing was removed. */
    method Remove(recorded: bool) returns (result: StopResult)
      requires Valid() && unit && (recorded ==> record)
      modifies this
      ensures old(seen) <= seen
      ensures Valid()
      ensures result.Stopped? ==> !unit && result.changed && result.recorded == recorded && (recorded ==> meant)
      ensures result.StopRefused? ==> result.written && (!result.attempted ==> unit)
      ensures result.StopRefused? ==> (asked <==> old(asked) || !result.attempted)
    {
      var end, attempted := Disenroll(recorded);
      if end.Dead? { return StopDied; }
      if end.Done? {
        var confirmed, installed := Observe();
        if confirmed.Dead? { return StopDied; }
        return if confirmed.Done? && !installed then Stopped(true, recorded) else StopRefused(true, true);
      }
      if !attempted {
        var cleared := ClearRecord();
        if cleared.Dead? { return StopDied; }
      }
      result := StopRefused(attempted, true);
    }

    /** `_started`: the unit is back, so the record goes; a record that stays is reported. */
    method ClearOnStart() returns (kept: bool, died: bool)
      requires Valid() && unit
      modifies this`fate, this`seen, this`record, this`asked
      ensures old(seen) <= seen
      ensures Valid() && (!died && record ==> kept)
    {
      var cleared := ClearRecord();
      kept, died := !cleared.Done?, cleared.Dead?;
    }

    /** `svc_bot_enroll_exact` and the readiness proof after it. */
    method Enroll() returns (end: End)
      requires Valid()
      modifies this`fate, this`seen, this`unit, this`meant
      ensures old(seen) <= seen
      ensures Valid() && (old(unit) ==> unit)
      ensures !unit ==> meant == old(meant)
      ensures end.Done? ==> unit
    {
      var f := Draw();
      if f.effect {
        unit, meant := true, false;
      }
      if !f.end.Done? { return f.end; }
      var proof, installed := Observe();
      end := if proof.Done? && !installed then Failed else proof;
    }

    /** The start arm; `ready` is a live session found in an installed unit. */
    method StartBot(ready: bool) returns (result: StartResult)
      requires Valid()
      modifies this
      ensures old(seen) <= seen
      ensures Valid()
      ensures !unit ==> meant == old(meant)
      ensures result.Running? ==> unit && !meant && (record ==> result.kept)
      ensures result.StartRefused? && !result.attempted ==> unit == old(unit) && record == old(record)
    {
      var end, installed := Observe();
      if end.Dead? { return StartDied; }
      if !end.Done? { return StartRefused(false); }
      if !(installed && ready) {
        var enrolled := Enroll();
        if enrolled.Dead? { return StartDied; }
        if !enrolled.Done? { return StartRefused(true); }
      }
      var kept, died := ClearOnStart();
      result := if died then StartDied else Running(!(installed && ready), kept);
    }

    /** The restart arm: only an installed unit, and never its record. */
    method RestartBot() returns (result: StartResult)
      requires Valid()
      modifies this
      ensures old(seen) <= seen
      ensures Valid() && record == old(record) && (old(unit) ==> unit)
      ensures !unit ==> meant == old(meant)
      ensures !old(unit) ==> !unit && !result.Running?
      ensures result.Running? ==> unit
    {
      var end, installed := Observe();
      if end.Dead? { return StartDied; }
      if !end.Done? || !installed { return StartRefused(false); }
      var enrolled := Enroll();
      if enrolled.Dead? { return StartDied; }
      result := if enrolled.Done? then Running(true, false) else StartRefused(true);
    }

    /** One turn of the host: an operation under the lock, the sweep that removes
        a record beside an installed unit, or a unit lost or regained otherwise. */
    method Turn(operation: Operation, coming: seq<Fate>)
      requires Valid()
      modifies this
      ensures old(seen) <= seen
      ensures Valid()
      ensures operation.LoseUnit? ==> record == old(record) && !unit
      ensures old(meant) && !unit ==> meant
    {
      fate := coming;
      seen := seen + [Moment(unit, record, meant)];
      match operation
      case Stop => var _ := StopBot();
      case Start(ready) => var _ := StartBot(ready);
      case Restart => var _ := RestartBot();
      case Sweep => if unit { record := false; }
      case LoseUnit => unit := false;
      case RegainUnit => unit, meant := true, false;
    }

    /** A unit that went missing, and a stop whose proof fails: the record it wrote
        stays beside no unit, and nothing asked for its removal. */
    static method StrayRecord() returns (door: Door)
      ensures door.record && !door.unit && !door.asked
    {
      door := new Door();
      door.Turn(LoseUnit, []);
      door.fate := [Fate(true, true, Done), Fate(true, true, Done), Fate(false, false, Failed)];
      var _ := door.StopBot();
    }

    /** Over any run, whatever fails and wherever it ends: every look in it, and one
        at its end, finds no meant stop without its record. */
    method Run(operations: seq<Operation>, fates: seq<seq<Fate>>)
      requires Valid() && |fates| == |operations|
      modifies this
      ensures old(seen) <= seen
      ensures forall m | m in seen + [Moment(unit, record, meant)] :: Sound(m)
      ensures Remembered(seen + [Moment(unit, record, meant)])
    {
      for i := 0 to |operations|
        invariant Valid() && old(seen) <= seen
      {
        Turn(operations[i], fates[i]);
      }
    }
  }
}
