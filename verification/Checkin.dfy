/** One committed check-in decision: prepare, attempt, emit, prove, record. Every
    step may fail before or after it takes effect, or be the process's last. */
module Checkin {
  import opened Common

  /** A plane fact without its clock fields: the event ID and everything else. */
  datatype Fact = Fact(id: string, content: string)

  /** Who asks for what: the caller's frozen identities and the decision's digest. */
  datatype Intent = Intent(binding: string, semantic: string, fact: Fact)
  datatype Status = Prepared | Unknown | Committed | Unrecorded
  datatype Receipt = Receipt(intent: Intent, status: Status, staged: nat, attempt: nat)

  /** One call: what it would freeze now, and whether the active selection still holds. */
  datatype Call = Call(binding: string, semantic: string, fact: Fact, selected: bool)

  /** What becomes of one step. A silent step returns as if done and is not. */
  datatype Luck = Fine | FailsBefore | FailsAfter | DiesBefore | DiesAfter | Silent

  datatype Code = Conflict | Unavailable
  datatype Result = Success(replayed: bool) | Failed(code: Code, committed: bool) | Died

  datatype Step = Ok | Error | Dead

  datatype Proof = ProvedCommitted | ProvedUnrecorded | Unproved | Conflicting

  function Count(ledger: seq<Fact>, id: string): nat {
    if ledger == [] then 0 else Count(ledger[..|ledger| - 1], id) + if ledger[|ledger| - 1].id == id then 1 else 0
  }

  lemma CountAppend(ledger: seq<Fact>, fact: Fact, id: string)
    ensures Count(ledger + [fact], id) == Count(ledger, id) + if fact.id == id then 1 else 0
  {
    assert (ledger + [fact])[..|ledger|] == ledger;
  }

  lemma {:induction false} CountZero(ledger: seq<Fact>, id: string)
    ensures Count(ledger, id) == 0 <==> forall f | f in ledger :: f.id != id
    decreases |ledger|
  {
    if ledger != [] {
      var rest, last := ledger[..|ledger| - 1], ledger[|ledger| - 1];
      CountZero(rest, id);
      assert ledger == rest + [last];
      if Count(ledger, id) != 0 && last.id == id { assert last in ledger; }
    }
  }

  /** `reconcile_facts` on a plane that answers. */
  function Observe(ledger: seq<Fact>, fact: Fact): Proof {
    if fact in ledger then ProvedCommitted
    else if exists f | f in ledger :: f.id == fact.id then Conflicting
    else ProvedUnrecorded
  }

  /** What every step keeps: at most one event under the request's ID, and that
      one exactly the frozen fact; none while the receipt says none can be. */
  ghost predicate Kept(id: string, receipt: Option<Receipt>, ledger: seq<Fact>) {
    && Count(ledger, id) <= 1
    && (receipt.None? ==> Count(ledger, id) == 0)
    && (receipt.Some? ==>
          && receipt.value.intent.fact.id == id
          && (Count(ledger, id) == 1 <==> receipt.value.intent.fact in ledger)
          && (receipt.value.status.Prepared? || receipt.value.status.Unrecorded? ==> Count(ledger, id) == 0)
          && (receipt.value.status.Committed? ==> Count(ledger, id) == 1)
          && (receipt.value.status.Prepared? <==> receipt.value.staged == 0)
          && receipt.value.staged <= receipt.value.attempt)
  }

  class Request {
    /** The event ID derived from host, fleet and request UUID. */
    const id: string
    var receipt: Option<Receipt>
    var ledger: seq<Fact>
    /** The fate of each coming step; past its end every step goes well. */
    var fate: seq<Luck>

    ghost predicate Valid()
      reads this
    {
      Kept(id, receipt, ledger)
    }

    constructor (id: string, ledger: seq<Fact>)
      requires Count(ledger, id) == 0
      ensures Valid() && this.id == id && receipt == None && this.ledger == ledger
    {
      this.id, this.receipt, this.ledger, this.fate := id, None, ledger, [];
    }

    method Draw() returns (luck: Luck)
      modifies this`fate
      ensures old(fate) == [] ==> luck.Fine? && fate == []
    {
      luck := if fate == [] then Fine else fate[0];
      fate := if fate == [] then [] else fate[1..];
    }

    /** A durable write of the receipt. */
    method Save(next: Receipt) returns (step: Step)
      modifies this`fate, this`receipt
      ensures step.Ok? ==> receipt == Some(next)
      ensures receipt == old(receipt) || receipt == Some(next)
      ensures old(fate) == [] ==> step.Ok? && fate == []
    {
      var luck := Draw();
      if luck.Fine? || luck.FailsAfter? || luck.DiesAfter? || luck.Silent? {
        receipt := Some(next);
      }
      step := if luck.DiesBefore? || luck.DiesAfter? then Dead
      else if luck.FailsBefore? || luck.FailsAfter? then Error else Ok;
    }

    /** `emit_batch` of the one raw event. */
    method Emit(fact: Fact) returns (step: Step)
      modifies this`fate, this`ledger
      ensures ledger == old(ledger) || ledger == old(ledger) + [fact]
      ensures old(fate) == [] ==> step.Ok? && fate == [] && ledger == old(ledger) + [fact]
    {
      var luck := Draw();
      if luck.Fine? || luck.FailsAfter? || luck.DiesAfter? {
        ledger := ledger + [fact];
      }
      step := if luck.DiesBefore? || luck.DiesAfter? then Dead
      else if luck.FailsBefore? || luck.FailsAfter? then Error else Ok;
    }

    /** `_proof`: what the plane says, or that it cannot be asked. */
    method Prove(fact: Fact) returns (step: Step, proof: Proof)
      modifies this`fate
      ensures step.Ok? ==> proof == Unproved || proof == Observe(ledger, fact)
      ensures old(fate) == [] ==> step.Ok? && proof == Observe(ledger, fact) && fate == []
    {
      var luck := Draw();
      proof := if luck.Fine? then Observe(ledger, fact) else Unproved;
      step := if luck.DiesBefore? || luck.DiesAfter? then Dead else if luck.FailsBefore? then Error else Ok;
    }

    /** `record_checkin` up to a proved answer for what an earlier call left:
        a result, or leave to attempt. */
    method Settle(call: Call) returns (done: Option<Result>)
      requires Valid() && call.fact.id == id && receipt.Some?
      modifies this`fate, this`receipt
      ensures Valid() && receipt.Some? && receipt.value.intent == old(receipt).value.intent
      ensures !SameRequest(call, old(receipt).value.intent) ==> done == Some(Failed(Conflict, false)) && receipt == old(receipt)
      ensures done.Some? && done.value.Success? ==>
                receipt.value.intent.fact in ledger && receipt.value.status.Committed? && done.value.replayed
      ensures done.Some? && done.value.Failed? && done.value.committed ==> receipt.value.intent.fact in ledger
      ensures done.None? ==> Count(ledger, id) == 0 && !receipt.value.status.Unknown? && !receipt.value.status.Committed?
      ensures Lucky(old(fate), call, old(receipt)) ==> fate == [] && (done.None? || done.value.Success?)
    {
      var previous := receipt.value;
      if !SameRequest(call, previous.intent) {
        return Some(Failed(Conflict, false));
      }
      CountZero(ledger, id);
      var step, proof := Prove(previous.intent.fact);
      if step.Dead? { return Some(Died); }
      if step.Error? { return Some(Failed(Unavailable, false)); }
      if proof.ProvedCommitted? {
        if previous.status.Unknown? {
          var saved := Save(previous.(status := Committed));
          if saved.Dead? { return Some(Died); }
          if saved.Error? { return Some(Failed(Unavailable, true)); }
        } else if !previous.status.Committed? {
          return Some(Failed(Conflict, false));
        }
        return Some(Success(true));
      }
      if !proof.ProvedUnrecorded? || previous.status.Committed? {
        return Some(Failed(if proof.Unproved? then Unavailable else Conflict, false));
      }
      if previous.status.Unknown? {
        var saved := Save(previous.(status := Unrecorded));
        if saved.Dead? { return Some(Died); }
        if saved.Error? { return Some(Failed(Unavailable, false)); }
      }
      done := None;
    }

    /** Freezes the intent, or holds the rebuilt fact to the frozen one; then
        begins an attempt and makes the stage unknown. */
    method Arm(call: Call) returns (done: Option<Result>)
      requires Valid() && call.fact.id == id && Count(ledger, id) == 0
      requires receipt.Some? ==> SameRequest(call, receipt.value.intent)
      requires receipt.Some? ==> !receipt.value.status.Unknown? && !receipt.value.status.Committed?
      modifies this`fate, this`receipt
      ensures Valid()
      ensures old(receipt).Some? ==> receipt.Some? && receipt.value.intent == old(receipt).value.intent
      ensures old(receipt).Some? && old(receipt).value.intent.fact != call.fact ==> done == Some(Failed(Conflict, false))
      ensures receipt.Some? ==> SameRequest(call, receipt.value.intent)
      ensures done.None? ==> receipt.Some? && receipt.value.status.Unknown? && receipt.value.intent.fact == call.fact
      ensures done.Some? ==> !done.value.Success? && (done.value.Failed? ==> !done.value.committed)
      ensures Lucky(old(fate), call, old(receipt)) ==> fate == [] && done.None?
    {
      CountZero(ledger, id);
      if receipt.None? {
        var saved := Save(Receipt(Intent(call.binding, call.semantic, call.fact), Prepared, 0, 0));
        if !saved.Ok? { return Some(Unfinished(saved)); }
      } else if receipt.value.intent.fact != call.fact {
        return Some(Failed(Conflict, false));
      }
      if !call.selected {
        return Some(Failed(Conflict, false));
      }
      var begun := Save(receipt.value.(attempt := receipt.value.attempt + 1));
      if !begun.Ok? { return Some(Unfinished(begun)); }
      var staged := Save(receipt.value.(status := Unknown, staged := receipt.value.attempt));
      if !staged.Ok? { return Some(Unfinished(staged)); }
      done := None;
    }

    /** The one emit, its proof and its outcome. */
    method EmitAndProve(call: Call) returns (result: Result)
      requires Valid() && call.fact.id == id && Count(ledger, id) == 0
      requires receipt.Some? && receipt.value.status.Unknown? && receipt.value.intent.fact == call.fact
      modifies this`fate, this`receipt, this`ledger
      ensures Valid() && receipt.Some? && receipt.value.intent == old(receipt).value.intent
      ensures ledger == old(ledger) || ledger == old(ledger) + [call.fact]
      ensures result.Success? ==> call.fact in ledger && receipt.value.status.Committed? && !result.replayed
      ensures result.Failed? && result.committed ==> call.fact in ledger
      ensures old(fate) == [] ==> result.Success?
    {
      EmittedKept(id, receipt.value, ledger);
      var emitted := Emit(call.fact);
      if emitted.Dead? { return Died; }
      var step, proof := Prove(call.fact);
      if step.Dead? { return Died; }
      if emitted.Error? || step.Error? || !proof.ProvedCommitted? {
        return Failed(if emitted.Ok? && proof.Conflicting? then Conflict else Unavailable,
                      emitted.Error? && step.Ok? && proof.ProvedCommitted?);
      }
      var saved := Save(receipt.value.(status := Committed));
      if saved.Dead? { return Died; }
      if saved.Error? { return Failed(Unavailable, true); }
      result := Success(false);
    }

    /** `record_checkin` under the request's lock. */
    method Record(call: Call) returns (result: Result)
      requires Valid() && call.fact.id == id
      modifies this`fate, this`receipt, this`ledger
      ensures Valid()
      ensures old(receipt).Some? ==> receipt.Some? && receipt.value.intent == old(receipt).value.intent
      ensures old(receipt).Some? && !SameRequest(call, old(receipt).value.intent) ==> !result.Success?
      ensures result.Success? ==> receipt.Some? && SameRequest(call, receipt.value.intent)
      ensures result.Success? ==> receipt.value.intent.fact in ledger && receipt.value.status.Committed?
      ensures Lucky(old(fate), call, old(receipt)) ==> result.Success?
      ensures result.Failed? && result.committed ==> receipt.Some? && receipt.value.intent.fact in ledger
      ensures ledger == old(ledger) ||
              (receipt.Some? && SameRequest(call, receipt.value.intent) && ledger == old(ledger) + [receipt.value.intent.fact])
    {
      if receipt.Some? {
        var settled := Settle(call);
        if settled.Some? { return settled.value; }
      }
      var armed := Arm(call);
      if armed.Some? { return armed.value; }
      result := EmitAndProve(call);
    }

    /** Any sequence of calls, each with its own luck, commits at most one event. */
    method Serve(calls: seq<Call>, lucks: seq<seq<Luck>>) returns (results: seq<Result>)
      requires Valid() && |lucks| == |calls| && forall i | 0 <= i < |calls| :: calls[i].fact.id == id
      modifies this`fate, this`receipt, this`ledger
      ensures Valid() && Count(ledger, id) <= 1 && |results| == |calls|
      ensures forall i | 0 <= i < |calls| && results[i].Success? ::
                receipt.Some? && SameRequest(calls[i], receipt.value.intent) && receipt.value.intent.fact in ledger
    {
      results := [];
      for i := 0 to |calls|
        invariant Valid() && |results| == i
        invariant forall k | 0 <= k < i && results[k].Success? ::
            receipt.Some? && SameRequest(calls[k], receipt.value.intent) && receipt.value.intent.fact in ledger
      {
        fate := lucks[i];
        var result := Record(calls[i]);
        results := results + [result];
      }
    }
  }

  /** The one emit of an attempt keeps the request's promise, and so does its outcome. */
  lemma EmittedKept(id: string, receipt: Receipt, ledger: seq<Fact>)
    requires Kept(id, Some(receipt), ledger) && Count(ledger, id) == 0 && receipt.status.Unknown?
    ensures var more := ledger + [receipt.intent.fact];
            Kept(id, Some(receipt), more) && Kept(id, Some(receipt.(status := Committed)), more)
    ensures receipt.intent.fact !in ledger && receipt.intent.fact in ledger + [receipt.intent.fact]
  {
    CountZero(ledger, id);
    CountAppend(ledger, receipt.intent.fact, id);
  }

  /** A call that nothing disturbs, for a new request or one it rebuilds exactly. */
  predicate Lucky(fate: seq<Luck>, call: Call, receipt: Option<Receipt>) {
    fate == [] && call.selected
    && (receipt.Some? ==> SameRequest(call, receipt.value.intent) && receipt.value.intent.fact == call.fact)
  }

  predicate SameRequest(call: Call, intent: Intent) {
    call.binding == intent.binding && call.semantic == intent.semantic && call.fact.id == intent.fact.id
  }

  function Unfinished(step: Step): Result {
    if step.Dead? then Died else Failed(Unavailable, false)
  }
}
