/**
 The calls the flag API makes on its collaborators, the `user` and `flags`
 modules, and the oracle that stands for them. Their internals (validation
 rules, persistence, notification delivery) are not part of this model: an
 oracle answers every call, and may base its answer on the calls the same
 operation issued before it, so a store whose state changes under the
 operation's writes is covered.
 */
module Collaborators {
  import opened JsValues

  /** One awaited call on a collaborator, with the arguments it receives. */
  datatype Call =
    | UserIsPrivileged(uid: Uid)
    | FlagsValidate(uid: Uid, flagType: Value, id: Value)
    | FlagsCreate(flagType: Value, id: Value, uid: Uid, reason: Value)
    | FlagsNotify(flag: Value, uid: Uid)
    | FlagsUpdate(flagId: Value, uid: Uid, fields: Payload)
    | FlagsGetHistory(flagId: Value)
    | FlagsGetNote(flagId: Value, datetime: Value)
    | FlagsAppendNote(flagId: Value, uid: Uid, note: Value, datetime: Value)
    | FlagsGetNotes(flagId: Value)
    | FlagsDeleteNote(flagId: Value, datetime: Value)
    | FlagsAppendHistory(flagId: Value, uid: Uid, entry: Value)

  /** The collaborators: given the calls already issued and the next one,
      how that next call settles, resolving with a value (`Ok`) or rejecting
      with an error message (`Err`). */
  type Oracle = (seq<Call>, Call) -> Result<Value>

  /** A call that asks a store to change something. */
  predicate Writes(c: Call)
  {
    c.FlagsCreate? || c.FlagsUpdate? || c.FlagsAppendNote? || c.FlagsDeleteNote? || c.FlagsAppendHistory?
  }

  /** A call that records a history entry. */
  predicate RecordsHistory(c: Call)
  {
    c.FlagsAppendHistory?
  }

  /** The number of calls in a trace that satisfy `kind`. */
  function Count(trace: seq<Call>, kind: Call -> bool): (n: nat)
    ensures n <= |trace|
    ensures n == 0 <==> forall i :: 0 <= i < |trace| ==> !kind(trace[i])
  {
    if trace == [] then 0
    else (if kind(trace[0]) then 1 else 0) + Count(trace[1..], kind)
  }

  /** Some call of the trace at position `from` or later rejected with
      exactly this message, answered as the oracle answers it after the
      calls before it. */
  ghost predicate ThrownFrom(o: Oracle, trace: seq<Call>, from: nat, msg: string)
  {
    exists i :: from <= i < |trace| && o(trace[..i], trace[i]) == Err(msg)
  }

  /** Some call of the trace rejected with exactly this message. */
  ghost predicate ThrownBy(o: Oracle, trace: seq<Call>, msg: string)
  {
    ThrownFrom(o, trace, 0, msg)
  }
}
