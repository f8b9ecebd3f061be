/**
 The flag moderation API: `create`, `update`, `appendNote` and `deleteNote`
 of src/api/flags.ts. Each operation is a pure function of the caller's
 uid, the request payload and the collaborators' answers; it yields the
 value the promise resolves with (or the message it rejects with) together
 with the calls it awaited, in order.
 */
module FlagsApi {
  import opened JsValues
  import opened Collaborators

  const InvalidData := "[[error:invalid-data]]"
  const NoPrivileges := "[[error:no-privileges]]"
  const NoteDeleted := "[[flags:note-deleted]]"

  /** The payload fields `create` insists on. */
  const Required := ["type", "id", "reason"]

  /** What an operation settled with, and the calls it issued to get there. */
  datatype Response = Response(result: Result<Value>, trace: seq<Call>)

  /** The `flags.validate` call `create` makes for this caller and payload. */
  function ValidateCall(caller: Uid, data: Payload): Call
  {
    FlagsValidate(caller, Get(data, "type"), Get(data, "id"))
  }

  /** The `flags.create` call `create` makes for this caller and payload. */
  function CreateCall(caller: Uid, data: Payload): Call
  {
    FlagsCreate(Get(data, "type"), Get(data, "id"), caller, Get(data, "reason"))
  }

  /** The two reads that close `appendNote` and `deleteNote`. */
  function ReadCalls(flagId: Value): seq<Call>
  {
    [FlagsGetNotes(flagId), FlagsGetHistory(flagId)]
  }

  /** The history entry `deleteNote` records at time `now`. */
  function DeletionEntry(now: int): Value
  {
    Obj(map["notes" := Str(NoteDeleted), "datetime" := Num(now)])
  }

  /** The settled value of `flags.getNote` is a note whose `uid` property
      is exactly the caller's uid (same type, same value). */
  predicate OwnedBy(caller: Uid, lookup: Result<Value>)
  {
    && lookup.Ok?
    && lookup.value.Obj?
    && "uid" in lookup.value.props
    && lookup.value.props["uid"] == UidValue(caller)
  }

  /** Settling both reads with `Promise.all`: both calls are issued, and the
      combined promise rejects if either read rejects (with the notes error
      when both do). */
  function ReadNotesAndHistory(flagId: Value, before: seq<Call>, o: Oracle): (r: Response)
    ensures r.trace == before + ReadCalls(flagId)
    ensures r.result.Ok? <==>
      o(before, FlagsGetNotes(flagId)).Ok? && o(before + [FlagsGetNotes(flagId)], FlagsGetHistory(flagId)).Ok?
    ensures r.result.Ok? ==> r.result.value == Obj(map[
      "notes" := o(before, FlagsGetNotes(flagId)).value,
      "history" := o(before + [FlagsGetNotes(flagId)], FlagsGetHistory(flagId)).value])
    ensures r.result.Err? ==> ThrownFrom(o, r.trace, |before|, r.result.msg)
  {
    var getNotes := FlagsGetNotes(flagId);
    var getHistory := FlagsGetHistory(flagId);
    var trace := before + [getNotes, getHistory];
    assert trace[..|before|] == before && trace[|before|] == getNotes;
    assert trace[..|before| + 1] == before + [getNotes] && trace[|before| + 1] == getHistory;
    match (o(before, getNotes), o(before + [getNotes], getHistory))
    case (Err(m), _) => Response(Err(m), trace)
    case (Ok(_), Err(m)) => Response(Err(m), trace)
    case (Ok(notes), Ok(history)) =>
      Response(Ok(Obj(map["notes" := notes, "history" := history])), trace)
  }

  /** `create`: the three required fields must be truthy; then the target is
      validated, the flag created, and the notification attempted, whose
      failure is ignored. Resolves with the created flag. */
  function Create(caller: Uid, data: Payload, o: Oracle): (r: Response)
    // a falsy type, id or reason is rejected before any call
    ensures !(Truthy(Get(data, "type")) && Truthy(Get(data, "id")) && Truthy(Get(data, "reason")))
      ==> r == Response(Err(InvalidData), [])
    // otherwise validate is the first call, with the caller's uid, type and id
    ensures Truthy(Get(data, "type")) && Truthy(Get(data, "id")) && Truthy(Get(data, "reason"))
      ==> 1 <= |r.trace| && r.trace[0] == ValidateCall(caller, data)
    // a validation error propagates unchanged and nothing is created
    ensures |r.trace| >= 1 && o([], ValidateCall(caller, data)).Err?
      ==> r == Response(Err(o([], ValidateCall(caller, data)).msg), [ValidateCall(caller, data)])
    // a creation error propagates unchanged and nobody is notified
    ensures EveryTruthy(data, Required) && o([], ValidateCall(caller, data)).Ok?
        && o([ValidateCall(caller, data)], CreateCall(caller, data)).Err?
      ==> r == Response(Err(o([ValidateCall(caller, data)], CreateCall(caller, data)).msg),
                        [ValidateCall(caller, data), CreateCall(caller, data)])
    // success exactly when validate and create both resolve, whatever notify does
    ensures r.result.Ok? <==>
      && Truthy(Get(data, "type")) && Truthy(Get(data, "id")) && Truthy(Get(data, "reason"))
      && o([], ValidateCall(caller, data)).Ok?
      && o([ValidateCall(caller, data)], CreateCall(caller, data)).Ok?
    // the result is the store's flag, and that flag is what gets notified
    ensures r.result.Ok? ==>
      && o([ValidateCall(caller, data)], CreateCall(caller, data)) == Ok(r.result.value)
      && r.trace == [ValidateCall(caller, data), CreateCall(caller, data), FlagsNotify(r.result.value, caller)]
  {
    if !EveryTruthy(data, Required) then
      assert !Truthy(Get(data, Required[0])) || !Truthy(Get(data, Required[1])) || !Truthy(Get(data, Required[2]));
      Response(Err(InvalidData), [])
    else
      assert Truthy(Get(data, Required[0])) && Truthy(Get(data, Required[1])) && Truthy(Get(data, Required[2]));
      var validate := ValidateCall(caller, data);
      match o([], validate)
      case Err(m) => Response(Err(m), [validate])
      case Ok(_) =>
        var create := CreateCall(caller, data);
        match o([validate], create)
        case Err(m) => Response(Err(m), [validate, create])
        case Ok(flag) =>
          // whether notify resolves or rejects is ignored
          Response(Ok(flag), [validate, create, FlagsNotify(flag, caller)])
  }

  /** `update`: privileged callers only; `flagId` is taken out of the payload
      and the rest forwarded as the update, then the flag's history is read
      back and returned. */
  function Update(caller: Uid, data: Payload, o: Oracle): (r: Response)
    ensures 1 <= |r.trace| <= 3 && r.trace[0] == UserIsPrivileged(caller)
    // a failing privilege lookup propagates
    ensures o([], UserIsPrivileged(caller)).Err?
      ==> r == Response(Err(o([], UserIsPrivileged(caller)).msg), [UserIsPrivileged(caller)])
    // a non-privileged caller is refused before any store call
    ensures o([], UserIsPrivileged(caller)).Ok? && !Truthy(o([], UserIsPrivileged(caller)).value)
      ==> r == Response(Err(NoPrivileges), [UserIsPrivileged(caller)])
    // a privileged caller's update carries every field but flagId, unchanged
    ensures o([], UserIsPrivileged(caller)).Ok? && Truthy(o([], UserIsPrivileged(caller)).value)
      ==> && 2 <= |r.trace|
          && r.trace[1].FlagsUpdate?
          && r.trace[1].flagId == Get(data, "flagId")
          && r.trace[1].uid == caller
          && r.trace[1].fields.Keys == data.Keys - {"flagId"}
          && (forall k :: k in r.trace[1].fields ==> r.trace[1].fields[k] == data[k])
    // an update error propagates and history is not read
    ensures |r.trace| >= 2 && o([r.trace[0]], r.trace[1]).Err?
      ==> r.result == Err(o([r.trace[0]], r.trace[1]).msg) && |r.trace| == 2
    // once the update resolves, the history of the extracted flagId is read
    // third, and a rejected read propagates unchanged
    ensures |r.trace| >= 2 && r.trace[1].FlagsUpdate? && o([r.trace[0]], r.trace[1]).Ok?
      ==> && |r.trace| == 3
          && r.trace[2] == FlagsGetHistory(Get(data, "flagId"))
          && (o(r.trace[..2], r.trace[2]).Err? ==> r.result == Err(o(r.trace[..2], r.trace[2]).msg))
    // on success the result is the history of the flagId that was extracted
    ensures r.result.Ok? <==> |r.trace| == 3 && o(r.trace[..2], r.trace[2]).Ok?
    ensures r.result.Ok? ==>
      && r.trace[2] == FlagsGetHistory(Get(data, "flagId"))
      && r.result.value == o(r.trace[..2], r.trace[2]).value
  {
    var isPrivileged := UserIsPrivileged(caller);
    match o([], isPrivileged)
    case Err(m) => Response(Err(m), [isPrivileged])
    case Ok(allowed) =>
      if !Truthy(allowed) then Response(Err(NoPrivileges), [isPrivileged])
      else
        var flagId := Get(data, "flagId");
        var update := FlagsUpdate(flagId, caller, Without(data, "flagId"));
        match o([isPrivileged], update)
        case Err(m) => Response(Err(m), [isPrivileged, update])
        case Ok(_) =>
          var getHistory := FlagsGetHistory(flagId);
          var trace := [isPrivileged, update, getHistory];
          assert trace[..2] == [isPrivileged, update];
          match o([isPrivileged, update], getHistory)
          case Err(m) => Response(Err(m), trace)
          case Ok(history) => Response(Ok(history), trace)
  }

  /** The body of the ownership check shared by `appendNote` and
      `deleteNote`: the settled `flags.getNote`, then `note.uid !== caller.uid`. */
  function NoteOwnership(caller: Uid, lookup: Result<Value>): (r: Result<Value>)
    ensures r.Ok? <==> OwnedBy(caller, lookup)
    ensures lookup.Err? ==> r == Err(lookup.msg)
    ensures lookup.Ok? && lookup.value != Undefined && lookup.value != Null && !OwnedBy(caller, lookup)
      ==> r == Err(NoPrivileges)
    ensures lookup.Ok? && (lookup.value == Undefined || lookup.value == Null)
      ==> r.Err? && r.msg != InvalidData && r.msg != NoPrivileges
  {
    match lookup
    case Err(m) => Err(m)
    case Ok(note) =>
      match ReadProperty(note, "uid")
      case Err(m) =>
        // the TypeError text starts with 'C', while both API messages start
        // with '[': so it is neither invalid-data nor no-privileges
        assert m[0] == 'C';
        Err(m)
      case Ok(author) =>
        if !StrictEquals(caller, author) then Err(NoPrivileges) else Ok(note)
  }

  /** The `catch` around the ownership check in `appendNote`: an error whose
      message is exactly invalid-data is dropped, every other error is
      rethrown as it is. */
  function TolerateMissingNote(check: Result<Value>): (r: Result<Value>)
    ensures r.Ok? <==> check.Ok? || check.msg == InvalidData
    ensures r.Err? ==> r == check
  {
    if check.Err? && check.msg == InvalidData then Ok(Undefined) else check
  }

  /** `appendNote`: privileged callers only. With a truthy `datetime` and
      `flagId`, an existing note at that key must be the caller's own; a
      missing one is fine. Then the note is appended and the notes and
      history read back. */
  function AppendNote(caller: Uid, data: Payload, o: Oracle): (r: Response)
    ensures 1 <= |r.trace| && r.trace[0] == UserIsPrivileged(caller)
    // a failing privilege lookup propagates
    ensures var allowed := o([], UserIsPrivileged(caller));
      allowed.Err? ==> r == Response(Err(allowed.msg), [UserIsPrivileged(caller)])
    // a non-privileged caller is refused before any getNote or appendNote
    ensures var allowed := o([], UserIsPrivileged(caller));
      allowed.Ok? && !Truthy(allowed.value) ==> r == Response(Err(NoPrivileges), [UserIsPrivileged(caller)])
    // the note lookup is the second call, and happens exactly when the caller
    // is privileged and datetime and flagId are both truthy
    ensures var allowed := o([], UserIsPrivileged(caller));
      (|r.trace| >= 2 && r.trace[1].FlagsGetNote?) <==>
        allowed.Ok? && Truthy(allowed.value) && Truthy(Get(data, "datetime")) && Truthy(Get(data, "flagId"))
    ensures forall i :: 2 <= i < |r.trace| ==> !r.trace[i].FlagsGetNote?
    ensures |r.trace| >= 2 && r.trace[1].FlagsGetNote? ==>
      var lookup := o([r.trace[0]], r.trace[1]);
      && r.trace[1] == FlagsGetNote(Get(data, "flagId"), Get(data, "datetime"))
      && r == CheckOwnerThenAppend(caller, data, o)
      // the append goes ahead exactly when the note is the caller's own or
      // the lookup failed with exactly invalid-data: that one error is swallowed
      && (|r.trace| >= 3 <==> OwnedBy(caller, lookup) || lookup == Err(InvalidData))
      && (OwnedBy(caller, lookup) || lookup == Err(InvalidData) ==>
            r == AppendAndRead(
              FlagsAppendNote(Get(data, "flagId"), caller, Get(data, "note"), Get(data, "datetime")),
              [UserIsPrivileged(caller), r.trace[1]], o))
      // someone else's note, or a primitive: refused, nothing appended
      && (lookup.Ok? && lookup.value != Undefined && lookup.value != Null && !OwnedBy(caller, lookup) ==>
            r == Response(Err(NoPrivileges), [UserIsPrivileged(caller), r.trace[1]]))
      // a missing note (null or undefined) makes reading its uid throw, and
      // that TypeError is rethrown, nothing appended
      && (lookup == Ok(Undefined) ==> r == Response(Err(ReadFailure("undefined", "uid")), [UserIsPrivileged(caller), r.trace[1]]))
      && (lookup == Ok(Null) ==> r == Response(Err(ReadFailure("null", "uid")), [UserIsPrivileged(caller), r.trace[1]]))
      // a lookup error other than invalid-data propagates unchanged, nothing appended
      && (lookup.Err? && lookup.msg != InvalidData ==> r == Response(Err(lookup.msg), [UserIsPrivileged(caller), r.trace[1]]))
    // without the lookup, a privileged caller goes straight to the append
    ensures var allowed := o([], UserIsPrivileged(caller));
      allowed.Ok? && Truthy(allowed.value) && !(Truthy(Get(data, "datetime")) && Truthy(Get(data, "flagId")))
      ==> r == AppendAndRead(
            FlagsAppendNote(Get(data, "flagId"), caller, Get(data, "note"), Get(data, "datetime")), [UserIsPrivileged(caller)], o)
    // the append is the payload's note under the caller's uid, and when the
    // whole operation resolves it is followed by exactly the two reads
    ensures forall i :: 0 <= i < |r.trace| && r.trace[i].FlagsAppendNote? ==>
      r.trace[i] == FlagsAppendNote(Get(data, "flagId"), caller, Get(data, "note"), Get(data, "datetime"))
    ensures r.result.Ok? ==>
      && |r.trace| >= 4
      && r.trace[|r.trace| - 3] == FlagsAppendNote(Get(data, "flagId"), caller, Get(data, "note"), Get(data, "datetime"))
      && r.trace[|r.trace| - 2..] == ReadCalls(Get(data, "flagId"))
    // and it resolves with `{notes, history}` as those two reads resolved
    ensures r.result.Ok? ==>
      var pre, getNotes := r.trace[..|r.trace| - 2], FlagsGetNotes(Get(data, "flagId"));
      && o(pre, getNotes).Ok? && o(pre + [getNotes], FlagsGetHistory(Get(data, "flagId"))).Ok?
      && r.result.value == Obj(map[
           "notes" := o(pre, getNotes).value,
           "history" := o(pre + [getNotes], FlagsGetHistory(Get(data, "flagId"))).value])
  {
    var isPrivileged := UserIsPrivileged(caller);
    match o([], isPrivileged)
    case Err(m) => Response(Err(m), [isPrivileged])
    case Ok(allowed) =>
      if !Truthy(allowed) then Response(Err(NoPrivileges), [isPrivileged])
      else PrivilegedAppendNote(caller, data, o)
  }

  /** `appendNote` past the privilege gate: the ownership check when both
      `datetime` and `flagId` are truthy, then the append and the reads. */
  function PrivilegedAppendNote(caller: Uid, data: Payload, o: Oracle): (r: Response)
    ensures 1 <= |r.trace| && r.trace[0] == UserIsPrivileged(caller)
    ensures (|r.trace| >= 2 && r.trace[1].FlagsGetNote?) <==> Truthy(Get(data, "datetime")) && Truthy(Get(data, "flagId"))
    ensures forall i :: 2 <= i < |r.trace| ==> !r.trace[i].FlagsGetNote?
    ensures Truthy(Get(data, "datetime")) && Truthy(Get(data, "flagId")) ==> r == CheckOwnerThenAppend(caller, data, o)
    ensures !(Truthy(Get(data, "datetime")) && Truthy(Get(data, "flagId"))) ==>
      r == AppendAndRead(
        FlagsAppendNote(Get(data, "flagId"), caller, Get(data, "note"), Get(data, "datetime")), [UserIsPrivileged(caller)], o)
    // the append is the payload's note under the caller's uid, and when the
    // whole operation resolves it is followed by exactly the two reads
    ensures forall i :: 0 <= i < |r.trace| && r.trace[i].FlagsAppendNote? ==>
      r.trace[i] == FlagsAppendNote(Get(data, "flagId"), caller, Get(data, "note"), Get(data, "datetime"))
    ensures r.result.Ok? ==>
      && |r.trace| >= 4
      && r.trace[|r.trace| - 3] == FlagsAppendNote(Get(data, "flagId"), caller, Get(data, "note"), Get(data, "datetime"))
      && r.trace[|r.trace| - 2..] == ReadCalls(Get(data, "flagId"))
    // and it resolves with `{notes, history}` as those two reads resolved
    ensures r.result.Ok? ==>
      var pre, getNotes := r.trace[..|r.trace| - 2], FlagsGetNotes(Get(data, "flagId"));
      && o(pre, getNotes).Ok? && o(pre + [getNotes], FlagsGetHistory(Get(data, "flagId"))).Ok?
      && r.result.value == Obj(map[
           "notes" := o(pre, getNotes).value,
           "history" := o(pre + [getNotes], FlagsGetHistory(Get(data, "flagId"))).value])
  {
    var flagId, datetime := Get(data, "flagId"), Get(data, "datetime");
    if Truthy(datetime) && Truthy(flagId) then CheckOwnerThenAppend(caller, data, o)
    else AppendAndRead(FlagsAppendNote(flagId, caller, Get(data, "note"), datetime), [UserIsPrivileged(caller)], o)
  }

  /** The ownership check of a privileged caller's `appendNote` with a truthy
      `datetime` and `flagId`: look the note up, let the append go ahead only
      for the caller's own note or a lookup failing with exactly invalid-data,
      and otherwise stop with the check's error. */
  function CheckOwnerThenAppend(caller: Uid, data: Payload, o: Oracle): (r: Response)
    requires Truthy(Get(data, "datetime")) && Truthy(Get(data, "flagId"))
    ensures var getNote := FlagsGetNote(Get(data, "flagId"), Get(data, "datetime"));
      var lookup := o([UserIsPrivileged(caller)], getNote);
      var append := FlagsAppendNote(Get(data, "flagId"), caller, Get(data, "note"), Get(data, "datetime"));
      && |r.trace| >= 2 && r.trace[..2] == [UserIsPrivileged(caller), getNote]
      // the same two facts pointwise, the form callers' proofs match on
      && r.trace[0] == UserIsPrivileged(caller) && r.trace[1] == getNote
      && (forall i :: 2 <= i < |r.trace| ==> !r.trace[i].FlagsGetNote?)
      && (|r.trace| >= 3 <==> OwnedBy(caller, lookup) || lookup == Err(InvalidData))
      && (OwnedBy(caller, lookup) || lookup == Err(InvalidData) ==>
            r == AppendAndRead(append, [UserIsPrivileged(caller), getNote], o))
      && (lookup.Ok? && lookup.value != Undefined && lookup.value != Null && !OwnedBy(caller, lookup) ==>
            r == Response(Err(NoPrivileges), [UserIsPrivileged(caller), getNote]))
      && (lookup == Ok(Undefined) ==> r == Response(Err(ReadFailure("undefined", "uid")), [UserIsPrivileged(caller), getNote]))
      && (lookup == Ok(Null) ==> r == Response(Err(ReadFailure("null", "uid")), [UserIsPrivileged(caller), getNote]))
      && (lookup.Err? && lookup.msg != InvalidData ==> r == Response(Err(lookup.msg), [UserIsPrivileged(caller), getNote]))
  {
    var isPrivileged := UserIsPrivileged(caller);
    var getNote := FlagsGetNote(Get(data, "flagId"), Get(data, "datetime"));
    var append := FlagsAppendNote(Get(data, "flagId"), caller, Get(data, "note"), Get(data, "datetime"));
    match TolerateMissingNote(NoteOwnership(caller, o([isPrivileged], getNote)))
    case Err(m) => Response(Err(m), [isPrivileged, getNote])
    case Ok(_) =>
      var r := AppendAndRead(append, [isPrivileged, getNote], o);
      assert r.trace[..2] == r.trace[..3][..2];
      r
  }

  /** The tail of `appendNote`: the append call, then both reads. */
  function AppendAndRead(append: Call, before: seq<Call>, o: Oracle): (r: Response)
    requires append.FlagsAppendNote?
    ensures |r.trace| > |before| && r.trace[..|before| + 1] == before + [append]
    // the same prefix pointwise, the form callers' proofs match on
    ensures (forall i :: 0 <= i < |before| ==> r.trace[i] == before[i]) && r.trace[|before|] == append
    ensures forall i :: |before| < i < |r.trace| ==> r.trace[i].FlagsGetNotes? || r.trace[i].FlagsGetHistory?
    ensures |r.trace| == |before| + 1 || r.trace[|before| + 1..] == ReadCalls(append.flagId)
    ensures r.result.Ok? ==> |r.trace| == |before| + 3
    ensures r.result.Err? ==> ThrownFrom(o, r.trace, |before|, r.result.msg)
    // a rejected append ends the operation with its error
    ensures o(before, append).Err? ==> r == Response(Err(o(before, append).msg), before + [append])
    // a resolved append is followed by both reads, which settle the operation
    ensures o(before, append).Ok? ==> r == ReadNotesAndHistory(append.flagId, before + [append], o)
    // on success it resolves with `{notes, history}` as the two reads resolved
    ensures r.result.Ok? ==>
      var pre, getNotes := r.trace[..|r.trace| - 2], FlagsGetNotes(append.flagId);
      && o(pre, getNotes).Ok? && o(pre + [getNotes], FlagsGetHistory(append.flagId)).Ok?
      && r.result.value == Obj(map[
           "notes" := o(pre, getNotes).value,
           "history" := o(pre + [getNotes], FlagsGetHistory(append.flagId)).value])
  {
    match o(before, append)
    case Err(m) =>
      assert (before + [append])[..|before|] == before;
      Response(Err(m), before + [append])
    case Ok(_) =>
      var r := ReadNotesAndHistory(append.flagId, before + [append], o);
      assert r.trace == before + [append] + ReadCalls(append.flagId);
      assert r.trace[..|r.trace| - 2] == before + [append];
      r
  }

  /** `deleteNote`: no privilege check. The note at (flagId, datetime) must
      exist and be the caller's own; it is deleted, one "note deleted"
      history entry is recorded at `now`, and the notes and history are read
      back. */
  function DeleteNote(caller: Uid, data: Payload, now: int, o: Oracle): (r: Response)
    // the first call is always the lookup: nobody is asked about privileges
    ensures 1 <= |r.trace| && r.trace[0] == FlagsGetNote(Get(data, "flagId"), Get(data, "datetime"))
    ensures forall i :: 0 <= i < |r.trace| ==> !r.trace[i].UserIsPrivileged?
    // a failed lookup, someone else's note, a primitive note (its `uid` reads
    // undefined) or a null/undefined note (reading `uid` throws): refused,
    // nothing deleted or recorded
    ensures var lookup := o([], r.trace[0]);
      && (!OwnedBy(caller, lookup) ==> r.result.Err? && |r.trace| == 1)
      && (lookup.Err? ==> r.result == Err(lookup.msg))
      && (lookup.Ok? && lookup.value != Undefined && lookup.value != Null && !OwnedBy(caller, lookup) ==>
            r.result == Err(NoPrivileges))
      && (lookup == Ok(Undefined) ==> r.result == Err(ReadFailure("undefined", "uid")))
      && (lookup == Ok(Null) ==> r.result == Err(ReadFailure("null", "uid")))
    // the caller's own note: deleted, then one history entry by the caller at
    // now, each step's error propagating and stopping the rest
    ensures OwnedBy(caller, o([], r.trace[0])) ==>
      var delete := FlagsDeleteNote(Get(data, "flagId"), Get(data, "datetime"));
      var record := FlagsAppendHistory(Get(data, "flagId"), caller, DeletionEntry(now));
      && |r.trace| >= 2 && r.trace[1] == delete
      && (o([r.trace[0]], delete).Err? ==> r == Response(Err(o([r.trace[0]], delete).msg), [r.trace[0], delete]))
      && (o([r.trace[0]], delete).Ok? ==>
            && |r.trace| >= 3 && r.trace[2] == record
            && (o([r.trace[0], delete], record).Err? ==> r == Response(Err(o([r.trace[0], delete], record).msg), r.trace[..3]))
            && (o([r.trace[0], delete], record).Ok? ==>
                  r == ReadNotesAndHistory(Get(data, "flagId"), [r.trace[0], delete, record], o)))
    // on success the whole trace is fixed
    ensures r.result.Ok? ==> r.trace == [
      FlagsGetNote(Get(data, "flagId"), Get(data, "datetime")),
      FlagsDeleteNote(Get(data, "flagId"), Get(data, "datetime")),
      FlagsAppendHistory(Get(data, "flagId"), caller, DeletionEntry(now))] + ReadCalls(Get(data, "flagId"))
  {
    var flagId, datetime := Get(data, "flagId"), Get(data, "datetime");
    var getNote := FlagsGetNote(flagId, datetime);
    match NoteOwnership(caller, o([], getNote))
    case Err(m) => Response(Err(m), [getNote])
    case Ok(_) =>
      var delete := FlagsDeleteNote(flagId, datetime);
      match o([getNote], delete)
      case Err(m) => Response(Err(m), [getNote, delete])
      case Ok(_) =>
        var record := FlagsAppendHistory(flagId, caller, DeletionEntry(now));
        match o([getNote, delete], record)
        case Err(m) => Response(Err(m), [getNote, delete, record])
        case Ok(_) => ReadNotesAndHistory(flagId, [getNote, delete, record], o)
  }
}
