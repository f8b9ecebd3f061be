/**
 Properties of the flag API that relate several runs or several calls:
 which failures the operations swallow, where every error they reject with
 comes from, and the concrete scenarios the API is expected to honour.
 */
module FlagsApiProperties {
  import opened JsValues
  import opened Collaborators
  import opened FlagsApi

  /** The messages the API raises itself rather than passing on. */
  predicate OwnMessage(msg: string)
  {
    msg == InvalidData || msg == NoPrivileges
    || msg == ReadFailure("undefined", "uid") || msg == ReadFailure("null", "uid")
  }

  /** Two oracles that answer every call alike except `flags.notify`. */
  ghost predicate AgreeExceptNotify(o1: Oracle, o2: Oracle)
  {
    forall t: seq<Call>, c: Call :: !c.FlagsNotify? ==> o1(t, c) == o2(t, c)
  }

  /** Whether `flags.notify` resolves or rejects makes no difference to
      `create`: same result, same calls. */
  lemma CreateIgnoresNotifyOutcome(caller: Uid, data: Payload, o1: Oracle, o2: Oracle)
    requires AgreeExceptNotify(o1, o2)
    ensures Create(caller, data, o1) == Create(caller, data, o2)
  {
  }

  /** An error `create` rejects with is its own invalid-data, or was thrown
      by validate or create, never by notify. */
  lemma CreateErrorOrigin(caller: Uid, data: Payload, o: Oracle)
    ensures var r := Create(caller, data, o);
      r.result.Err? ==>
        (r.result.msg == InvalidData && r.trace == [])
        || exists i :: 0 <= i < |r.trace| && !r.trace[i].FlagsNotify? && o(r.trace[..i], r.trace[i]) == Err(r.result.msg)
  {
    var r := Create(caller, data, o);
    if r.result.Err? && r.trace != [] {
      var last := |r.trace| - 1;
      assert r.trace[..last] == r.trace[..|r.trace| - 1];
      if |r.trace| == 1 {
        assert o(r.trace[..0], r.trace[0]) == Err(r.result.msg);
      } else {
        assert |r.trace| == 2 && r.trace[..1] == [r.trace[0]];
        assert o(r.trace[..1], r.trace[1]) == Err(r.result.msg);
      }
    }
  }

  /** An error `update` rejects with is its own no-privileges or was thrown
      by one of the calls it made. */
  lemma UpdateErrorOrigin(caller: Uid, data: Payload, o: Oracle)
    ensures var r := Update(caller, data, o);
      r.result.Err? ==> r.result.msg == NoPrivileges || ThrownBy(o, r.trace, r.result.msg)
  {
    var r := Update(caller, data, o);
    if r.result.Err? && r.result.msg != NoPrivileges {
      if |r.trace| == 1 {
        assert o(r.trace[..0], r.trace[0]) == Err(r.result.msg);
      } else if |r.trace| == 2 {
        assert r.trace[..1] == [r.trace[0]];
        assert o(r.trace[..1], r.trace[1]) == Err(r.result.msg);
      } else {
        assert r.trace[..2] == [r.trace[0], r.trace[1]];
        assert o(r.trace[..2], r.trace[2]) == Err(r.result.msg);
      }
    }
  }

  /** An error `appendNote` rejects with is one of its own, or was thrown by
      one of its calls; and an invalid-data error from the note lookup never
      escapes: if `appendNote` rejects with invalid-data, a call other than
      the lookup threw it. */
  lemma AppendNoteErrorOrigin(caller: Uid, data: Payload, o: Oracle)
    ensures var r := AppendNote(caller, data, o);
      r.result.Err? ==> OwnMessage(r.result.msg) || ThrownBy(o, r.trace, r.result.msg)
    ensures var r := AppendNote(caller, data, o);
      r.result == Err(InvalidData) ==>
        exists i :: 0 <= i < |r.trace| && !r.trace[i].FlagsGetNote? && o(r.trace[..i], r.trace[i]) == Err(InvalidData)
  {
    var r := AppendNote(caller, data, o);
    var isPrivileged := UserIsPrivileged(caller);
    var flagId, datetime := Get(data, "flagId"), Get(data, "datetime");
    var append := FlagsAppendNote(flagId, caller, Get(data, "note"), datetime);
    var getNote := FlagsGetNote(flagId, datetime);
    if o([], isPrivileged).Err? {
      assert o(r.trace[..0], r.trace[0]) == Err(r.result.msg);
    } else if !Truthy(o([], isPrivileged).value) {
    } else if Truthy(datetime) && Truthy(flagId) {
      var check := TolerateMissingNote(NoteOwnership(caller, o([isPrivileged], getNote)));
      if check.Err? {
        assert r.trace == [isPrivileged, getNote] && r.trace[..1] == [isPrivileged];
        assert !OwnMessage(r.result.msg) ==> o(r.trace[..1], r.trace[1]) == Err(r.result.msg);
      } else {
        assert r == AppendAndRead(append, [isPrivileged, getNote], o);
      }
    } else {
      assert r == AppendAndRead(append, [isPrivileged], o);
    }
  }

  /** `appendNote` gets past its ownership check exactly when the note
      lookup resolved with the caller's own note or rejected with exactly
      invalid-data; a null or undefined note does not get past it. */
  lemma OwnershipCheckPassesExactly(caller: Uid, lookup: Result<Value>)
    ensures TolerateMissingNote(NoteOwnership(caller, lookup)).Ok?
      <==> OwnedBy(caller, lookup) || lookup == Err(InvalidData)
    ensures lookup == Ok(Undefined) || lookup == Ok(Null)
      ==> TolerateMissingNote(NoteOwnership(caller, lookup)).Err?
  {
  }

  /** An error `deleteNote` rejects with is one of its own, or was thrown by
      one of its calls: a missing note's lookup error is passed on as it is. */
  lemma DeleteNoteErrorOrigin(caller: Uid, data: Payload, now: int, o: Oracle)
    ensures var r := DeleteNote(caller, data, now, o);
      r.result.Err? ==> OwnMessage(r.result.msg) || ThrownBy(o, r.trace, r.result.msg)
  {
    var r := DeleteNote(caller, data, now, o);
    if r.result.Err? && !OwnMessage(r.result.msg) {
      if |r.trace| == 1 {
        assert o(r.trace[..0], r.trace[0]) == Err(r.result.msg);
      } else if |r.trace| == 2 {
        assert r.trace[..1] == [r.trace[0]];
        assert o(r.trace[..1], r.trace[1]) == Err(r.result.msg);
      } else if |r.trace| == 3 {
        assert r.trace[..2] == [r.trace[0], r.trace[1]];
        assert o(r.trace[..2], r.trace[2]) == Err(r.result.msg);
      }
    }
  }

  /** A non-privileged caller of `update` or `appendNote` gets no-privileges
      and causes no store call at all. */
  lemma UnprivilegedCallerTouchesNoStore(caller: Uid, data: Payload, o: Oracle)
    requires o([], UserIsPrivileged(caller)).Ok?
    requires !Truthy(o([], UserIsPrivileged(caller)).value)
    ensures Update(caller, data, o) == Response(Err(NoPrivileges), [UserIsPrivileged(caller)])
    ensures AppendNote(caller, data, o) == Response(Err(NoPrivileges), [UserIsPrivileged(caller)])
  {
  }

  /** A successful `deleteNote` writes exactly twice, the deletion and one
      history entry, and records exactly one history entry. */
  lemma DeleteNoteRecordsOneEntry(caller: Uid, data: Payload, now: int, o: Oracle)
    requires DeleteNote(caller, data, now, o).result.Ok?
    ensures Count(DeleteNote(caller, data, now, o).trace, RecordsHistory) == 1
    ensures Count(DeleteNote(caller, data, now, o).trace, Writes) == 2
  {
    var flagId, datetime := Get(data, "flagId"), Get(data, "datetime");
    DeletionTraceCounts(
      FlagsGetNote(flagId, datetime), FlagsDeleteNote(flagId, datetime),
      FlagsAppendHistory(flagId, caller, DeletionEntry(now)), flagId);
  }

  /** The counts over the shape of a successful deletion's trace: a lookup,
      a deletion, a history entry, then the two reads. */
  lemma DeletionTraceCounts(lookup: Call, delete: Call, record: Call, flagId: Value)
    requires lookup.FlagsGetNote? && delete.FlagsDeleteNote? && record.FlagsAppendHistory?
    ensures var t := [lookup, delete, record] + ReadCalls(flagId);
      Count(t, RecordsHistory) == 1 && Count(t, Writes) == 2
  {
    var readBack := ReadCalls(flagId);
    assert readBack[1..][1..] == [];
    assert Count(readBack, RecordsHistory) == 0 && Count(readBack, Writes) == 0;
    var tail := [record] + readBack;
    assert tail[1..] == readBack && RecordsHistory(record) && Writes(record);
    assert Count(tail, RecordsHistory) == 1 && Count(tail, Writes) == 1;
    var rest := [delete] + tail;
    assert rest[1..] == tail && !RecordsHistory(delete) && Writes(delete);
    assert Count(rest, RecordsHistory) == 1 && Count(rest, Writes) == 2;
    var t := [lookup] + rest;
    assert t[1..] == rest && !RecordsHistory(lookup) && !Writes(lookup);
    assert t == [lookup, delete, record] + readBack;
  }

  /** A uid is compared by type as well as value: a note recorded under the
      string "1" does not belong to the caller whose uid is the number 1, and
      does belong to the caller whose uid is that string, who gets past the
      check to the deletion. */
  lemma DeleteNoteTellsStringFromNumberUid(data: Payload, now: int, o: Oracle)
    requires o([], FlagsGetNote(Get(data, "flagId"), Get(data, "datetime"))) == Ok(Obj(map["uid" := Str("1")]))
    ensures DeleteNote(UNum(1), data, now, o).result == Err(NoPrivileges)
    ensures |DeleteNote(UStr("1"), data, now, o).trace| >= 2
  {
  }

  /** Creating a flag on post 42 for spam as "u1" asks the store for exactly
      that flag and resolves with what it returns; the same request with an
      empty reason is refused before any call. */
  lemma CreateScenario(o: Oracle, flag: Value)
    requires && o([], FlagsValidate(UStr("u1"), Str("post"), Num(42))).Ok?
      && o([FlagsValidate(UStr("u1"), Str("post"), Num(42))], FlagsCreate(Str("post"), Num(42), UStr("u1"), Str("spam"))) == Ok(flag)
    ensures Create(UStr("u1"), map["type" := Str("post"), "id" := Num(42), "reason" := Str("spam")], o) == Response(Ok(flag), [
      FlagsValidate(UStr("u1"), Str("post"), Num(42)),
      FlagsCreate(Str("post"), Num(42), UStr("u1"), Str("spam")),
      FlagsNotify(flag, UStr("u1"))])
    ensures Create(UStr("u1"), map["type" := Str("post"), "id" := Num(42), "reason" := Str("")], o) == Response(Err(InvalidData), [])
  {
  }

  /** Updating `{flagId: 5, title: "x"}` sends the store `{title: "x"}` for
      flag 5 and resolves with that flag's history. */
  lemma UpdateScenario(caller: Uid, o: Oracle, history: Value)
    requires o([], UserIsPrivileged(caller)) == Ok(Bool(true))
    requires o([UserIsPrivileged(caller)], FlagsUpdate(Num(5), caller, map["title" := Str("x")])).Ok?
    requires o([UserIsPrivileged(caller), FlagsUpdate(Num(5), caller, map["title" := Str("x")])], FlagsGetHistory(Num(5))) == Ok(history)
    ensures Update(caller, map["flagId" := Num(5), "title" := Str("x")], o) == Response(Ok(history), [
      UserIsPrivileged(caller),
      FlagsUpdate(Num(5), caller, map["title" := Str("x")]),
      FlagsGetHistory(Num(5))])
  {
    var data := map["flagId" := Num(5), "title" := Str("x")];
    assert Without(data, "flagId") == map["title" := Str("x")];
  }
}
