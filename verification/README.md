# Flag moderation API — a Dafny model

This project models the request-handling layer for content-moderation flags
in NodeBB's `src/api/flags.ts`. It covers four operations:

- `create`: a user flags a post or user;
- `update`: a moderator changes a flag;
- `appendNote`: a moderator adds or edits a note on a flag;
- `deleteNote`: the author of a note removes it.

Each operation checks its guards and then awaits calls on two collaborators,
the `user` module (privilege lookup) and the `flags` module (validation,
persistence, notification). The model does not see those modules. An
*oracle* stands in for them: given the calls the operation has already
issued and the next call, it says whether that call resolves (and with what)
or rejects (and with what message). The oracle sees the earlier calls, so a
store whose answers change after the operation's own writes is covered.

Every operation is a pure function from:

- the caller's uid,
- the payload,
- the oracle,
- and, for `deleteNote`, the current time

to a `Response`. A `Response` holds the settled result (a value, or a
rejection message) and the trace of collaborator calls in the order they
were awaited.

Files:

- `values.dfy` (module `JsValues`): JavaScript values, JavaScript truthiness,
  reading a property, and strict equality against a uid. A uid is
  `string | number`, so the string `"1"` and the number `1` are different
  uids. Also `required.every(...)` and `delete data.flagId`.
- `collaborators.dfy` (module `Collaborators`): the calls, the oracle that
  settles them, and trace predicates.
- `flags_api.dfy` (module `FlagsApi`): the four operations and the steps
  they share.
- `flags_api_properties.dfy` (module `FlagsApiProperties`): properties that
  relate several calls or several runs, and concrete scenarios.

## Model

| member | source | states |
|---|---|---|
| `JsValues.EveryTruthy` | src/api/flags.ts:22-23 | `required.every(prop => !!data[prop])` is true exactly when every listed property of the payload is truthy; when it is false, some listed property is falsy |
| `JsValues.FalsyValues` | src/api/flags.ts:23 | the falsy values are exactly undefined, null, false, 0 and the empty string; every object is truthy |
| `JsValues.Without` | src/api/flags.ts:49-50 | after `delete data.flagId` the payload has no `flagId`, keeps every other key, and keeps each of those keys' values unchanged |
| `JsValues.ReadProperty` | src/api/flags.ts:64 | reading `note.uid` throws exactly when the note is null or undefined; on an object it reads the property or undefined; on a primitive it reads undefined |
| `JsValues.StrictEqualsIsIdentity` | src/api/flags.ts:85 | `note.uid !== caller.uid` is false exactly when the note's uid is the same primitive as the caller's uid: same type and same value |
| `FlagsApi.Create` | src/api/flags.ts:21-41 | a falsy type, id or reason rejects with invalid-data and issues no call. Otherwise `validate({uid, type, id})` comes first, and an error from it propagates unchanged with nothing created. When validate resolves and `create(type, id, uid, reason)` rejects, the operation rejects with that message after exactly those two calls, with no notify. The operation succeeds exactly when both resolve, whatever notify does. It then resolves with the store's flag, after the calls validate, create, notify(flag, uid) |
| `FlagsApi.Update` | src/api/flags.ts:43-54 | the privilege lookup is the first call and its error propagates. A non-privileged caller gets no-privileges and no other call is issued. Otherwise the update call receives the extracted flagId, the caller's uid, and every payload field except `flagId` unchanged. An update error stops before the history read. When the update resolves, the third and last call is `getHistory` for that same flagId; its error is the operation's error, and its value the operation's result |
| `FlagsApi.NoteOwnership` | src/api/flags.ts:63-66 | the ownership check passes exactly when the lookup resolved with an object whose `uid` is the caller's uid. A lookup error passes through unchanged. Someone else's note, or a primitive note, fails with no-privileges. A null or undefined note fails with a TypeError that is neither invalid-data nor no-privileges |
| `FlagsApi.TolerateMissingNote` | src/api/flags.ts:67-73 | the catch lets the operation proceed exactly when the check passed or failed with the exact message invalid-data; any other error is rethrown as it was |
| `FlagsApi.AppendNote` | src/api/flags.ts:56-81 | a failing or falsy privilege lookup ends the operation before any getNote or appendNote. The note lookup is the second call and happens exactly when the caller is privileged and both datetime and flagId are truthy. After a lookup, the operation goes on to the append exactly when the lookup resolved with the caller's own note or rejected with exactly invalid-data, and then it is the append-and-read step after those two calls. Someone else's note, or a primitive, gives no-privileges; a null or undefined note gives the TypeError of reading `uid`; any other lookup error propagates; none of these appends. Without a lookup it is the append-and-read step right after the privilege lookup. The append carries (flagId, caller uid, note, datetime). On success it is followed by exactly the notes read and the history read, and the result is `{notes, history}` from those reads |
| `FlagsApi.PrivilegedAppendNote` | src/api/flags.ts:61-80 | the part of `appendNote` after a truthy privilege lookup: a note lookup happens exactly when datetime and flagId are truthy, and is then the ownership check followed by the append; otherwise the append-and-read step follows the privilege lookup directly. Every append carries the payload's note under the caller's uid, and on success the last three calls are that append and the two reads, whose values form the result |
| `FlagsApi.CheckOwnerThenAppend` | src/api/flags.ts:62-80 | with truthy datetime and flagId, `getNote(flagId, datetime)` is the second call and never repeated; the append follows exactly when the note is the caller's or the lookup rejected with invalid-data. Otherwise the operation stops after the lookup with no-privileges (a note of someone else or a primitive), the TypeError of reading `uid` (null or undefined), or the lookup's own error |
| `FlagsApi.AppendAndRead` | src/api/flags.ts:75-80 | the append is issued right after the earlier calls, which stay unchanged. A rejected append ends the operation with its error and no read. A resolved append is followed by the notes read and the history read, whose combined outcome is the operation's; on success the result is `{notes, history}` from those reads. Any error comes from the append or the reads |
| `FlagsApi.ReadNotesAndHistory` | src/api/flags.ts:76-80 | both reads are issued. The result is `{notes, history}` exactly when both resolve. Otherwise it is an error thrown by one of the two reads |
| `FlagsApi.DeleteNote` | src/api/flags.ts:83-100 | the first call is the note lookup, and no privilege lookup ever happens. A failed lookup propagates its error. Someone else's note, or a primitive note (whose `uid` reads undefined), gives no-privileges; a null or undefined note gives the TypeError of reading `uid`. In all these cases there is no delete and no history entry. For the caller's own note: deleteNote(flagId, datetime), then appendHistory(flagId, caller uid, {notes: note-deleted, datetime: now}), each step's error stopping the rest. Then the notes and history reads, whose combined result is the operation's result |
| `FlagsApiProperties.CreateIgnoresNotifyOutcome` | src/api/flags.ts:35-40 | two collaborator sets that differ only in how notify settles give `create` the same result and the same calls |
| `FlagsApiProperties.CreateErrorOrigin` | src/api/flags.ts:23-39 | an error from `create` is either its own invalid-data, with no calls, or the message some call other than notify rejected with |
| `FlagsApiProperties.UpdateErrorOrigin` | src/api/flags.ts:44-53 | an error from `update` is either its own no-privileges or the message one of its calls rejected with |
| `FlagsApiProperties.AppendNoteErrorOrigin` | src/api/flags.ts:57-79 | an error from `appendNote` is one of its own messages or one a call rejected with. If it rejects with invalid-data, some call other than the note lookup threw it: the lookup's invalid-data never escapes |
| `FlagsApiProperties.OwnershipCheckPassesExactly` | src/api/flags.ts:62-73 | the `try`/`catch` around the note lookup lets `appendNote` proceed exactly when the lookup resolved with the caller's own note or rejected with exactly invalid-data; a null or undefined note never gets through |
| `FlagsApiProperties.DeleteNoteErrorOrigin` | src/api/flags.ts:84-98 | an error from `deleteNote` is one of its own messages or the message one of its calls rejected with, including a missing note's lookup error |
| `FlagsApiProperties.UnprivilegedCallerTouchesNoStore` | src/api/flags.ts:44-47 | for a caller whose privilege lookup resolves falsy, `update` rejects with no-privileges and its only call is the privilege lookup; the same holds for `appendNote` (lines 57-60) |
| `FlagsApiProperties.DeleteNoteRecordsOneEntry` | src/api/flags.ts:89-93 | a successful `deleteNote` records exactly one history entry and writes exactly twice: the deletion and that entry |
| `FlagsApiProperties.DeletionTraceCounts` | src/api/flags.ts:84-98 | in the call sequence of a successful deletion (lookup, deletion, history entry, notes read, history read) exactly one call records history and exactly two write |
| `FlagsApiProperties.DeleteNoteTellsStringFromNumberUid` | src/api/flags.ts:84-87 | a note recorded under the string uid "1" is refused to the caller with numeric uid 1. The caller with string uid "1" gets past the check to the deletion |
| `FlagsApiProperties.CreateScenario` | src/api/flags.ts:21-41 | `create` as "u1" with `{type: "post", id: 42, reason: "spam"}` validates and creates exactly that flag, notifies, and resolves with the store's flag. With an empty reason it rejects with invalid-data and makes no call |
| `FlagsApiProperties.UpdateScenario` | src/api/flags.ts:43-54 | `update` with `{flagId: 5, title: "x"}` sends the store `{title: "x"}` for flag 5 and resolves with flag 5's history |

## Left out

- The `user` and `flags` modules are not part of this model. Validation
  rules, persistence, how notes are keyed and overwritten, and notification
  delivery are represented only by the oracle's answers. So "the notes read
  after a deletion no longer contain the note" is a property of the store
  and is not stated here.
- `Promise.all` concurrency (lines 76-79 and 95-98). Both reads are always
  issued, and the result fails if either read fails. When both reads
  reject, the model reports the notes read's error. In the source the
  reported error is whichever rejection settles first, which depends on
  timing.
- `Date.now()` (line 92) is the parameter `now` of `DeleteNote`.
- Numbers are integers: NaN, -0, fractions and bigints are not modelled.
  Objects are compared structurally. This is sound here because every
  strict comparison is against a primitive: the caller's uid (lines 64 and
  85) or the invalid-data message (line 70).
- Errors are identified by their message. A rejection with a value that is
  not an Error, which has no `message`, is not modelled.
- `ReadProperty`: the TypeError text for reading `uid` of null or undefined
  follows the V8 engine's wording. The model relies only on that text being
  neither invalid-data nor no-privileges.
- Reading a property through the prototype chain is not modelled. None of
  the keys the API reads (`type`, `id`, `reason`, `flagId`, `datetime`,
  `note`, `uid`) is an `Object.prototype` member.
- The mutation that `delete data.flagId` makes to the caller's own object,
  TypeScript casts and type annotations, and module imports are left out.
  None of these has runtime behaviour that the operations observe.

## Notes on the source

- A lookup that resolves with null or undefined makes `note.uid` throw a
  TypeError. `appendNote` rethrows it, since its message is not
  invalid-data, and `deleteNote` propagates it. Only a lookup that itself
  rejects with invalid-data lets `appendNote` proceed.
- The write (the append, or the deletion and its history entry) is awaited
  before the two reads. So a read that rejects makes the operation reject
  after the write was issued, and the trace shows the write.
