# Randori session engine, modelled in Dafny

A randori session splits participants into rooms. In each room one
participant is the pilot, one the copilot, and the rest are observers
queued by `position`. A round runs on a 2:10 clock. When the clock runs
out, the room rotates:
- the pilot leaves for the next room and joins its observer queue;
- the copilot takes over as pilot;
- the first observer in the queue becomes copilot.

A leader can close a room. Its participants are then dealt over the
rooms that are still active.

This project models the engine as two pieces of code implement it:

- **The front-end session provider** (`src/context/SessionContext.tsx`).
  - It is the class `SessionContext.SessionProvider`. Its fields are the
    provider's state cells.
  - Rotation and room closing are imperative loops over a working copy of
    the participant array. Each loop is proved equal to a specification
    function: `Rotation.Rotated` and `RoomClosing.EndSessionParticipants`.
  - Lemmas about those functions prove what the commands promise.
- **The back-end controller** (`api/controllers/sessionController.js`).
  - It is the class `Backend.SessionController`: one state with an undo
    stack, a redo stack and a round timer.
- **The shared data model and helpers** (`src/lib/models.ts`).
  - The records (`Models`).
  - The seed-data generator (`MockData.GenerateMockData`, proved equal to
    `MockData.MockRooms` and its siblings).
  - The `m:ss` clock formatter, with a parser that proves the round trip.
  - The role-to-style maps.

The JavaScript array methods the code relies on are modelled one by one
in `Roster`:
- `filter`, `find` and `findIndex`, including its -1 result.
- `Math.max(..., -1) + 1`.
- The stable `sort` that picks the next copilot.

The model follows the code where it departs from the design:
- Rotation visits every room, Finished or not, and a Finished room's
  pilot and copilot still rotate.
- Each room's step reads the array as the earlier steps left it. A pilot
  moved into a later room is already one of that room's observers when
  its step runs.
- `endSession` marks the room Finished before it looks for another active
  room. With no other active room, the room is still marked and nobody
  moves.
- In the back end, `state.session` starts as `null` and no code assigns
  it. So `startSession`, `pauseSession`, `advanceRound` and the timer tick
  throw a `TypeError` before they change anything; the model's outcome
  for that is `NoSession`.
  - `resetTimer` never reads the session, so it succeeds, and it records
    a history entry without a session.
  - The back end's `rotateParticipants` and `endSession` are empty stubs,
    modelled as commands that change nothing.

## Model

| member | source | states |
|---|---|---|
| Decimal.NatToString | src/lib/models.ts:92 | a number in a template literal renders as one or more decimal digits, a single digit exactly below 10 and at most two below 100 |
| Decimal.NatToStringCanonical | src/lib/models.ts:92 | the rendering starts with '0' only for 0 itself: there are no leading zeros |
| Decimal.ParseNatToString | src/lib/models.ts:92 | reading the digits of a rendered number back gives the number |
| Decimal.IntToString | src/lib/models.ts:90-92 | definition of `${i}` for an integer: a minus sign before the digits of a negative value; what it renders is stated by Decimal.IntToStringParses |
| Decimal.IntToStringParses | src/lib/models.ts:90-92 | a non-negative integer renders as digits that read back as its value; a negative one as '-' followed by digits that read back as its magnitude |
| Decimal.PrefixedInjective | src/lib/models.ts:48 | two ids built as a fixed prefix plus a number are equal only for equal numbers |
| Models.JsRemainder | src/lib/models.ts:91 | JavaScript's `%` by a positive divisor lies strictly between minus and plus the divisor and takes the sign of the dividend |
| Models.PadStart2 | src/lib/models.ts:92 | definition of `padStart(2, '0')`; its effect is stated by Models.PadStart2Pads |
| Models.PadStart2Pads | src/lib/models.ts:92 | the padded string is the input, right-aligned, with '0' in front up to length 2; an input of two or more characters is kept as it is |
| Models.FormatTime | src/lib/models.ts:89-93 | definition of `formatTime`: `Math.floor(seconds / 60)`, a colon, and JavaScript's `seconds % 60` padded to two characters; its properties are stated by Models.FormatTimeDigits, Models.FormatTimeRoundTrip, Models.FormatRoundDuration and Models.FormatNegativeSecond |
| Models.FormatTimeDigits | src/lib/models.ts:89-93 | for seconds >= 0 the clock is a colon between two fields of decimal digits: the first, of any length, reads as the whole minutes; the second has exactly two digits and reads as the seconds past them |
| Models.FormatTimeRoundTrip | src/lib/models.ts:89-93 | reading a formatted clock back as 60 * minutes + seconds gives the seconds formatted |
| Models.FormatRoundDuration | src/lib/models.ts:89-93 | the 130-second round renders as "2:10", the value the reset message announces |
| Models.FormatNegativeSecond | src/lib/models.ts:89-93 | a negative input keeps JavaScript's signs: -1 renders as "-1:-1" |
| Models.RoleBadgeVariant | src/lib/models.ts:107-117 | no role gets the destructive badge |
| Models.RoleBadgeVariantInjective | src/lib/models.ts:107-117 | the three roles get three different badge variants |
| Models.RoleColor | src/lib/models.ts:95-105 | definition of `getRoleColor`: blue classes for the pilot, green for the copilot, gray for observers; it has no contract of its own, and that the strings differ is stated by Models.RoleColorInjective |
| Models.RoleColorInjective | src/lib/models.ts:95-105 | the three roles get three different colour class strings |
| MockData.GenerateMockData | src/lib/models.ts:46-86 | the loops pushing five participants per room build exactly the rooms, leaders and participants the specification functions describe |
| MockData.MockParticipant | src/lib/models.ts:66-79 | the participant at index k sits at a position from 0 to 4; it is the pilot exactly at position 0 and the copilot exactly at position 1 |
| MockData.MockRooms | src/lib/models.ts:47-53 | six rooms, all Active, each with a list of five participant ids once seated |
| MockData.MockLeaders | src/lib/models.ts:55-61 | six leaders; leader k's room id is room k's id, and room k's leader id is leader k's id |
| MockData.RoomIdInjective | src/lib/models.ts:48 | room ids `room-N` differ for different rooms |
| MockData.MockRoomsDistinct | src/lib/models.ts:47-61 | there are six rooms, all Active, with distinct ids, and leader k has room k's leader id and room id |
| MockData.MockParticipantsUniqueIds | src/lib/models.ts:63-83 | the 30 participants have distinct ids |
| MockData.MockRoomRefs | src/lib/models.ts:76 | every participant is seated in one of the generated rooms |
| MockData.MockRolesWellFormed | src/lib/models.ts:66-79 | no room starts with two pilots or two copilots |
| MockData.SeatParticipant | src/lib/models.ts:66-79 | the participant pushed for seat i of room r is numbered 5r+i+1, sits in room r, has the seat's role and position i |
| MockData.BlockSeats | src/lib/models.ts:65-80 | the participant at seat s of room r has id `participant-(5r+s+1)`, sits in room r, is pilot at seat 0, copilot at seat 1, observer otherwise, with position s |
| MockData.ParticipantsUpToBlocks | src/lib/models.ts:65-83 | the participant array grows by one block of five per room |
| MockData.BlockInRoom | src/lib/models.ts:76 | the filter for a room keeps its own block whole and nothing of any other room's block |
| MockData.MockPrefixInRoom | src/lib/models.ts:65-83 | filtering the participants pushed so far by a room gives that room's block of five once it has been pushed, and nothing before |
| MockData.MockRoomRoster | src/lib/models.ts:65-83 | each room's `participants` list is exactly the ids of the participants in that room, in order: five, seated pilot, copilot, three observers at positions 0-4 |
| Roster.InRoom | src/context/SessionContext.tsx:159 | the room filter keeps at most as many entries as the array has; which entries it keeps is stated by Roster.InRoomSound and Roster.InRoomComplete |
| Roster.InRoomSound | src/context/SessionContext.tsx:159 | the room filter keeps only participants of the array who are in the room |
| Roster.InRoomComplete | src/context/SessionContext.tsx:159 | the room filter keeps every participant of the array who is in the room |
| Roster.InRoomAppend | src/context/SessionContext.tsx:159 | filtering a concatenation is the concatenation of the filtered parts |
| Roster.InRoomUniqueIds | src/context/SessionContext.tsx:121 | filtering an array with distinct ids gives distinct ids |
| Roster.FindRole | src/context/SessionContext.tsx:161-162 | whatever `find` by role returns holds that role; that it is a list member and the first holder is stated by Roster.FindRoleSound and Roster.FindRoleFirst |
| Roster.FindRoleSound | src/context/SessionContext.tsx:161-162 | `find` by role returns a member of the list holding that role |
| Roster.FindRoleFirst | src/context/SessionContext.tsx:161-162 | `find` returns nothing exactly when no one holds the role, and otherwise the first one who does |
| Roster.IndexOfId | src/context/SessionContext.tsx:169 | `findIndex` returns -1 or an index of the array; which index is stated by Roster.IndexOfIdFirst |
| Roster.IndexOfIdFirst | src/context/SessionContext.tsx:169 | `findIndex` by id returns the first index holding the id, or -1 exactly when no entry does |
| Roster.IndexOfMember | src/context/SessionContext.tsx:186 | with distinct ids, `findIndex` of the id at index k is k |
| Roster.IndexOfSameIdentity | src/context/SessionContext.tsx:186 | `findIndex` by id gives the same index on the partly rewritten array as on the original, since rewrites keep ids |
| Roster.SameIdentityUniqueIds | src/context/SessionContext.tsx:156 | rewriting only roles, rooms and positions keeps ids distinct |
| Roster.MaxPosition | src/context/SessionContext.tsx:174-179 | `Math.max(...positions, -1)` is never below -1; Roster.MaxPositionBounds states that it is the maximum |
| Roster.MaxPositionBounds | src/context/SessionContext.tsx:174-179 | `Math.max(...positions, -1)` is at least -1, bounds every position, and above -1 is one of them |
| Roster.NextPosition | src/context/SessionContext.tsx:174-179 | the next position in a room is never negative; Roster.NextPositionBehind states that it is one past the back of the room |
| Roster.NextPositionBehind | src/context/SessionContext.tsx:174-179 | the next position in a room is non-negative, above everyone in the room, and either 0 or one past somebody's position there |
| Roster.NextPositionAboveAll | src/context/SessionContext.tsx:126-131 | every entry of the array in the room is in front of the room's next position |
| Roster.MinObserver | src/context/SessionContext.tsx:196-198 | whatever the filter-and-sort picks is an observer; that it is the stable minimum is stated by Roster.MinObserverLowest and Roster.MinObserverStable |
| Roster.MinObserverSound | src/context/SessionContext.tsx:196-198 | the next copilot is an observer of the room list |
| Roster.MinObserverLowest | src/context/SessionContext.tsx:196-198 | there is no next copilot exactly when the room has no observer; otherwise no observer has a lower position |
| Roster.MinObserverStable | src/context/SessionContext.tsx:196-198 | every observer before the next copilot in array order has a strictly higher position, as a stable sort leaves them |
| Rotation.RotateRoom | src/context/SessionContext.tsx:158-211 | one room's step keeps the array's length; what it writes is stated by Rotation.RotateRoomEffect and Rotation.RotateRoomSkipsIncomplete |
| Rotation.Rotated | src/context/SessionContext.tsx:154-216 | the whole pass keeps the array's length; Rotation.RotatedKeepsRoster states the invariants it keeps |
| Rotation.RotateRoomShape | src/context/SessionContext.tsx:169-207 | the three `findIndex` lookups on the partly rewritten array find the indices they would find on the array the step started from |
| Rotation.ApplyStepIdentity | src/context/SessionContext.tsx:170-207 | the step's three writes change only role, room and position |
| Rotation.ApplyStepRooms | src/context/SessionContext.tsx:170-180 | the step's writes move nobody except into the next room |
| Rotation.ApplyStepKeepsRolesWellFormed | src/context/SessionContext.tsx:170-207 | with one pilot and one copilot per room before, the writes leave one per room after; the former copilot is then the room's only pilot, and with no observer the room has no copilot |
| Rotation.RotateRoomSkipsIncomplete | src/context/SessionContext.tsx:161-164 | a room lacking a pilot or a copilot leaves the array unchanged |
| Rotation.RotateRoomIdentity | src/context/SessionContext.tsx:156-211 | a room's step adds, removes and reorders nobody; ids, names and handles stay |
| Rotation.RotateRoomEffect | src/context/SessionContext.tsx:158-211 | in a room with pilot and copilot: the first pilot becomes an observer of `rooms[(i+1) % n]` at that room's next position, the first copilot becomes pilot at position 0, the lowest-position observer becomes copilot at position 1, and every other entry is unchanged |
| Rotation.RotateRoomKeepsRolesWellFormed | src/context/SessionContext.tsx:186-210 | a step keeps at most one pilot and one copilot per room; afterwards the former copilot is the room's only pilot, and a room without observers has no copilot |
| Rotation.RotateRoomKeepsRoomRefs | src/context/SessionContext.tsx:165-180 | a step keeps every participant in an existing room |
| Rotation.FoldKeeps | src/context/SessionContext.tsx:158-212 | a property that every room's step keeps holds after the whole `forEach` over the rooms |
| Rotation.RotatedKeepsRoster | src/context/SessionContext.tsx:154-216 | the whole pass keeps identities, distinct ids, valid rooms and well-formed roles |
| RoomClosing.MarkFinished | src/context/SessionContext.tsx:106-108 | the `map` keeps the number of rooms; its effect on each room is stated by RoomClosing.MarkFinishedEffect |
| RoomClosing.MarkFinishedEffect | src/context/SessionContext.tsx:106-108 | marking finishes every room with the id, changes only status, and leaves every other room and the room ids as they were |
| RoomClosing.ActiveRoomsExcept | src/context/SessionContext.tsx:110 | the filter yields no more candidates than there are rooms; which rooms is stated by RoomClosing.ActiveRoomsExceptMembers |
| RoomClosing.ActiveRoomsExceptMembers | src/context/SessionContext.tsx:110 | the candidates are exactly the active rooms of another id |
| RoomClosing.ActiveRoomsAfterMarking | src/context/SessionContext.tsx:106-110 | the candidates are the same whether read before or after the room is marked |
| RoomClosing.InRoomClosing | src/context/SessionContext.tsx:121 | the closing participants have distinct ids, are each found by id in the array, sit in the closing room, and no candidate room has its id |
| RoomClosing.SlotOf | src/context/SessionContext.tsx:121 | every participant in the closing room is one of the closing participants, found at its own index |
| RoomClosing.PlaceClosing | src/context/SessionContext.tsx:125-139 | definition of one iteration of the `forEach`; its write is stated by RoomClosing.PlaceClosingAt |
| RoomClosing.MoveClosing | src/context/SessionContext.tsx:124-142 | definition of the first n iterations, round-robin over the candidates; their effect is stated by RoomClosing.MoveClosingPlaced and RoomClosing.MoveClosingQueued |
| RoomClosing.Redistributed | src/context/SessionContext.tsx:120-145 | definition of the `setParticipants` updater over every participant of the closing room; its result is stated by RoomClosing.EndSessionRedistributes |
| RoomClosing.EndSessionParticipants | src/context/SessionContext.tsx:105-145 | definition of the participants after `endSession`: unchanged with no other active room, redistributed otherwise; stated by RoomClosing.EndSessionRedistributes and RoomClosing.EndSessionKeepsInvariants |
| RoomClosing.PlaceClosingAt | src/context/SessionContext.tsx:126-139 | one placement writes the participant, as the filter saw it, over its own entry, moved to the target as an observer at the target's next position |
| RoomClosing.PlacedStateStep | src/context/SessionContext.tsx:124-142 | one more placement extends the placed state |
| RoomClosing.MoveClosingPlaced | src/context/SessionContext.tsx:124-142 | after n placements nobody is added, removed or reordered, nobody outside the closing room has changed, and the j-th closing participant (j < n) is an observer of `active[j % m]` |
| RoomClosing.QueuedStateStep | src/context/SessionContext.tsx:124-142 | one more placement behind everyone in its target extends the queued state |
| RoomClosing.QueuedBehindStep | src/context/SessionContext.tsx:126-139 | a placement at a position behind everyone in its target keeps every placed participant behind its target's original occupants |
| RoomClosing.QueuedInOrderStep | src/context/SessionContext.tsx:126-139 | a placement at a position behind everyone in its target keeps those placed in one room in strictly increasing positions |
| RoomClosing.MoveClosingQueued | src/context/SessionContext.tsx:124-142 | every placed participant is behind the target room's original occupants, and those placed in the same room get strictly increasing positions |
| RoomClosing.EndSessionRedistributes | src/context/SessionContext.tsx:120-145 | with another active room, the closed room ends empty, its participants become observers of the candidate rooms round-robin in array order, behind the original occupants and in strictly increasing positions, and nobody else changes |
| RoomClosing.EndSessionKeepsInvariants | src/context/SessionContext.tsx:105-145 | closing keeps identities, distinct ids, valid rooms and well-formed roles, and with no other active room nobody moves |
| SessionContext.RotateRoomInPlace | src/context/SessionContext.tsx:158-211 | the `forEach` body's writes on the working copy equal one step of the rotation specification |
| SessionContext.RotateAll | src/context/SessionContext.tsx:155-215 | the updater's loop over the rooms leaves exactly the array the rotation pass describes |
| SessionContext.RedistributeAll | src/context/SessionContext.tsx:120-145 | the updater's loop over the closing participants leaves exactly the array the redistribution describes |
| SessionContext.SessionProvider.constructor | src/context/SessionContext.tsx:46-58 | the provider starts from the seed data at round 0, not running, with a full clock, and its invariant holds |
| SessionContext.SessionProvider.StartSession | src/context/SessionContext.tsx:81-87 | only `isRunning` changes, to true |
| SessionContext.SessionProvider.PauseSession | src/context/SessionContext.tsx:89-95 | only `isRunning` changes, to false |
| SessionContext.SessionProvider.ResetTimer | src/context/SessionContext.tsx:97-103 | the clock is back at 130 whatever it read, and nothing else changes |
| SessionContext.SessionProvider.RotateParticipants | src/context/SessionContext.tsx:154-216 | the loop over rooms leaves the participants the rotation pass describes and keeps the roster invariant |
| SessionContext.SessionProvider.EndSession | src/context/SessionContext.tsx:105-151 | the room is marked finished whatever happens next, the participants become those the closing specification describes, and the invariant holds |
| SessionContext.SessionProvider.AdvanceRound | src/context/SessionContext.tsx:218-229 | a rotation pass, the round plus exactly 1, and the clock back at 130 |
| SessionContext.SessionProvider.Tick | src/context/SessionContext.tsx:60-79 | while running, a second is taken off the clock, and reaching 0 advances the round; a paused session does not change; the clock stays within 1..130 |
| Backend.SessionController.constructor | api/controllers/sessionController.js:1-11 | no session, empty arrays and stacks, a full timer |
| Backend.SessionController.PushToHistory | api/controllers/sessionController.js:13-20 | the undo stack grows by exactly one copy of the live session, rooms and participants; the redo stack is empty |
| Backend.SessionController.StartSession | api/controllers/sessionController.js:22-27 | with a session: running from `now`, and the newest history entry shows it running; without one, nothing changes |
| Backend.SessionController.PauseSession | api/controllers/sessionController.js:29-33 | with a session: stopped, and the newest history entry shows it stopped; without one, nothing changes |
| Backend.SessionController.ResetTimer | api/controllers/sessionController.js:35-38 | the timer is 130 and one history entry equal to the unchanged session, rooms and participants is added |
| Backend.SessionController.RotateParticipants | api/controllers/sessionController.js:52-54 | the stub changes nothing |
| Backend.SessionController.EndSession | api/controllers/sessionController.js:48-50 | the stub changes nothing |
| Backend.SessionController.AdvanceRound | api/controllers/sessionController.js:40-46 | with a session: the round plus 1, the timer at 130, participants unchanged, one history entry; without one, nothing changes |
| Backend.SessionController.Tick | api/controllers/sessionController.js:56-64 | running with time left: the timer drops by 1 and nothing is recorded; running at 0: a round advance; stopped: nothing changes; the timer stays within 0..130 and the newest history entry stays the live state |
| Backend.SessionController.GetState | api/controllers/sessionController.js:72 | returns the state's fields with the timer and changes nothing |

## Left out

- Rendering, toasts and `Logger` calls are left out. They only produce output, so they are treated as doing nothing.
- `setInterval`, `clearInterval` and effect scheduling are left out. One call of `Tick` stands for one interval callback, followed in the provider by the effect's re-run. The interval that a second back-end `startSession` leaks, which ticks the timer twice per second, is not modelled.
- `io.emit` in the back end's `advanceRound` is left out. When the tick triggers an advance it passes no `io`, so the emit throws after the state has changed; the model stops at that state change.
- Express routes, socket wiring, server start-up and database calls are left out as network and storage I/O. The socket `undo` and `redo` handlers are empty in the source and are not modelled.
- `new Date()` is left out: start times are a `Timestamp` parameter.
- Concurrency is left out. The React closures over stale state and a tick racing a command do not arise, because commands run one at a time on the current state.
- The provider's `leaders` never changes after mounting, and no command touches it.
- Models.JsRemainder: states the bounds and signs of the remainder, not that the dividend minus the remainder is a multiple of the divisor. For non-negative inputs, Models.FormatTimeDigits states the value.
- Models.RoleColor: has no contract of its own. Its three class strings are pinned only as pairwise different, by Models.RoleColorInjective.
- The `default` branches of the two role maps cannot be reached with a typed `Role` and are not modelled.
- Decimal.NatToString: matches JavaScript's rendering of integers below 10^21 only. From 10^21 up JavaScript switches to exponent notation ("1e+21"), and above 2^53 its numbers no longer hold every integer. The model's integers are unbounded, and the roster's numbers stay far below both limits.
- Backend.SessionController.GetState: `{ ...state, timer }` is a shallow copy, so the returned arrays and stacks alias the live state. The model returns a value, so this aliasing is not captured; the only caller serialises the result.
- Fractional seconds passed to the clock formatter are not modelled; the formatter takes integers.
