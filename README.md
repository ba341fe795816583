# GONZO room registry — a Dafny model

GONZO is a small chat server built on socket.io. Its server keeps every room
in memory, in one object `rooms` (server.js:12) that maps a room id to
`{ owner, participants }`. `owner` is the connection id recognised as the
room's host. `participants` is an array of `{ id, username }` records in join
order. Four socket event handlers change or read this object:

- `create_room` allocates a room under a fresh UUID. The creator becomes
  owner and sole participant.
- `join_room` does one of three things. It rejects an unknown room. When the
  payload's `oldSocketId` names the current owner, it moves ownership to the
  new connection and rebinds the first matching participant record. Otherwise
  it appends a participant.
- `send_message` validates a chat message and relays it to the room. It
  changes nothing.
- `disconnect` finds the first room that holds the connection and sets a
  2.5-second timer. When the timer fires, it looks at the registry again. A
  room still owned by the stale id is closed and deleted. Otherwise the
  stale participant record, if any, is removed. The delay lets a host who
  reloads the page rejoin under a new connection id before the room closes.

The model has three modules:

- `Rooms` (rooms.dfy) holds the participant and room values and the pure
  per-room operations the handlers apply: first-match search, owner rebinding,
  appending a newcomer, removing the first stale record, and the grace-check
  outcome. Their contracts, and the lemmas about the reconnect race, are
  proved here.
- `JsText` (jstext.dfy) holds the two JavaScript string operations the message
  check uses. `trim` strips the ECMAScript WhiteSpace and LineTerminator
  characters. `length` counts UTF-16 code units, so a character outside the
  Basic Multilingual Plane counts twice.
- `Server` (server.dfy) holds the `Registry` class. Its field `rooms` is the
  registry map. Its field `order` is the order in which `for (const roomId in
  rooms)` visits the keys. That is creation order, because UUID keys are never
  integer-like. There is one method per handler, and `GraceExpire` is the timer
  body. Each method returns the events it would emit, with their audience (one
  socket or a room's group). `Disconnect` only reports which grace check to
  schedule. A reconnect that races the timer is therefore an ordinary sequence
  of calls, and two client methods prove the two outcomes.

The class invariant `Valid()` states three things. Every room has a
participant record for its owner. The key order lists exactly the rooms. No
key repeats. Every handler preserves this invariant, so a room never becomes
empty while it exists.

server.js has no owner tokens, message history, rate limiting, room-count
limit or inactivity expiry, and neither does the model. A repeat join from the same connection
is not suppressed: it appends a second record. Reconnection is keyed by the
stale connection id (`oldSocketId`), not by a server-issued token. Because
`update_participants` sends every id to the whole room, any member who names
the current owner's id in `join_room` becomes the owner. `Rooms.Rebound`
states this as written.

## Model

| member | source | states |
|---|---|---|
| `Rooms.DisplayName` | server.js:29 | the username is a prefix of the connection id, five characters long or the whole id when shorter |
| `Rooms.FindIndex` | server.js:85 | `findIndex`/`find`: the result is the index of the first participant with the id, and none exactly when no participant has it |
| `Rooms.Rebound` | server.js:47-53 | owner rejoin: the owner becomes the new id and only the first record with the old id takes the new id. The count, order, usernames and every other record are unchanged. No record means no participant change. The owner-has-a-record invariant is kept |
| `Rooms.WithNewcomer` | server.js:54-61 | a regular join appends exactly one `{id, first five chars}` record at the end. Earlier records and the owner are unchanged |
| `Rooms.WithoutFirst` | server.js:98-100 | the splice at the first match removes that one record and keeps the others in order. It removes one occurrence of the id, leaves every other id's membership alone, and changes nothing when the id is absent |
| `Rooms.GraceOutcome` | server.js:91-103 | for an existing room, the room closes exactly when its owner is still the stale id. Otherwise the owner stays and the participants become `WithoutFirst` of the stale id: the first record with it is removed and the others keep their order. The room is identical when no record has it |
| `Rooms.OwnerRejoinSurvivesGrace` | server.js:89-104 | when the owner rejoins under a new id and then the old id's grace check fires, the room is not closed and is left exactly as the rejoin made it: new owner, same participant count (given at most one record with the old id) |
| `Rooms.OwnerRejoinWithDuplicateLosesRecord` | server.js:89-104 | the same race when a repeat join left the owner's id on two or more records: the room survives under the new owner, but the grace check removes the next record with the old id, so one participant fewer remains |
| `Rooms.GuestReloadKeepsCount` | server.js:95-102 | when a non-owner reloads (appended as a newcomer) and then the grace check fires, the old record is gone and the others keep their order, with the newcomer last |
| `JsText.TrimStart` | server.js:70 | drops exactly the leading white space: a suffix of the input that is empty or starts with a non-space |
| `JsText.TrimEnd` | server.js:70 | drops exactly the trailing white space: a prefix of the input that is empty or ends with a non-space |
| `JsText.TrimIsInnerSlice` | server.js:70 | `trim` yields a contiguous slice of the message with only white space before and after it |
| `JsText.TrimEndsAreNotSpace` | server.js:70 | what `trim` leaves is empty or starts and ends with a character that is not white space |
| `JsText.TrimEmptyIffBlank` | server.js:70 | `message.trim().length === 0` exactly when every character is white space |
| `JsText.Utf16Length` | server.js:70 | `message.length` in UTF-16 units is between the character count and twice it, and equals it exactly when every character is in the BMP |
| `Server.RemoveKey` | server.js:94 | `delete rooms[roomId]` leaves exactly the other keys in the enumeration order, keeps the keys distinct, and is the identity on an absent key |
| `Server.RemoveKeyKeepsOrder` | server.js:94 | deleting a present key cuts exactly its one position out of the enumeration order, so the remaining keys keep their relative order, which the first-match loop of `handleDisconnect` depends on |
| `Server.Registry.constructor` | server.js:12 | the registry starts empty and valid |
| `Server.Registry.CreateRoom` | server.js:24-34 | adds exactly one room under the fresh id, owned by the creator, whose only participant is `{creator, first five chars}`. All other rooms are unchanged, the key goes last in order, and it emits `room_created` to the creator then, as `updateParticipants` (server.js:16-20) does, `update_participants` with the new list to the room |
| `Server.Registry.JoinRoom` | server.js:36-65 | an unknown room gives `join_error` to the socket and leaves everything unchanged. A non-empty `oldSocketId` equal to the owner gives `Rebound`, and any other join gives `WithNewcomer`. Both then emit the new list to the room, as `updateParticipants` (server.js:16-20) does |
| `Server.Registry.SendMessage` | server.js:67-79 | changes nothing. It emits `receive_message` exactly when both fields are strings, the message is not all white space and is at most 500 UTF-16 units, the room exists and the sender's id has a record. The reported sender is the first such record |
| `Server.Registry.Disconnect` | server.js:81-108 | changes nothing. It schedules a check for the stale id in the first room, in key order, that holds the id, and schedules none exactly when no room holds it |
| `Server.Registry.GraceExpire` | server.js:89-104 | a vanished room is a no-op. A room still owned by the stale id is deleted, along with its key, with one `room_closed` to its group. Otherwise the room becomes its `GraceOutcome`, and an update with the new list is emitted, as `updateParticipants` (server.js:16-20) does, exactly when a stale record was removed |
| `Server.OwnerReloadWithinGrace` | server.js:89-104 | create, owner disconnect, owner rejoin naming the old id, then the grace check: no `room_closed`, the room remains, owned by the new id, with one participant |
| `Server.OwnerLeavesForGood` | server.js:91-94 | create, guest join, owner disconnect, then the grace check: exactly one `room_closed` is emitted and the room is gone |

## Left out

- HTTP, Express and socket.io setup, and the connection wiring (server.js:1-10, server.js:110-124): library plumbing.
- `socket.join` group membership and network delivery: emitted events are returned values tagged with their audience.
- `setTimeout` and the 2500 ms delay: only the callback's firing is modelled, as `GraceExpire`, which the caller invokes with the check that `Disconnect` returned.
- `console.log` calls: side effects only.
- main.js and assets/main.js, the browser client (DOM, session storage, QR codes, `getUsernameColor`): main.js and assets/main.js are not part of this model.
- `uuidv4()`: a fresh-id parameter, with the precondition that it names no existing room.
- Payload fields of non-string type in `join_room`: `roomId` is a string, and a falsy `oldSocketId` is the empty string.
- A missing payload object in `join_room` or `send_message`, which makes the handler throw at the destructuring (server.js:37) or at `data.roomId` (server.js:68): each handler receives its fields, and `JsValue` can say only "not a string".
- `DisplayName`: counts characters, while `slice(0, 5)` counts UTF-16 code units. The two agree on socket.io's connection ids, which are ASCII.
- Keys inherited from `Object.prototype` (for example a `roomId` of `"constructor"`), which `rooms[roomId]` finds on a plain `{}`: the map holds only the rooms created.
- Integer-like object keys, which JavaScript enumerates before other keys: `order` is creation order, which is exact for UUID keys.
- Lone UTF-16 surrogates in messages: a Dafny `char` is a Unicode scalar value.
- Update in place and aliasing: rooms and participants are values, rewritten in the map. No handler keeps a reference to a room across calls (the timer looks the room up again by id), so this is not observable.
