# Chatroom roster and broadcasts, modelled in Dafny

The chat server in `server.js` keeps one process-wide list of participants,
`{id, name}` records in connection order, and reacts to five kinds of input:
the Socket.IO events `newUser`, `nameChange`, `disconnect` and
`disconnectUser`, and the HTTP request `POST /message`. Each reaction changes
the list, or leaves it alone, and sends at most one broadcast to every client.

This project models those reactions as pure functions from the roster and the
payload to the new roster and an outcome. An outcome is a broadcast, an HTTP
reply together with the broadcasts sent before it, or a thrown error. It then
proves what the handlers do to the roster and what they send.

Modules, one file each:

- `Wrappers` (`wrappers.dfy`): `Option`, standing for a JavaScript value that may be `undefined`.
- `Underscore` (`underscore.dfy`): `_.without`, which filters by reference identity.
- `JsString` (`js_string.dfy`): `String.prototype.trim`, with the exact whitespace set of ECMA-262.
- `Roster` (`roster.dfy`): the `Participant` record, the `_.findWhere` lookup, and the three roster changes `Join`, `Rename` and `Leave`.
- `RosterView` (`roster_view.dfy`): the presence view. It maps each present id to the name of its first entry. It also holds the one-entry-per-id invariant that unique connection ids suggest and the code does not enforce.
- `Server` (`server.dfy`): the events, the replies and one function per handler.
- `Session` (`session.dfy`): a run of handlers in arrival order, checked against an abstract "who is present" semantics.

How the model treats the source:

- **Identity in `_.without`.** `_.without(list, x)` removes the elements that are `===` to `x`. Every roster element is a separate object literal created by `push`. So removing the object `findWhere` found removes exactly that one position (`Underscore.WithoutDistinct`). When the lookup yields `undefined`, nothing is removed (`Underscore.WithoutAbsent`). `Roster.Leave` therefore removes by position, and `Roster.LeaveIsWithoutByIdentity` proves that this is what filtering a list of distinct references does.
- **Duplicate ids.** `newUser` appends with no check. A second entry with the same id is hidden behind the first from every lookup. After one leave, the second entry becomes visible (`RosterView.DuplicateJoinSurvivesLeave`). The server trusts whatever `id` the `newUser` payload carries (server.js:74). A joining id is fresh only because the browser client sends its own connection id (assets/js/index.js:29-31) and the transport gives every connection a distinct id. The trace theorem assumes that freshness.
- **A thrown handler.** The run in `Session.Replay` stops at the first handler that throws.

Points where the code does something a reader might not expect:

- Renaming an unknown id throws a TypeError at `server.js:85`. It is not a silent no-op.
- The success reply of `POST /message` is `{message: "Message received"}`.
- The `incomingMessage` broadcast carries the message untrimmed, under the fields `message` and `name`.
- `userDisconnected` carries `sender: "system"` next to the id.
- No handler enforces one entry per id.

## Model

| member | source | states |
|---|---|---|
| `Underscore.Without` | server.js:95 | `_.without`: the result holds no element identical to the removed one, and otherwise the same elements with the same multiplicities |
| `Underscore.WithoutAppend` | server.js:95 | filtering splits over concatenation, so the kept elements stay in their original relative order |
| `Underscore.WithoutDistinct` | server.js:95 | on a list of distinct references, removing the one found at position k leaves the list minus exactly position k, in order |
| `Underscore.WithoutAbsent` | server.js:100 | removing a reference that is not in the list (the `undefined` of a failed lookup) returns the list unchanged |
| `JsString.TrimStart` | server.js:50 | the result is a suffix of the input that does not start with whitespace, and everything cut off is whitespace |
| `JsString.TrimEnd` | server.js:50 | the result is a prefix of the input that does not end with whitespace, and everything cut off is whitespace |
| `JsString.Trim` | server.js:50 | the result is a contiguous piece of the input with no whitespace at either end, and only whitespace lies outside it |
| `JsString.TrimEmptyIffBlank` | server.js:50 | `message.trim()` is empty exactly when every character of the message is whitespace |
| `Roster.FirstIndex` | server.js:85 | the lookup returns a position exactly when some entry has the id, and that position is the first entry with the id |
| `Roster.FindWhere` | server.js:85 | `_.findWhere` gives `undefined` exactly when no entry has the id; otherwise it gives the first entry of the roster with that id |
| `Roster.Join` | server.js:74 | the push makes the roster one longer, keeps every earlier entry in place and order, and puts exactly `{id, name}` last |
| `Roster.Rename` | server.js:85 | the rename fails exactly when the id is absent; otherwise the length and every id stay the same, the first entry with the id gets the new name, and every other entry is unchanged, later duplicates included |
| `Roster.Leave` | server.js:95 | an absent id leaves the roster as it was; otherwise the roster shrinks by one, with the entries before the first match unchanged and the ones after it moved up by one |
| `Roster.LeaveIsWithoutByIdentity` | server.js:95 | on a list of distinct object references denoting the roster, filtering out by identity the object the lookup returns, or `undefined` when it fails, leaves exactly the records `Leave` keeps, in order |
| `Roster.LeaveIsSkipFirst` | server.js:95 | the lookup-then-without removal equals a plain walk that skips the first entry with the id |
| `Roster.LeaveRemovesOneRecord` | server.js:100 | a leave removes one copy of one record, the first one with the id, and keeps every other record |
| `Roster.LeaveKeepsLaterDuplicate` | server.js:100 | an id joined twice is still in the roster after one leave |
| `Roster.JoinThenLeave` | server.js:74-100 | a join under an id nobody holds, followed by a leave of that id, restores the roster |
| `Roster.RenameLastWins` | server.js:85 | renaming twice gives the same roster as renaming once with the later name |
| `RosterView.View` | server.js:85 | the presence view holds exactly the ids in the roster, each with the name of the entry `findWhere` returns for it |
| `RosterView.ViewAfterJoin` | server.js:74 | a join adds the id with its name to the view when the id is new, and leaves the view unchanged when the id was already present |
| `RosterView.ViewAfterRename` | server.js:85 | a successful rename changes exactly one name in the view |
| `RosterView.ViewAfterLeave` | server.js:95 | with one entry per id, a leave removes exactly the id from the view |
| `RosterView.FindWhereAfterJoin` | server.js:74 | after a join, lookups of ids already present return what they did before; the new id is found only when it was absent |
| `RosterView.FindWhereAfterRename` | server.js:85 | after a rename, a lookup of the renamed id returns it with the new name; lookups of other ids are unaffected |
| `RosterView.FindWhereAfterLeave` | server.js:95 | after a leave every lookup of another id is unchanged, duplicates or not; with one entry per id the id itself is no longer found |
| `RosterView.JoinKeepsUniqueIds` | server.js:74 | appending an id not yet present keeps one entry per id |
| `RosterView.RenameKeepsUniqueIds` | server.js:85 | a rename keeps one entry per id |
| `RosterView.LeaveKeepsUniqueIds` | server.js:95 | a leave keeps one entry per id |
| `RosterView.DuplicateJoinSurvivesLeave` | server.js:74-95 | joining "a" twice and then leaving "a" once leaves "a" visible under its second name |
| `Server.OnNewUser` | server.js:73-77 | `newUser` appends exactly the payload's record after all earlier entries, and broadcasts `newConnection` with the roster as it is after the append, the joiner last |
| `Server.OnNameChange` | server.js:84-87 | `nameChange` throws exactly when the id is absent, and then changes nothing and broadcasts nothing; otherwise it renames the first entry with the id, changes nothing else, and broadcasts `nameChanged {id, name}` |
| `Server.RemoveAndAnnounce` | server.js:94-103 | the shared removal drops the first entry with the id (nothing when the id is absent) and always broadcasts `userDisconnected {id, sender: "system"}` |
| `Server.OnDisconnect` | server.js:94-97 | `disconnect` removes the first entry carrying the socket's id, if there is one, and always announces the socket's id |
| `Server.OnDisconnectUser` | server.js:99-103 | `disconnectUser` removes the first entry carrying the payload's id, if there is one, and always announces that id |
| `Server.DisconnectPathsAgree` | server.js:94-103 | the two removal handlers have the same effect on the roster and send the same broadcast when given the same id |
| `Server.OnPostMessage` | server.js:44-63 | `POST /message` with a missing or blank message replies 400 `{error: "Message is invalid"}` and broadcasts nothing; otherwise it broadcasts one `incomingMessage` with the untrimmed text and the sender's name, then replies 200 `{message: "Message received"}`; the roster never changes |
| `Session.Handle` | server.js:44-105 | each input broadcasts at most once; it broadcasts nothing exactly when a rename throws or a message is rejected; only a rename can throw, and a throw leaves the roster unchanged |
| `Session.Replay` | server.js:44-105 | a run sends at most one broadcast per input; a run that does not crash sends exactly one for every input except the rejected messages; a run can stop early only because of a rename |
| `Session.StepMatchesIntended` | server.js:73-103 | with one entry per id and a fresh id on each join, every handler keeps one entry per id and changes the presence view as the event intends; it fails exactly when the intended rename fails |
| `Session.ReplayMatchesIntended` | server.js:73-103 | for every input sequence whose joins bring fresh ids, the roster lists exactly the ids joined and not yet left, each under its most recent name, and the run stops exactly where a rename names an absent id |
| `Session.ReplayFromEmpty` | server.js:21-103 | from the empty roster the server starts with, every run whose joins bring fresh ids keeps one entry per id and shows exactly the intended presence, stopping exactly where a rename names an absent id |

## Left out

- Express setup, the host and port settings, pug rendering, static files and `http.listen` (server.js:6-41, 108-110). These are framework wiring with no logic of their own.
- Socket.IO connection handling, id assignment, reconnects and the delivery of a broadcast to each socket. A broadcast is a value the handler returns. Delivering it is the transport's job.
- The `console.log` calls (server.js:75, 101). They are output only.
- The browser client, `assets/js/index.js`. Its blank-message check duplicates the server's.
- Payload fields that are not strings. `trim` on a non-string, non-`undefined` message throws a TypeError in JavaScript. A `newUser` payload with a missing `id` or `name`, or a `nameChange` payload with a missing `name`, stores `undefined`. A `nameChange` with a missing `id` throws like an unknown id, unless some entry joined without an id. These are type-error corners, not designed behaviour.
- What Node does after a handler throws. `Session.Replay` ends the run there.
- Session.ReplayMatchesIntended: assumes every join brings an id nobody present holds. The server does not check this; it holds only because the browser client sends its own connection id (assets/js/index.js:29-31) and connection ids are distinct. `RosterView.DuplicateJoinSurvivesLeave` shows what happens otherwise.
- Session.ReplayFromEmpty: assumes fresh joins in the same way.
- Session.StepMatchesIntended: assumes one entry per id and a fresh id on a join, for the same reason.
- RosterView.ViewAfterLeave: assumes one entry per id; with a duplicate, a leave reveals the second entry instead of removing the id.
- Strings as UTF-16. Dafny strings are sequences of Unicode scalar values, while JavaScript strings are UTF-16 code units, so a message holding a lone surrogate has no counterpart here. The blank test is unaffected, because every character `trim` strips lies in the Basic Multilingual Plane.
- Concurrency. The event loop runs one handler at a time, so every step is atomic.
