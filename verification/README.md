# Chat server registry

A model of the in-memory registry of a socket.io group-chat server
(`server.js`). The server keeps four module-level arrays: `users` (names),
`groups` (each with `name`, `admin`, `users` and `bans`), `connections`
(the live sockets, each possibly logged in under a name) and `awayUsrs`
(away markers `{user, group}`). A set of socket event handlers reads and
mutates them. Each handler runs to completion before the next one starts.

The model is the class `ChatServer.Registry`, with one `seq` field per
array and one method per handler. Two more pieces carry what a handler
produces:

- every `emit`, `socket.emit` and `io.emit` is appended to the field
  `outbox` as an `Event(to, msg)`, where `to` is the handle of the target
  socket;
- a callback argument becomes the method's result. Where a handler calls
  its callback with no argument, or with more than one, the result encodes
  the call instead: `ban` calls `callback()` (server.js:479), and its
  `Done(true)` means only that the callback was called; `novo nick` calls
  `callback(true, newName)` (server.js:423), and its `Some(newName)` stands
  for both arguments, with `None` for `callback(false)`.

A `find` whose miss the handler dereferences without a check (a crash in
JavaScript) yields the outcome `NotFound`. Every change the handler made
before that point is kept, as it is in the running server:

- approve has already pushed the new member;
- ban and kick have already rewritten the lists;
- send message has already run its away-marker loop.

Modules:

- `ChatTypes`: the entities (`Conn`, `Group`, `AwayMarker`), the messages
  (`Msg`, one constructor per socket.io event name) and `Event`.
- `JsArrays`: `indexOf`, `splice`, `filter` and the rename loop, with
  JavaScript's edge cases written out. `indexOf` answers -1 on a miss, and
  `splice` counts a negative start from the end.
- `Lookup`: the `find` queries, by group name, by user name and by socket.
- `FanOut`: the nested `forEach` loops that deliver a message to every
  socket of every listed name.
- `Away`: the away markers, the clearing loop of `send message` as
  written (`Scan`), and the intended clearing (`ClearAway`).
- `ChatServer`: the `Registry` class and its handlers.
- `Scenarios`: short runs of several handlers. Their outcome follows from
  the handlers' contracts alone. The one exception is
  `TalkingAsWrittenStaysAway`, which writes the as-written markers into the
  registry directly.

Where the intended behaviour of the chat and the code disagree, the model
follows the code:

- user names and group names are not checked for uniqueness;
- approve checks neither the caller, nor membership, nor bans, and no
  pending-approval state exists;
- reject only notifies;
- the admin of a group need not be one of its members, and leave can
  remove the admin;
- disconnect leaves group membership alone.

Two handler steps do not do what their authors evidently meant (see
"## Findings"). For each, the as-written behaviour is modelled on its own,
with a lemma that exhibits the defect, and the registry uses the
corrected behaviour:

- the away-marker clearing of `send message`;
- the removal of the user's name on `disconnect`.

## Model

| member | source | states |
|---|---|---|
| ChatServer.Registry.constructor | server.js:28-31 | The four arrays start empty, and no event has been sent. |
| ChatServer.Registry.Connect | server.js:53-54 | The new socket is appended to `connections` without a name, and nothing else changes. |
| ChatServer.Registry.Disconnect | server.js:64-69 | Exactly the caller's socket leaves `connections`, and the others keep their order. One copy of the socket's name leaves `users`: the corrected removal, so an unset or unlisted name removes nothing. Groups, markers and outbox are unchanged. |
| ChatServer.Registry.NewUser | server.js:100-106 | Always answers true. Appends the name to `users` even when it is taken, and names the caller's socket, so that `UsernameOf` the caller is the new name. |
| ChatServer.Registry.ShowGroups | server.js:114-116 | The caller alone receives the current group list, and no state changes. |
| ChatServer.Registry.GetAllGroups | server.js:124-126 | The answer is the group list. |
| ChatServer.Registry.UpdateGroups | server.js:561-563 | Every live socket, in connection order, receives the group list once, and nothing else changes. |
| ChatServer.Registry.NewGroup | server.js:133-140 | Always answers true. The client's group object is appended unchecked, and every socket receives the new list. |
| ChatServer.Registry.EmitToName | server.js:241-245 | The inner loop: every socket logged in under the name receives the messages, in connection order. Proved against `Matching`. |
| ChatServer.Registry.Notify | server.js:239-247 | The nested loops: the sockets of each listed name in turn receive the messages. Proved against `Deliveries`. |
| ChatServer.Registry.JoinGroup | server.js:153-207 | Changes no state. A member gets the member list as the answer and `goto messages`. A banned non-member gets only `deny because of ban`. Anyone else causes `asked for permission(user, group)` to the first socket of the admin, then `ask for permission` to the caller. A missing group or an offline admin is `NotFound`. |
| ChatServer.Registry.NotBanned | server.js:173-180 | True iff no entry of the ban list equals the user. |
| ChatServer.Registry.Approve | server.js:215-248 | Only the first group with that name changes: its member list gains the user at the end. The user's first socket receives the new list, `permission accepted` and `goto messages`. Then every socket of every other member hears `other user joined`. An offline user is `NotFound`, with the push already done. |
| ChatServer.Registry.Reject | server.js:256-264 | Every socket of the user receives `permission rejected`, and no state changes. |
| ChatServer.Registry.DeleteGroup | server.js:272-296 | The answer is true iff the requester is the admin and the member list is exactly [requester]; only then is that group removed, the others keeping their order, and the new list broadcast. The answer is false iff the requester is the admin and the member count is not 1. Whenever the answer is not true, nothing changes; a non-admin gets no answer. |
| ChatServer.Registry.UsersOnGroup | server.js:305-310 | The answer is the member list of the first group with that name, or `NotFound` iff no group has that name. |
| ChatServer.Registry.ClearMarkers | server.js:320-325 | The clearing loop, corrected: markers become `ClearAway` of the old markers, and the flag is true iff the sender had a marker. Nothing else changes. |
| ChatServer.Registry.SendMessage | server.js:317-349 | Every marker of the sender is cleared, the corrected clearing. Every socket of every member then receives, in member order, `user no longer away` followed by the message when the sender had a marker, and the message alone otherwise. The message is signed with the calling socket's name. A missing group is `NotFound`, with the markers already cleared. |
| ChatServer.Registry.PrivateMessage | server.js:369-391 | When any marker names the target, the sender's first socket receives `target is away` and nothing is delivered. Otherwise the target's first socket receives the message signed with the sender's name. No state changes. |
| ChatServer.Registry.Rename | server.js:399-429 | Refused iff the new name is already in `users`, and then nothing changes. Otherwise every matching entry in `users`, in socket names and in `admin` fields becomes the new name. Member lists and ban lists are untouched. |
| ChatServer.Registry.LeaveGroup | server.js:436-451 | Every entry equal to the user leaves that group's members, the others keep their order, no other group changes, and the answer is true. A missing group is `NotFound`. |
| ChatServer.Registry.Ban | server.js:459-486 | Acts iff the commander is the admin and the target a member. Then the target leaves the members and is appended to the bans, and the target's first socket receives `you have been banned`. Otherwise nothing changes and there is no answer. |
| ChatServer.Registry.Kick | server.js:495-521 | Like `Ban`, but the ban list is unchanged and the target receives `you have been kicked`. |
| ChatServer.Registry.Away | server.js:540-555 | Every socket of every member hears `user away`, and the marker (user, group) is appended. Afterwards a marker names the user. |
| ChatServer.GroupMessage | server.js:333-341 | What each member socket receives: `user no longer away` first when the sender was away, and always the message last. |
| ChatServer.GroupMessageOrder | server.js:331-340 | Each member socket receives `user no longer away` immediately before the message when the sender was away, and the message alone otherwise. |
| ChatServer.RenameConns | server.js:413-417 | Renaming sockets keeps their number and their handles. |
| ChatServer.RenameAdmins | server.js:418-422 | Renaming admins keeps every group's name, member list and ban list. |
| ChatServer.RenameRoundTrip | server.js:399-429 | When the new name is unused, no socket name or admin field keeps the old name, and renaming back restores both lists. |
| ChatServer.ApprovalNotifiesOthers | server.js:236-247 | A socket hears `other user joined` iff it is logged in under a name of the new member list other than the newcomer's. |
| JsArrays.IndexOf | server.js:65 | -1 iff the element is absent; otherwise the first position holding it. |
| JsArrays.IndexOfName | server.js:65 | An unset socket name, or one not in the list, answers -1; otherwise the first position holding that name. |
| JsArrays.SpliceOne | server.js:65-66 | An in-range start removes that element, -1 removes the last element, and a start past the end removes nothing. |
| JsArrays.SpliceOneRemoves | server.js:283 | An in-range splice removes exactly that one element, as a multiset, and the others keep their order. |
| JsArrays.Without | server.js:445 | `filter(v => v != x)` keeps exactly the elements other than `x` and never grows. |
| JsArrays.WithoutCounts | server.js:445 | Filtering removes every copy of `x` and keeps every copy of anything else. |
| JsArrays.WithoutConcat | server.js:445 | Filtering distributes over concatenation, so the survivors keep their order. |
| JsArrays.WithoutAbsent | server.js:445 | Filtering out a name that is not there changes nothing. |
| JsArrays.Replace | server.js:408-412 | The rename loop keeps the length and every other entry, and leaves no old name when the new one differs. |
| JsArrays.ReplaceRoundTrip | server.js:408-412 | When the new name is unused, the rename loop leaves no old name and renaming back restores the list. |
| JsArrays.RemoveFirst | server.js:65 | The intended removal: nothing when the name is absent; otherwise one copy fewer. |
| JsArrays.RemoveName | server.js:65 | The intended removal of a socket's name: nothing when the name is unset or absent; otherwise one copy fewer. |
| JsArrays.SpliceIndexOf | server.js:65 | The removal as written: it always removes one entry from a non-empty list, whether or not the name is listed. |
| JsArrays.SpliceIndexOfWhenListed | server.js:65 | When the name is listed, the removal as written is the intended one. |
| JsArrays.SpliceIndexOfWhenMissing | server.js:65 | When the name is unset or not listed, the removal as written drops the last entry, where the intended one changes nothing. |
| JsArrays.UnregisteredDisconnectEvictsUser | server.js:64-66 | A socket that never chose a name disconnects while "ann" is the only user: as written "ann" is removed, and the intended removal keeps the list as it was. |
| Lookup.FindGroup | server.js:154 | The first group with the name, or `None` iff no group has it. |
| Lookup.FindConn | server.js:216 | The first socket logged in under the name, or `None` iff none is. |
| Lookup.ConnIndex | server.js:66 | The position of the socket with that handle, or `None` iff it is not connected. |
| Lookup.Ids | server.js:561-563 | The handles of all live sockets, in connection order. |
| Lookup.RemoveConnSpec | server.js:66 | Removing one socket from a list without repeated handles leaves exactly the other sockets, and none with that handle. |
| Lookup.ConnIndexUnique | server.js:66 | With distinct handles, the lookup by handle finds the one socket that carries it. |
| Lookup.UsernameOf | server.js:340 | The name carried by the socket with that handle (`None` while it has none), and `None` when no socket has that handle. |
| FanOut.Matching | server.js:332-343 | The inner loop over `connections` never lists more handles than there are sockets; which sockets it reaches is stated by `MatchingSpec`, and `MatchingDistinct` states that it reaches each at most once. |
| FanOut.MatchingDistinct | server.js:332-343 | Since no two sockets share a handle, the inner loop lists each handle at most once, so no socket receives a message twice for one name. |
| FanOut.Deliveries | server.js:331-344 | The nested loops over members and sockets; which sockets they reach is stated by `DeliveriesSpec`, and `Registry.Notify` is proved against it. |
| FanOut.Send | server.js:334-341 | The `emit`s one socket receives for one name, in order. It has no contract of its own: `BroadcastAt` and `BroadcastMembers` state where each of its events lands. |
| FanOut.Broadcast | server.js:331-344 | The events of a fan-out: each socket of the list in turn receives the whole block of messages. `BroadcastLength`, `BroadcastAt` and `BroadcastMembers` state its length, the position of every event and which events it holds. |
| FanOut.MatchingSpec | server.js:329-330 | A socket is reached by the inner loop iff it is logged in under the name. |
| FanOut.DeliveriesSpec | server.js:326-342 | A socket is reached by the nested loops iff the name it is logged in under is listed. Offline names are skipped. |
| FanOut.BroadcastLength | server.js:326-342 | Each reached socket receives one block of messages. |
| FanOut.BroadcastAt | server.js:326-342 | The j-th message to the k-th socket sits at position k * (number of messages) + j, so each socket gets its messages together and in order. |
| FanOut.BroadcastMembers | server.js:326-342 | An event is emitted iff it goes to a reached socket and carries one of the messages. |
| FanOut.FanOutReaches | server.js:326-342 | An event is emitted iff it carries one of the messages and goes to a socket logged in under a listed name. |
| Away.HasMarker | server.js:373-378 | The target is away iff it is among the users named by some marker. |
| Away.Scan | server.js:320-325 | The clearing loop as written never adds markers, and changes nothing when the flag stays down. |
| Away.ScanFound | server.js:320-325 | The flag set by the clearing loop is raised iff a marker of the sender sits at or after the start position. |
| Away.WasAwayIffMarked | server.js:320-325 | `userWasAway` is true exactly when the sender had a marker. |
| Away.ScanSuffix | server.js:320-325 | The loop as written leaves a suffix of the markers, and drops none when the sender had none. |
| Away.ScanRemovesWrongMarker | server.js:324 | With another user's marker first, the loop removes that marker and keeps the sender's. |
| Away.ScanLeavesSecondMarker | server.js:321-324 | With two markers of the sender, only the first is removed. |
| Away.ScanMissesMarker | server.js:324 | On the same input, the loop as written leaves the sender marked, and the intended clearing does not. |
| Away.ClearAway | server.js:320-325 | The intended clearing keeps exactly the markers of other users. |
| Away.ClearAwayMarkers | server.js:320-325 | After the intended clearing no marker names the sender, and every other user is away iff they were before. |
| Away.ClearAwayAbsent | server.js:320-325 | A sender without markers clears nothing. |
| Scenarios.TwoUsersOneGroup | server.js:53-140 | Two connects, two registrations and one new group give the expected registry. |
| Scenarios.JoinAndApprove | server.js:153-248 | A join request from a non-member reaches the admin's socket, and after approval the roster is ["A", "B"]. |
| Scenarios.TalkReachesMembers | server.js:317-349 | A message from "B" in a group of "A" and "B" reaches socket 1 and then socket 2. |
| Scenarios.BanThenJoin | server.js:153-207 | After a ban, the banned user's join request adds exactly one event, `deny because of ban` to the user's socket, so nothing reaches the admin. |
| Scenarios.TalkingEndsAway | server.js:317-391 | A user marked away twice in a group talks there; with the corrected clearing both markers go, and a private message then reaches the user's socket. |
| Scenarios.AsWrittenKeepsOneMarker | server.js:320-325 | With the same two markers, the loop as written leaves one, so the user is still away. |
| Scenarios.TalkingAsWrittenStaysAway | server.js:369-391 | The markers are set directly to what `Scan` leaves, standing in for the as-written `send message` handler, which the registry does not model. The private message then adds exactly one event, `target is away` to the sender's socket, so nothing reaches B. |

## Left out

- The HTTP server, express, `listen` and static files (server.js:13-47): plumbing with no registry state.
- The socket.io transport: an `emit` is only recorded in `outbox`, and a callback is only the method's result. Delivery, the order in which sockets actually receive their events, and payload encoding are outside the model. The outbox records the order in which the handlers emit.
- `message of the day` and `getLogDateTime` (server.js:77-90, 569-574): they read the wall clock.
- `console.log` and the commented-out `fs` logging: output only.
- `send file` (server.js:528-532): an opaque payload rebroadcast to every socket, with no state.
- `socket.group` (server.js:135-136): written by `new group` and read only by the push on the next line; no other handler reads it, so the model appends the group directly.
- The `group with name` handler (server.js:350-361) is registered again on every `send message`. That duplication is a socket.io side effect, so the query is modelled only as `Lookup.FindGroup`.
- The unused helper `userToConnection` (server.js:232-234).
- client.js: DOM updates and dialogs, with no server state.
- Concurrency: each handler is one method, since each runs to completion.
- The crash after an unchecked `find` miss: modelled as the outcome `NotFound` with earlier changes kept. Whatever the process does next is outside the model.
- A handler's callback argument is assumed to be a function. A client that omits it would crash the handler at the first `callback(...)` call.
- ChatServer.Registry.NewUser, ChatServer.Registry.SendMessage, ChatServer.Registry.Disconnect: require the calling socket to be connected, which the transport guarantees for a handler of that socket.
- JavaScript's loose `==` against `undefined`: socket names are `Option<string>`, and the comparisons the source makes between strings are modelled as string equality.

## Findings

| source | as written | input that shows it | evidently intended | confidence | as-written member | corrected member |
|---|---|---|---|---|---|---|
| server.js:324 | `awayUsrs.splice(awayUsrs[i], 1)` passes the marker object as the start index. It converts to 0, so the first marker is removed, whoever it belongs to. | Markers [bob, ann], and ann sends a group message: bob's marker is removed and ann's stays. | Remove every marker of the sender and keep the others. | high, not executed | Away.ScanRemovesWrongMarker | Away.ClearAway |
| server.js:65 | `users.splice(users.indexOf(socket.username), 1)` with a name that is unset or not listed gives `indexOf` = -1, and `splice(-1, 1)` removes the last user. | A socket that never chose a name disconnects while users is ["ann"]: users becomes []. | Remove the name when listed, and nothing otherwise. | high, not executed | JsArrays.UnregisteredDisconnectEvictsUser | JsArrays.RemoveName |

`Away.Scan` and `JsArrays.SpliceIndexOf` are the as-written definitions.
`Away.ScanMissesMarker` and `JsArrays.SpliceIndexOfWhenMissing` state
where each parts from its corrected counterpart, and
`JsArrays.SpliceIndexOfWhenListed` shows that the removal as written is
right whenever the name is listed. The flag computed by the loop as
written is right (`Away.WasAwayIffMarked`), so the notices sent to the
group are the same either way. `ChatServer.Registry.ClearMarkers` and
`ChatServer.Registry.Disconnect` use the corrected definitions.
