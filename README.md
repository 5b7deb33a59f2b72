# Blind-auction lobby coordinator

A model of the server of a fantasy-football blind auction (`server/server.js`).
The server keeps one in-memory lobby: an ordered roster of `{id, name}`
entries, an admin id, a default round duration in seconds, and at most one
running auction (`{playerName, callerId, duration, endsAt, bids}`). Each
socket message is a guarded update of that record; a message that fails a
guard is dropped silently.

- `roster.dfy` (module `Roster`): roster entries, the `filter` that drops a
  socket's entries, `find`, the join-name placeholder and `sanitizePlayer`.
- `ledger.dfy` (module `Ledger`): the bids object as an insertion-ordered list
  of `(socket id, amount)` entries. Assigning an existing key keeps its
  position, as a JavaScript object does for string keys. The dictionary view
  `AsMap` is the reference the list is proved against.
- `settlement.dfy` (module `Settlement`): offers built from the ledger with the
  bidders' roster names, the stable descending sort (`Array.prototype.sort` is
  stable), and the winner.
- `coordinator.dfy` (module `Coordinator`): class `Lobby`, whose fields are the
  lobby record plus an `events` log of every `io.emit` / `socket.emit`. It has
  one method per handler and `Settle`, the body of the settlement timer.
  `Valid()` is the invariant every handler keeps:
  - each socket is on the roster at most once;
  - the admin is on the roster, and there is an admin exactly when the roster is not empty;
  - the default duration is at least 1;
  - the running auction's ledger holds each bidder once.
- `scenarios.dfy` (module `Scenarios`): handler runs on a fresh lobby:
  - a sealed-bid round whose overwritten bid and ranking are checked;
  - an admin hand-off in the middle of a round;
  - a `settings:set` from a non-admin.

Admin policy: the implicit first-joiner policy. A join makes the sender admin
only when there is no admin. When the admin leaves or disconnects, the role
passes to the first remaining roster entry, or to nobody if the roster is
empty. There is no claim-admin message.

Time is a parameter. `Call` takes `now` (the first `Date.now()`, which fixes
`endsAt`) and `timerNow` (the second read, which fixes the delay passed to
`setTimeout`). It returns the delay after which Node runs the settlement
timer. Node replaces a delay above 2147483647 ms by 1 ms, and the model applies
that rule (`EffectiveDelay`). So an auction called with a duration above
2147483 s is settled 1 ms after the call, although `auction:start` announces
an `endsAt` weeks ahead (`HugeDurationSettlesEarly`). The timer's firing is
the explicit `Settle()`; it does nothing when no auction is running.

Payload fields: a `name` or `playerName` field is `None` when it is missing or
falsy, and `Some(String(value))` otherwise. That string can be empty, as for
`name: []`; it is then recorded as it is. A roster entry can therefore have an
empty name, and `sanitizePlayer` shows it as `sconosciuto` in `lobby:update`.

Where the specification of the system and the code differ, the model follows the code:
- A bid is not checked against the roster. Any socket that is not the admin can bid, including one that never joined.
- The admin can hold a ledger entry. A bidder who becomes admin by hand-off keeps its bid, and that bid can win. Only new bids from the current admin are refused. `Scenarios.AdminHandOffMidRound` shows this.
- Ties are broken by ledger position. That is the time of a bidder's first accepted bid, because a later overwrite does not move the entry. It is not the time of the last bid.
- Roster order matters: the admin role passes to `players[0]`.
- The code has no claim-admin message, no clock-sync probe and no periodic deadline re-broadcast.

## Model

| member | source | states |
|---|---|---|
| `Roster.Without` | server/server.js:36 | the filtered roster holds exactly the entries whose id differs from the sender's; it is never longer, and unique ids stay unique |
| `Roster.WithoutAbsent` | server/server.js:36 | filtering out an id that is not on the roster leaves the roster unchanged |
| `Roster.WithoutRemovesAt` | server/server.js:46 | with unique ids, removing the id of entry k removes exactly entry k and keeps the order of the rest |
| `Roster.JoinedOnce` | server/server.js:36-37 | after a (re)join the roster has unique ids and exactly one entry for the sender, in last position with the new name, and the id set gains the sender |
| `Roster.Find` | server/server.js:83 | `find` returns an entry exactly when the id is on the roster, and the entry it returns has that id |
| `Roster.FindUnique` | server/server.js:83 | with unique ids, `find` returns the one entry holding the id |
| `Roster.Placeholder` | server/server.js:33 | the placeholder is `Giocatore-` followed by the first min(4, length) characters of the socket id |
| `Roster.JoinName` | server/server.js:33 | the recorded name is the string of a truthy payload name, even when that string is empty; with no truthy name it is the placeholder, which is never empty |
| `Roster.SanitizePlayer` | server/server.js:24-26 | keeps the id, always yields a non-empty name, and is the identity exactly on entries that have a name |
| `Roster.Sanitized` | server/server.js:41 | the broadcast roster has one entry per roster entry, namely its `sanitizePlayer` image, so ids are kept and every name is non-empty; it equals the roster exactly when every entry has a name |
| `Ledger.AsMap` | server/server.js:20 | the dictionary view of the ledger has exactly the ledger's bidders as keys |
| `Ledger.Put` | server/server.js:105 | after `bids[id] = amount` the bidders are the old ones plus `id`; the length grows by one exactly for a first bid |
| `Ledger.PutAsMap` | server/server.js:105 | seen as a dictionary, a bid is exactly the update `bids[id] := amount`; every other bidder's amount is unchanged |
| `Ledger.PutAppendsNew` | server/server.js:105 | a first bid is appended at the end and the other entries are unchanged |
| `Ledger.PutReplacesInPlace` | server/server.js:105 | a repeated bid replaces the bidder's amount at its original position and changes nothing else |
| `Ledger.PutTwice` | server/server.js:105 | two bids from the same socket leave only the last amount (last write wins) |
| `Ledger.PutKeepsUnique` | server/server.js:105 | bidding never creates a second entry for a bidder |
| `Settlement.NameOf` | server/server.js:83-84 | a bidder no longer on the roster is named `sconosciuto`; otherwise the name is that of the bidder's roster entry |
| `Settlement.ToOffers` | server/server.js:82-84 | one offer per ledger entry, in ledger order, with the entry's id and amount and the bidder's resolved name |
| `Settlement.Insert` | server/server.js:85 | inserting into a ranking adds exactly the new offer and removes none |
| `Settlement.InsertOrdered` | server/server.js:85 | inserting into a non-increasing ranking keeps it non-increasing |
| `Settlement.InsertStable` | server/server.js:85 | insertion puts the new offer before the offers it ties with and keeps their order |
| `Settlement.SortDesc` | server/server.js:85 | the offers are a permutation of the input, non-increasing in amount, and for every amount in their original order (stability) |
| `Settlement.Rank` | server/server.js:82-85 | the ranked offers are a permutation of the ledger's offers, highest amount first, and entries of equal amount stay in ledger order |
| `Settlement.Winner` | server/server.js:87 | there is a winner exactly when there are offers; it is one of them, and of a ranked list it has the highest amount |
| `Settlement.HeadIsFirstHighest` | server/server.js:85-87 | the head of the ranking is the earliest offer among those with the highest amount |
| `Settlement.WinnerIsEarliestHighestBid` | server/server.js:82-87 | with no bids there is no winner; otherwise the winner is the ledger entry with the highest amount, the earliest one on a tie, under the bidder's resolved name |
| `Coordinator.AtLeastOne` | server/server.js:57 | `Math.max(1, v)` is at least 1 and at least v, and is one of the two |
| `Coordinator.SetDuration` | server/server.js:57 | a non-numeric value keeps the current duration; a numeric one is clamped to at least 1 |
| `Coordinator.CallDuration` | server/server.js:68 | an auction's duration is the clamped override when numeric, else the default setting; it is at least 1 whenever the setting is |
| `Coordinator.ItemLabel` | server/server.js:67 | the item label is the string of a truthy payload name, even when that string is empty; otherwise it is `Giocatore sconosciuto` |
| `Coordinator.TimerDelay` | server/server.js:77-96 | the delay passed to `setTimeout` is at least the 250 ms grace and reaches the deadline plus the grace |
| `Coordinator.EffectiveDelay` | server/server.js:96 | Node waits the requested delay when it lies between 1 and 2147483647 ms, and 1 ms otherwise |
| `Coordinator.SettlesAfterDeadline` | server/server.js:77-96 | while the requested delay fits `setTimeout`, settlement fires no earlier than the deadline plus the grace |
| `Coordinator.HugeDurationSettlesEarly` | server/server.js:68-96 | a duration above 2147483 s, scheduled at the call, settles after 1 ms, before the announced `endsAt` |
| `Coordinator.Outcome` | server/server.js:87-93 | the `auction:end` message carries the item and the ranked offers; its winner is absent exactly when nobody bid, and otherwise is the earliest highest ledger entry under the bidder's resolved name |
| `Coordinator.AdminAfterJoin` | server/server.js:39 | when nobody holds the role the sender becomes admin; an existing admin is never replaced |
| `Coordinator.AdminAfterDeparture` | server/server.js:47-49 | a departing admin hands the role to the first remaining entry, or to nobody if none remains; otherwise the admin is unchanged |
| `Coordinator.JoinKeepsAdminOnRoster` | server/server.js:36-39 | after a join the admin is on the roster and the lobby has an admin exactly when it has players |
| `Coordinator.DepartureKeepsAdminOnRoster` | server/server.js:46-49 | after a leave or disconnect the admin is on the roster and the lobby has an admin exactly when it has players |
| `Coordinator.Lobby.constructor` | server/server.js:17-22 | the lobby starts with no players, no admin, a 10 s default duration, no auction and no messages sent |
| `Coordinator.Lobby.Connect` | server/server.js:28-30 | a new connection privately receives the settings and the sanitized roster; the lobby is unchanged |
| `Coordinator.Lobby.Join` | server/server.js:32-43 | the roster becomes the old roster without the sender plus the sender's fresh entry at the end; the admin follows `AdminAfterJoin`; the settings and the auction are unchanged; the sanitized roster and the settings are broadcast; `Valid` is kept |
| `Coordinator.Lobby.Depart` | server/server.js:46-51 | the shared body of leave and disconnect: the sender's entry is removed, the admin follows `AdminAfterDeparture`, and the auction and its bids are untouched |
| `Coordinator.Lobby.Leave` | server/server.js:45-52 | removes exactly the sender's entry and hands off the admin role as `AdminAfterDeparture` says; the auction and the settings are untouched; the sanitized roster and the settings are broadcast |
| `Coordinator.Lobby.Disconnect` | server/server.js:111-118 | the same update and broadcasts as leave |
| `Coordinator.Lobby.SetSettings` | server/server.js:55-60 | from a non-admin nothing changes and nothing is sent; from the admin the duration becomes `SetDuration` of the value and is broadcast |
| `Coordinator.Lobby.Call` | server/server.js:63-97 | ignored (no change, no timer) unless the sender is admin and no auction runs, so at most one auction exists; otherwise it opens an auction with an empty ledger, the sender as caller, a duration of at least 1 and `endsAt = now + duration*1000`, broadcasts the start, and returns the delay Node waits, `EffectiveDelay(TimerDelay(...))` |
| `Coordinator.Lobby.Bid` | server/server.js:99-109 | accepted exactly when an auction runs, the sender is not the admin and the amount is numeric and at least 0; then only the sender's ledger entry changes (`Put`); the amount goes privately to the sender and everyone else learns only the sender's id; a dropped bid changes nothing |
| `Coordinator.Lobby.Settle` | server/server.js:78-96 | nothing happens when no auction runs; otherwise the ranked offers and the winner are broadcast and the auction is cleared, leaving roster, admin and settings unchanged |
| `Scenarios.SealedBidRanking` | server/server.js:82-85 | ledger entries X:10 and Y:15 rank as Y:15 before X:10 |

## Left out

- The Express app, CORS, the root route and `server.listen` (server/server.js:4-14, 121-122): process and HTTP plumbing.
- socket.io delivery: broadcasts and private messages are appended to `events`; they are never delivered, and disconnections by the transport are not modelled.
- Real time and `setTimeout`: the clock readings are parameters of `Call`, and the timer firing is the explicit `Settle()`. The model does not enforce that `Settle` runs only when the timer fires. Only the timer clears an auction, so at most one timer is ever pending.
- JavaScript number coercion (`Number(...)`, `Number.isFinite`, `NaN`) and floating-point values: a numeric payload is an `Option<int>`, with `None` standing for any value that is not a finite number. Fractional durations and amounts are not modelled, and amounts are non-negative integers (`Number(amount) || 0` is then the amount itself).
- Socket ids are modelled as non-empty strings, as socket.io issues them; with that, `!lobby.adminId` reads as "no admin". An empty id would be falsy in JavaScript.
- Property order of the bids object: JavaScript lists integer-like keys first, in numeric order. socket.io ids are never integer-like, so the ledger keeps plain insertion order.
- `slice(0, 4)` counts UTF-16 code units; the model counts characters. They agree on socket.io ids, which are ASCII.
- The handlers' `String(...)` conversions of payload names happen before the model: a name payload is an `Option<string>` that holds the converted string.
- A `null` payload is not modelled. The `= {}` default replaces only `undefined`, so with `null` the handlers for `lobby:join`, `settings:set` (from the admin), `auction:call` (from the admin, with no auction running) and `auction:bid` (past its two guards) throw a TypeError on reading the payload, before they change the lobby. Nothing in the file catches that error, and what the runtime then does with it is outside the model.
- client/src/App.jsx is not part of this model: it is the React user interface.
