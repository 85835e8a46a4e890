# myChat realtime core, modelled in Dafny

The server of myChat is an Express app with a websocket server on top. This
project models the realtime part of `api/index.js`: how a socket binds an
identity from its `token` cookie, the heartbeat that pings each socket and
terminates it when a pong does not come, the presence list sent to every
client, and the relay of chat messages, which stores each message once and
then sends it to the clients of the recipient. It also models the query of
the history route `GET /messages/:userId`.

Modules:

- `Wrappers`: `Option`, which stands for JavaScript's `undefined`.
- `Json`: the values a field of a parsed message can hold, and truthiness.
- `Users`: `UserId` and the `{userId, username}` identity a token carries.
- `Cookie`: `split(';')`, `find(startsWith('token='))` and `split('=')[1]`
  on the raw `Cookie` header, as functions, with lemmas about them.
- `Heartbeat`: the heartbeat as a pure state machine over the events
  "interval fires", "pong received" and "death timer t fires", with lemmas
  about any run of events.
- `History`: the stored message record, the `$in` filter of the history
  route and its `createdAt` ordering, written as a stable insertion sort.
- `Realtime`: two classes. `Connection` holds the fields the handler sets on
  each socket. Its methods `Tick`, `Pong` and `Expire` are each tied to a
  `Heartbeat` step through `Beat()`. `Server` holds `wss.clients`, the
  message store and `trace`, which lists every store write and socket send
  in order. Its methods are `SendEach`, `NotifyAboutOnlinePeople`, `Connect`,
  `DeathFire`, `Relay` and `Close`.

Behaviour is modelled as the code has it, quirks included:

- The relay guard `if (recipient, text)` is a comma expression, so only
  the truthiness of `text` decides. A message with text but without a
  recipient is still stored. A message from an unbound socket is stored with
  no sender.
- Delivery compares `c.userId === recipient`. Since `undefined ===
  undefined`, a message without a recipient goes to every unbound client.
- The presence list has one entry for every client, bound or not, in client
  order. It is not limited to bound connections.
- The `token=` match is on untrimmed pieces. A token cookie that follows
  another cookie starts with a space and is never found.
- A death timer only sets `isAlive` to false and terminates the socket. The
  interval is never cleared and keeps pinging. The socket stays in the
  client list until the ws library removes it on `close`. So the presence
  broadcast the death timer sends still lists it.
- No handler is registered for `close`, so the close itself broadcasts
  nothing. The closed socket's interval keeps running, though: its pings
  reach no one, no pong comes back, and each of its death timers then
  broadcasts presence to the remaining clients, without it. `DeathFire`
  does not require the socket to be among the clients, so the model allows
  this.
- `isAlive` is written but never read.

Inputs the source takes from its environment become parameters:

- token verification (`jwt.verify`) is a function `string -> Option<Identity>`;
- the store's timestamp is the `now` argument of `Relay`;
- the caller's own id in the history route (`ourUserId`) is an argument of
  `History.Query`.

## Model

| member | source | states |
|---|---|---|
| `Cookie.Split` | api/index.js:174 | `split` on a one-character separator gives at least one piece, and no piece contains the separator |
| `Cookie.JoinSplit` | api/index.js:174 | joining the pieces with the separator gives back the header exactly, so splitting loses and reorders nothing |
| `Cookie.SplitJoin` | api/index.js:174 | splitting a join of separator-free pieces gives those pieces back, so `Split` and `Join` are inverse |
| `Cookie.FirstPiece` | api/index.js:176 | the first piece of a split is the longest prefix without the separator |
| `Cookie.FindFirst` | api/index.js:174 | `find` with `startsWith`: returns the least index whose piece starts with the prefix, or nothing when no piece does |
| `Cookie.TokenValue` | api/index.js:176 | `split('=')[1]` of a piece starting with `token=` is what follows `token=` up to the next `=` or the end |
| `Cookie.ExtractTokenSound` | api/index.js:172-177 | a token comes only from a non-empty header, from the first piece that starts exactly with `token=`, is the value after that `=`, is non-empty and holds no `=` and no `;` |
| `Cookie.ExtractTokenComplete` | api/index.js:172-177 | a non-empty value after `token=` in the first such piece is the token extracted (the converse of soundness) |
| `Cookie.ExtractToken` | api/index.js:172-177 | definition, no contract of its own; its properties are `Cookie.ExtractTokenSound`, `Cookie.ExtractTokenComplete`, `Cookie.ExtractTokenExact` and `Cookie.ExtractTokenNone` |
| `Cookie.ExtractTokenExact` | api/index.js:172-177 | soundness and completeness together for any header: an extracted token is the non-empty value of the first `token=` piece, and any such value is the one extracted |
| `Cookie.ExtractTokenNone` | api/index.js:172-177 | no token when the header is absent, when no piece starts with `token=`, or when the value is empty |
| `Cookie.ValueAfterNameUnique` | api/index.js:176 | a piece admits at most one value after `token=` |
| `Cookie.SpacedTokenIgnored` | api/index.js:174 | in `a; token=v` the second cookie starts with a space and is never matched, so no token is extracted |
| `Cookie.FirstTokenWins` | api/index.js:174-176 | with `token=v;...` first, `v` is extracted whatever follows, including a second `token=` cookie |
| `Realtime.Authenticate` | api/index.js:172-183 | no identity without a header; an identity is bound only from a header whose first `token=` piece carries a non-empty value, and it is what verification returns for that value; conversely any such value gives exactly verification's answer |
| `Realtime.Connection.constructor` | api/index.js:154-157 | a new socket starts alive with its interval armed, no death timer and no identity |
| `Realtime.Connection.Bind` | api/index.js:178-183 | sets `userId` and `username` from the verified identity, leaves them untouched when there is none, and leaves the heartbeat alone |
| `Realtime.Connection.Tick` | api/index.js:157-165 | the interval firing is `Heartbeat.Tick` on the socket's fields; the identity is untouched |
| `Realtime.Connection.Pong` | api/index.js:167-169 | a pong is `Heartbeat.Pong` on the socket's fields; the identity is untouched |
| `Realtime.Connection.Expire` | api/index.js:159-161 | a firing death timer is `Heartbeat.Expire` on the socket's fields; the identity is untouched |
| `Heartbeat.Tick` | api/index.js:157-165 | definition, no contract of its own; its properties are `Heartbeat.TickArms`, `Heartbeat.PongAfterTick` and `Heartbeat.MissedPongKills` |
| `Heartbeat.Pong` | api/index.js:167-169 | definition, no contract of its own; its properties are `Heartbeat.PongAfterTick` and `Heartbeat.NoDeathAfterPong` |
| `Heartbeat.Expire` | api/index.js:159-161 | definition, no contract of its own; its properties are `Heartbeat.MissedPongKills` and `Heartbeat.DeathIsFinal` |
| `Heartbeat.Step` | api/index.js:157-169 | definition, no contract of its own: one timer or pong event, a death timer that is no longer pending changing nothing; its properties are `Heartbeat.StepValid` and the run lemmas |
| `Heartbeat.Run` | api/index.js:157-169 | definition, no contract of its own; its properties are `Heartbeat.RunValid`, `Heartbeat.OnlyDeathClearsAlive`, `Heartbeat.DeathIsFinal`, `Heartbeat.IntervalNeverCleared` and `Heartbeat.ResponsiveSurvives` |
| `Heartbeat.StepValid` | api/index.js:157-169 | every single event keeps timer handles fresh |
| `Heartbeat.StartValid` | api/index.js:154-157 | the start state is alive, not terminated, with no death timer pending |
| `Heartbeat.RunValid` | api/index.js:157-169 | in every run of events every pending or stored timer handle was handed out earlier |
| `Heartbeat.TickArms` | api/index.js:157-165 | a tick pings once and arms a fresh death timer, overwriting `deathTimer`; `isAlive`, the interval and termination are unchanged |
| `Heartbeat.PongAfterTick` | api/index.js:167-169 | a pong after a tick clears exactly the timer that tick armed and touches neither `isAlive` nor the interval |
| `Heartbeat.NoDeathAfterPong` | api/index.js:157-169 | with no death timer pending before the tick, nothing can fire after the tick and the pong |
| `Heartbeat.MissedPongKills` | api/index.js:157-165 | a tick whose death timer fires before any pong leaves the socket not alive and terminated, with no grace count |
| `Heartbeat.OnlyDeathClearsAlive` | api/index.js:154-169 | a run with no death timeout leaves `isAlive` and termination as they were, so nothing else sets `isAlive` to false |
| `Heartbeat.DeathIsFinal` | api/index.js:154-169 | once dead and terminated, a socket stays so in every later run |
| `Heartbeat.IntervalNeverCleared` | api/index.js:157-165 | no event clears the interval, and every interval event calls `ping()`, also after termination (when the ws library sends nothing) |
| `Heartbeat.ResponsiveSurvives` | api/index.js:157-169 | a peer that answers every ping with a pong is never terminated, stays as alive as it was, and leaves no death timer pending |
| `Realtime.Presence` | api/index.js:143-146 | one entry per client in client order, entry i being client i's `userId` and `username`, unbound clients included |
| `Realtime.SendAll` | api/index.js:141-142 | a fan-out sends the same payload once to each target, in order |
| `Realtime.BroadcastReachesAll` | api/index.js:139-148 | for distinct clients, as `wss.clients` holds them, every client receives the presence list exactly once, in client order; all receive the same list, as long as the client list |
| `Realtime.Server.SendEach` | api/index.js:201-206 | the `forEach` send loop appends exactly one send per target, in target order, to the trace |
| `Realtime.Server.NotifyAboutOnlinePeople` | api/index.js:139-149 | the trace grows by exactly the presence fan-out to all current clients; clients and store are unchanged |
| `Realtime.Server.Connect` | api/index.js:152-214 | the new socket joins the clients, starts alive, is bound from its cookie or stays unbound, and the presence list then goes to every client, the new one included |
| `Realtime.Server.DeathFire` | api/index.js:159-164 | the death timer expires the socket, keeps it in the clients and its identity, and broadcasts presence to every client |
| `Realtime.Server.Close` | api/index.js:152-217 | a closing socket leaves the clients and, since no `close` handler exists, nothing is stored or sent |
| `Realtime.Addressed` | api/index.js:200 | definition, no contract of its own: `c.userId === recipient`, with `undefined === undefined`; its properties are `Realtime.RecipientsExact` and `Realtime.RecipientlessReachesUnbound` |
| `Realtime.Recipients` | api/index.js:200 | definition, no contract of its own: the `filter` over the clients; its properties are `Realtime.RecipientsExact` and `Realtime.RecipientsAppend` |
| `Realtime.RecipientsExact` | api/index.js:200 | the clients selected are exactly the clients whose `userId` strictly equals the recipient, and no more than there are clients |
| `Realtime.RecipientsAppend` | api/index.js:200 | the filter distributes over concatenation, so the recipients keep client order |
| `Realtime.DeliveryExact` | api/index.js:200-206 | a chat payload is sent to exactly the addressed clients and to no other client, each getting the same payload |
| `Realtime.RecipientlessReachesUnbound` | api/index.js:200 | a message without a recipient is sent to every unbound client and to no bound one |
| `Realtime.RelayGuard` | api/index.js:193 | definition, no contract of its own: the comma expression yields the truthiness of `text`; `Realtime.Server.Relay` accepts exactly when it holds |
| `Realtime.Without` | api/index.js:152-217 | the ws library's removal of a closed socket from `wss.clients` (no source line of its own): the socket is gone, every other client stays, and nothing new comes in |
| `Realtime.WithoutDistinct` | api/index.js:152-217 | removing a socket keeps the clients distinct |
| `Realtime.Server.Relay` | api/index.js:190-211 | the message is accepted exactly when `text` is truthy, whatever the recipient. Then one record with `sender = c.userId` is stored and traced before any send, and the record with its id goes to `Recipients(clients, recipient)`. Otherwise nothing is stored or sent |
| `History.Conversation` | api/index.js:61-63 | the matching messages are exactly the stored ones whose sender and recipient both lie in `{userId, ourUserId}`, each as often as it is stored |
| `History.Between` | api/index.js:62-63 | definition, no contract of its own: both `$in` conditions; its properties are `History.Conversation` and `History.QueryExact` |
| `History.ConversationAppend` | api/index.js:61-63 | the filter distributes over concatenation, so the matching messages keep store order |
| `History.ConversationSymmetric` | api/index.js:62-63 | swapping the two ids gives the same matching messages in the same order |
| `History.SortByCreatedAt` | api/index.js:64 | definition, no contract of its own: a stable insertion sort on `createdAt`; its properties are `History.SortPermutes`, `History.SortSorted` and `History.SortStable` |
| `History.Query` | api/index.js:61-64 | definition, no contract of its own: the sorted conversation; its properties are `History.QueryExact`, `History.QueryOrdered` and `History.QuerySymmetric` |
| `History.SortPermutes` | api/index.js:64 | the `createdAt` sort is a permutation of its input |
| `History.SortSorted` | api/index.js:64 | the sort's output has non-decreasing `createdAt` |
| `History.SortStable` | api/index.js:64 | the model's sort is stable: messages with equal `createdAt` keep their store order (a tie order the store itself does not promise) |
| `History.QueryExact` | api/index.js:61-64 | the history holds exactly the stored messages between the two ids, self-messages included, with their multiplicity |
| `History.QueryOrdered` | api/index.js:61-64 | the history is ordered by non-decreasing `createdAt`; in the model, ties come in `Conversation` order, which is store order by `History.ConversationAppend` |
| `History.QuerySymmetric` | api/index.js:62-63 | the query gives the same result whichever of the two ids is the caller's |

## Left out

- The Express routes and middleware and the `/login`, `/register`, `/profile`, `/people` and `/test` handlers (api/index.js:17-129) are HTTP and bcrypt plumbing.
- `getUserDataFromRequest` (api/index.js:29-42) is left out. The history route's own id is a parameter, and the "no token" rejection is not followed.
- `jwt.sign` and `jwt.verify` are library code. Verification is a function parameter. A token that fails to verify throws inside the callback (api/index.js:179). The model does not follow that throw; it leaves the socket unbound.
- Mongoose is left out. The store is an append-only sequence. A record's id is its position and its `createdAt` is the `now` argument. The schema in `api/models/message.js` is not part of this model, so its casting and validation are not either. A failing `Message.create` is not modelled.
- Realtime.Server.Relay: runs create and delivery in one atomic step. The `await` between them (api/index.js:194) lets other events interleave, and the clients are read after it; the model does not capture that.
- The ws library is left out. `send` is an entry in the trace. `ping` is a counter and `terminate` a flag. Removal from `wss.clients` on `close` is `Close`. `JSON.parse`/`JSON.stringify` and a message body that is not a JSON object are left out, and so is the way `JSON.stringify` drops undefined fields.
- History.SortByCreatedAt: MongoDB leaves the order of documents with equal `createdAt` unspecified; the model fixes one tie order, store order, so `History.SortStable` and the tie clause of `History.QueryOrdered` state the model's choice, not a promise of the source.
- Json.Value: numbers are integers only, so floating point and `NaN` truthiness are left out.
- Real timers and their durations (5000 ms and 1000 ms) are left out; the model keeps only the order of events. With real durations a death timer fires or is cleared before the next tick. The model also allows two ticks with nothing in between, and then, as in the source, the earlier timer can no longer be cleared.
- Timer handles are counted per connection, not by Node's global timer ids.
- `app.listen` and the wiring of the websocket server (api/index.js:131-137) are left out.
- The commented-out credentials at the end of the file are left out.
