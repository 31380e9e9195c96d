# Group-chat message relay: a Dafny model of `sendChatMessage`

The system is a WebSocket Lambda handler for group chat. A client sends
`{groupId, userId, message}` on a connection. The handler does four things in order:

1. It fetches the group record.
2. It rejects the request if the group is absent (404), if the user is not a member (403), or if the user is not connected to the chat (403).
3. It appends `{userId, message, timestamp}` to the group's `messages` log.
4. It scans the connections table for connections of this group whose user is in `usersConnected`. It posts a `messageReceived` payload to each of them except the sender's own connection. A connection whose post fails with status 410 ("gone") is deleted. Other post failures are ignored, and the handler answers 200 "Message sent."

The two tables are modelled as a class `Store.ChatStore` with two map fields: `groups` (group id to record) and `connections` (connection id to `{groupId, userId}`). The store's update and delete calls are methods on it. Things outside the handler become parameters:

- the time stored with the entry (`now`);
- the time read while each payload is built (`clock`);
- what the push channel reports for each post (`push`).

Modules:

- `ChatTypes` (types.dfy): the records, the request, the response, push results and payloads.
- `Validator` (validator.dfy): the three checks, in the order the handler makes them.
- `Store` (store.dfy): the tables, the log append and the delete-by-key.
- `Dispatcher` (dispatcher.dfy): the scan filter, the payload and the fan-out loop.
  - Two reference functions describe handling the scanned items one after another in a given order: `Prune` (the table afterwards) and `Pushes` (the posts made).
  - Lemmas turn these into order-free statements.
- `Relay` (relay.dfy): the handler itself.
- `Scenarios` (scenarios.dfy): two client methods that derive concrete outcomes from the handler's contract alone. One is the sender excluded and a gone connection pruned; the other is the three rejections.

The fan-out loop picks the next item in no fixed order. This one choice stands for both the scan's unspecified item order and the interleaving of the concurrent posts under `Promise.all`. The loop finishes only after every post has been handled, which is what waiting on `Promise.all` gives.

Where the code and the design description differ, the model follows the code:

- Recipients must have a `userId` in `usersConnected` (index.js:47-50). The design description instead broadcasts to every registered connection of the group.
- The payload carries only the new message, not the whole log (index.js:63-71).
- A failure of the store calls is not turned into a 5xx response; see "Left out".

## Model

| member | source | states |
|---|---|---|
| Validator.Validate | index.js:16-27 | Absent group gives GroupNotFound. Otherwise a non-member gives NotMember, whether or not they are connected. Otherwise a member not in `usersConnected` gives NotConnected. Otherwise Accepted, carrying the fetched record. Each outcome holds if and only if its condition holds. |
| Store.WithEntry | index.js:33-39 | The new log is the old log followed by exactly the given entry, so it is one longer. Members and connected users are unchanged. |
| Store.ChatStore.AppendMessage | index.js:30-42 | Only this group's record changes, and it changes to `WithEntry` of the old record. Other groups and the connections table are untouched. |
| Store.ChatStore.DeleteConnection | index.js:75-78 | The connections table loses exactly that key. It is a no-op if the key is absent. |
| Dispatcher.PruneRemovesExactlyGone | index.js:59-80 | Handling the items in any sequential order deletes exactly the handled items that are not the sender and reported 410. No other entry is removed or changed. |
| Dispatcher.PruneOrderIrrelevant | index.js:59-84 | Two processing orders of the same items leave the same connections table, so the completion order of the concurrent posts does not matter. |
| Dispatcher.PushesReachEachTargetOnce | index.js:59-71 | Handling distinct items in order posts once to each item other than the sender, to nothing else. Each post's payload is `messageReceived` with the request's group id, the sender's user id and text, and that post's clock reading. |
| Dispatcher.OnePostPerTarget | index.js:59-82 | Posts that reach each recipient exactly once cover the recipient set, and their number equals the number of recipients. |
| Dispatcher.Broadcast | index.js:58-84 | Afterwards the connections table is the old one minus the scanned non-sender items whose post returned 410. The posts made reach exactly the scanned items other than the sender, once each, with the right payload. |
| Relay.SendChatMessage | index.js:6-87 | On each rejection: the matching 404/403 response and message, no post, both tables unchanged. On acceptance: 200 "Message sent.", and only this group's log grows by `{userId, message, now}`. Posts go exactly to the connections with matching `groupId` and a `userId` in `usersConnected`, minus the sender's own. The table loses exactly those of them that reported 410; failures other than 410 keep their entry and do not change the response. The handler also keeps the design's consistency rules (connected users are members; a connection names an existing group). |

## Left out

- AWS SDK clients and environment variables (index.js:1-4, 54-56). These are foreign I/O. The tables are two maps and the push channel is the `push` parameter.
- JSON parsing of the body and JSON serialisation of the payload and response bodies (index.js:7, 18, 22, 26, 63, 86). The request fields arrive typed. The payload is the `Payload` datatype, and a response is a status code with its `message` text.
- Wall-clock reads (index.js:38, 68). They are the `now` and `clock` parameters. The stored timestamp and a payload's timestamp are separate readings, and the model does not claim they are equal.
- Real concurrency of `Promise.all` (index.js:59-84). It is modelled as a loop that takes the items in an arbitrary order. `PruneOrderIrrelevant` covers the claim that the order does not matter.
- Failures of the store calls: get, update, scan, and the delete inside the catch (index.js:11-14, 30-42, 45-52, 75-78). In the code each of these throws out of the handler, including a failed delete that rejects `Promise.all`. The model assumes they succeed.
- The `ReturnValues: "UPDATED_NEW"` result of the update (index.js:41). The handler never uses it.
- Exact DynamoDB evaluation of `userId IN (:users)` with a list placeholder (index.js:47-50). The model takes the filter's evident intent, membership of `userId` in `usersConnected`. This is an assumption about the store, not a property proved of it.
- Scan pagination. The handler reads only the first page of `scan` results, and the model treats the scan as returning every matching item.
- Malformed records and input: missing `members`, `usersConnected` or `messages` attributes, and bad JSON. The code has no defined behaviour for these beyond throwing.
- Other attributes of a group record. The handler neither reads nor writes them.
- Concurrent requests against the same tables. Each call runs alone against the tables it is given.
