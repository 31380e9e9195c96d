/** The request handler: validate, append to the log, fan out, respond. */
module Relay {
  import opened ChatTypes
  import opened Validator
  import opened Store
  import opened Dispatcher

  const GROUP_NOT_FOUND := "Group not found."
  const NOT_A_MEMBER := "User is not a member of the group."
  const NOT_CONNECTED := "User is not connected to the chat."
  const MESSAGE_SENT := "Message sent."

  /** Handles one message `req` arriving on connection `connectionId`.
      `now` is the time stored with the entry; `clock` and `push` stand for
      the time read while each payload is built and for what the push
      channel reports for each post. Returns the response and the posts
      made, in the order they were made. */
  method SendChatMessage(store: ChatStore, req: Request, connectionId: ConnId, now: Timestamp,
                         clock: ConnId -> Timestamp, push: ConnId -> PushResult)
    returns (resp: Response, pushes: seq<Push>)
    modifies store
    // Rejections: nothing is written, deleted or posted.
    ensures req.groupId !in old(store.groups) ==>
              && resp == Response(404, GROUP_NOT_FOUND) && pushes == []
              && store.groups == old(store.groups) && store.connections == old(store.connections)
    ensures req.groupId in old(store.groups) && req.userId !in old(store.groups)[req.groupId].members ==>
              && resp == Response(403, NOT_A_MEMBER) && pushes == []
              && store.groups == old(store.groups) && store.connections == old(store.connections)
    ensures req.groupId in old(store.groups) && req.userId in old(store.groups)[req.groupId].members
            && req.userId !in old(store.groups)[req.groupId].usersConnected ==>
              && resp == Response(403, NOT_CONNECTED) && pushes == []
              && store.groups == old(store.groups) && store.connections == old(store.connections)
    // Acceptance: one entry appended, the recipients posted to, the gone ones deleted.
    ensures req.groupId in old(store.groups) && req.userId in old(store.groups)[req.groupId].members
            && req.userId in old(store.groups)[req.groupId].usersConnected ==>
              var group := old(store.groups)[req.groupId];
              var items := ScanItems(old(store.connections), req.groupId, group.usersConnected);
              && resp == Response(200, MESSAGE_SENT)
              && store.groups == old(store.groups)[req.groupId := WithEntry(group, Entry(req.userId, req.message, now))]
              && store.connections == old(store.connections) - Stale(items, connectionId, push)
              && PushesExactly(pushes, items - {connectionId}, req, clock)
    ensures resp.statusCode == 200 || pushes == []
    ensures old(store.Consistent()) ==> store.Consistent()
  {
    var verdict := Validate(store.Get(req.groupId), req.userId);
    if verdict.GroupNotFound? {
      return Response(404, GROUP_NOT_FOUND), [];
    }
    if verdict.NotMember? {
      return Response(403, NOT_A_MEMBER), [];
    }
    if verdict.NotConnected? {
      return Response(403, NOT_CONNECTED), [];
    }
    var group := verdict.group;
    store.AppendMessage(req.groupId, Entry(req.userId, req.message, now));
    var items := ScanItems(store.connections, req.groupId, group.usersConnected);
    pushes := Broadcast(store, req, items, connectionId, clock, push);
    resp := Response(200, MESSAGE_SENT);
  }
}
