/** The two tables the relay works on, held as mutable maps. */
module Store {
  import opened ChatTypes

  /** The group record with `entry` appended to the end of its log. */
  function WithEntry(g: Group, entry: Entry): (r: Group)
    ensures r.members == g.members && r.usersConnected == g.usersConnected
    ensures |r.messages| == |g.messages| + 1
    ensures r.messages[..|g.messages|] == g.messages
    ensures r.messages[|g.messages|] == entry
  {
    g.(messages := g.messages + [entry])
  }

  class ChatStore {
    var groups: map<GroupId, Group>
    var connections: map<ConnId, Connection>

    constructor (groups0: map<GroupId, Group>, connections0: map<ConnId, Connection>)
      ensures groups == groups0 && connections == connections0
    {
      groups := groups0;
      connections := connections0;
    }

    /** The design's consistency rules: a group's connected users are among
        its members, and every connection names a group that exists. */
    ghost predicate Consistent()
      reads this
    {
      && (forall gid :: gid in groups ==>
            forall u :: u in groups[gid].usersConnected ==> u in groups[gid].members)
      && (forall c :: c in connections ==> connections[c].groupId in groups)
    }

    /** A get on the groups table by key. */
    function Get(groupId: GroupId): Option<Group>
      reads this
    {
      if groupId in groups then Some(groups[groupId]) else None
    }

    /** The update `SET messages = list_append(messages, :msg)` on one group. */
    method AppendMessage(groupId: GroupId, entry: Entry)
      requires groupId in groups
      modifies this`groups
      ensures groups == old(groups)[groupId := WithEntry(old(groups)[groupId], entry)]
    {
      groups := groups[groupId := WithEntry(groups[groupId], entry)];
    }

    /** A delete on the connections table by key; deleting an absent key is a no-op. */
    method DeleteConnection(connectionId: ConnId)
      modifies this`connections
      ensures connections == old(connections) - {connectionId}
    {
      connections := connections - {connectionId};
    }
  }
}
