/** Entities of the group-chat relay: the records kept in the groups and
    connections tables, the parsed request, the response, and what a push
    to one connection carries and reports. */
module ChatTypes {

  datatype Option<+T> = None | Some(value: T)

  type GroupId = string
  type UserId = string
  type ConnId = string
  /** An ISO-8601 UTC time string, as the clock hands it out. */
  type Timestamp = string

  /** One element of a group's `messages` log. */
  datatype Entry = Entry(userId: UserId, message: string, timestamp: Timestamp)

  /** A record of the groups table (the attributes the relay reads or writes). */
  datatype Group = Group(members: seq<UserId>, usersConnected: seq<UserId>, messages: seq<Entry>)

  /** A record of the connections table, keyed by its connection id. */
  datatype Connection = Connection(groupId: GroupId, userId: UserId)

  /** The fields of the request body. */
  datatype Request = Request(groupId: GroupId, userId: UserId, message: string)

  /** Status code and the `message` field of the JSON body. */
  datatype Response = Response(statusCode: int, message: string)

  /** What posting to one connection reports: success, an error carrying an
      HTTP status code, or an error carrying none (a network failure). */
  datatype PushResult = Delivered | Failed(statusCode: int) | FailedWithoutStatus

  /** The push payload `{action, message: {userId, message, timestamp}, groupId}`. */
  datatype Payload = Payload(action: string, message: Entry, groupId: GroupId)

  /** One attempted post of `data` to connection `connectionId`. */
  datatype Push = Push(connectionId: ConnId, data: Payload)

  /** The status the push channel uses for a connection that no longer exists. */
  const STATUS_GONE := 410

  predicate IsGone(r: PushResult)
  {
    r.Failed? && r.statusCode == STATUS_GONE
  }
}
