/** The three checks made on the fetched group record before anything is written. */
module Validator {
  import opened ChatTypes

  datatype Verdict = Accepted(group: Group) | GroupNotFound | NotMember | NotConnected

  /** Checks, in this order: the record exists, the user is a member, the
      user is connected. Each later check is reached only when the earlier
      ones pass, so a non-member is reported as such even when they are also
      not connected. */
  function Validate(stored: Option<Group>, userId: UserId): (v: Verdict)
    ensures v.GroupNotFound? <==> stored.None?
    ensures v.NotMember? <==> stored.Some? && userId !in stored.value.members
    ensures v.NotConnected? <==>
              stored.Some? && userId in stored.value.members && userId !in stored.value.usersConnected
    ensures v.Accepted? <==>
              stored.Some? && userId in stored.value.members && userId in stored.value.usersConnected
    ensures v.Accepted? ==> stored == Some(v.group)
  {
    if stored.None? then GroupNotFound
    else if userId !in stored.value.members then NotMember
    else if userId !in stored.value.usersConnected then NotConnected
    else Accepted(stored.value)
  }
}
