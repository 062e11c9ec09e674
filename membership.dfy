/** The force-join gate: `checkUserMembership`. */
module Membership {

  /** The outcome of `getChatMember` on the force-join channel: a member status, or a lookup that threw. */
  datatype Lookup = Found(status: string) | LookupFailed

  /** The statuses the gate lets through, in the order the source lists them. */
  const AuthorizedStatuses: seq<string> := ["creator", "administrator", "member"]

  /**
   * Fail-closed: true only for a successful lookup whose status is creator,
   * administrator or member; any other status and any failed lookup give false.
   */
  function IsMember(lookup: Lookup): (r: bool)
    ensures r <==> lookup.Found? && (lookup.status == "creator" || lookup.status == "administrator" || lookup.status == "member")
  {
    match lookup
    case LookupFailed => false
    case Found(status) => status in AuthorizedStatuses
  }
}
