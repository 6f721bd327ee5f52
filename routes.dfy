/**
 * The PATCH /api/comfort-club/:id/status handler: a guard on the request
 * body's status field around MemStorage.UpdateComfortClubApplicationStatus.
 */
module Routes {
  import opened Wrappers
  import opened Storage

  /** The handler's three outcomes: HTTP 400, HTTP 404, and success with the updated record. */
  datatype StatusReply =
    | BadRequest
    | NotFound
    | Updated(application: ComfortClubApplication)

  /**
   * `status` is the body's status field when it is a string, None when it is
   * absent or of another type; a missing, non-string or empty status is refused
   * before the store is touched.
   */
  method PatchComfortClubStatus(storage: MemStorage, id: string, status: Option<string>)
    returns (reply: StatusReply)
    requires storage.Valid()
    modifies storage
    ensures storage.Valid()
    ensures reply.BadRequest? <==> status.None? || status.value == []
    ensures reply.BadRequest? || reply.NotFound? ==>
      storage.comfortClubApplications == old(storage.comfortClubApplications)
    ensures reply.NotFound? <==>
      status.Some? && status.value != [] && id !in old(storage.comfortClubApplications)
    ensures reply.Updated? ==>
      && reply.application == old(storage.comfortClubApplications)[id].(status := status.value)
      && storage.comfortClubApplications == old(storage.comfortClubApplications)[id := reply.application]
    ensures storage.users == old(storage.users) && storage.contactInquiries == old(storage.contactInquiries)
    ensures storage.userOrder == old(storage.userOrder) && storage.inquiryOrder == old(storage.inquiryOrder)
    ensures storage.applicationOrder == old(storage.applicationOrder)
  {
    if status.None? || status.value == [] {
      return BadRequest;
    }
    var updated := storage.UpdateComfortClubApplicationStatus(id, status.value);
    if updated.None? {
      return NotFound;
    }
    return Updated(updated.value);
  }
}
