/** Rows of the relational store behind backend/server.py (the shapes of
    backend/models.py). Dates are day numbers; timestamps are left out. */
module Records {
  import opened Common

  datatype Profile = Profile(
    id: UserId,
    email: string,
    fullName: Option<string>,
    inviteCode: Option<string>,
    partnerId: Option<UserId>,
    allowReadReceipts: bool)

  datatype JournalEntry = JournalEntry(
    id: string,
    userId: UserId,
    content: string,
    date: int,
    mood: Option<string>,
    audioUrl: Option<string>,
    sharedWith: seq<UserId>)

  datatype MoodEntry = MoodEntry(
    id: string,
    userId: UserId,
    mood: string,
    date: int,
    sharedWith: seq<UserId>)

  datatype SharedReflection = SharedReflection(
    date: int,
    userIds: seq<UserId>,
    reflection: string)

  datatype AccessLog = AccessLog(
    entryId: string,
    entryType: string,
    accessedBy: UserId,
    entryOwner: UserId)

  /** `profile.get("partner_id")` used as a condition: a missing or empty
      partner id means "no partner". */
  function PartnerOf(p: Profile): Option<UserId>
  {
    if p.partnerId.Some? && p.partnerId.value != "" then p.partnerId else None
  }
}
