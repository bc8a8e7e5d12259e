/**
 * The rows of the bot's database that the browse flow reads and writes: profiles
 * with their audience rows, age preferences, likes and reports. The database
 * itself is replaced by in-memory collections held in Bot.Store.
 */
module Records {
  import opened Common

  /**
   * A profile row with its audience rows. `identity` and `audiences` are the raw
   * strings stored in the database; readers validate them against the two enums.
   */
  datatype Profile = Profile(
    id: int,
    userId: int,
    displayName: Option<string>,
    age: Option<int>,
    identity: Option<string>,
    audiences: seq<string>,
    bioSeek: Option<string>,
    visible: bool,
    isAdult: bool,
    updatedAt: int)

  /** The age columns of a preferences row; a missing row reads as both columns null. */
  datatype AgePrefs = AgePrefs(minAge: Option<int>, maxAge: Option<int>)

  /** A report row: who reported whom, with the reason label. */
  datatype Report = Report(reporterUserId: int, reportedUserId: int, reason: string)

  /** The profile with id `id`, as a unique lookup on the primary key. */
  function FindById(ps: seq<Profile>, id: int): (r: Option<Profile>)
    ensures r.Some? ==> r.value in ps && r.value.id == id
    ensures r.None? <==> forall p :: p in ps ==> p.id != id
  {
    if ps == [] then None
    else if ps[0].id == id then Some(ps[0])
    else FindById(ps[1..], id)
  }

  /** The profile owned by user `userId`, as a unique lookup on the user column. */
  function FindByUser(ps: seq<Profile>, userId: int): (r: Option<Profile>)
    ensures r.Some? ==> r.value in ps && r.value.userId == userId
    ensures r.None? <==> forall p :: p in ps ==> p.userId != userId
  {
    if ps == [] then None
    else if ps[0].userId == userId then Some(ps[0])
    else FindByUser(ps[1..], userId)
  }

  /** No two rows share a primary key. */
  ghost predicate UniqueIds(ps: seq<Profile>)
  {
    forall i, j :: 0 <= i < j < |ps| ==> ps[i].id != ps[j].id
  }

  /** No two rows belong to the same user. */
  ghost predicate UniqueUsers(ps: seq<Profile>)
  {
    forall i, j :: 0 <= i < j < |ps| ==> ps[i].userId != ps[j].userId
  }

  /** The users that `userId` has liked. */
  function LikedBy(likes: set<(int, int)>, userId: int): (r: set<int>)
    ensures forall u :: u in r <==> (userId, u) in likes
  {
    set l | l in likes && l.0 == userId :: l.1
  }

  /** The users that `userId` has reported, whatever the reason. */
  function ReportedBy(reports: seq<Report>, userId: int): (r: set<int>)
    ensures forall u :: u in r <==> exists k :: 0 <= k < |reports| && reports[k].reporterUserId == userId && reports[k].reportedUserId == u
  {
    set k | 0 <= k < |reports| && reports[k].reporterUserId == userId :: reports[k].reportedUserId
  }
}
