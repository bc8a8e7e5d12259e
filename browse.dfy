/**
 * The browse session as values: the queue of profile ids, the cursor, and the
 * profile on screen; how the next candidate is found (entries whose profile
 * has disappeared are skipped); the like/match rule; and the report reasons.
 */
module Browse {
  import opened Common
  import opened Records
  import opened Matching

  /** The per-user session: the queue of profile ids, the cursor into it, and the profile shown. */
  datatype BrowseState = BrowseState(queue: seq<int>, index: nat, currentProfileId: Option<int>)

  /** What showing the next candidate produced: a profile on screen, or the end of the session. */
  datatype ShowResult = Shown(profileId: int) | Exhausted

  /** The ids of the profiles that still exist. */
  function LiveIds(ps: seq<Profile>): (r: set<int>)
    ensures forall id :: id in r <==> FindById(ps, id).Some?
  {
    set p | p in ps :: p.id
  }

  /**
   * The cursor after skipping, from position `i`, every queue entry whose profile
   * no longer exists: the first live position, or the end of the queue.
   */
  function NextLive(queue: seq<int>, i: nat, live: set<int>): (k: nat)
    ensures i <= k
    ensures k < |queue| ==> queue[k] in live
    ensures forall j :: i <= j < k ==> j < |queue| && queue[j] !in live
    ensures k >= |queue| ==> k == Max(i, |queue|)
    decreases |queue| - i
  {
    if i >= |queue| then i
    else if queue[i] in live then i
    else NextLive(queue, i + 1, live)
  }

  /** The cursor moved one entry on, as the skip, like and report actions do. */
  function Advance(st: BrowseState): (r: BrowseState)
    ensures r.queue == st.queue && r.index == st.index + 1 && r.currentProfileId == st.currentProfileId
  {
    st.(index := st.index + 1)
  }

  /**
   * Showing the next candidate: the session ends when no live entry is left at
   * or after the cursor; otherwise the cursor stops at the first live entry and
   * that profile goes on screen.
   */
  function Show(st: BrowseState, live: set<int>): (r: (Option<BrowseState>, ShowResult))
    ensures r.0.None? <==> r.1 == Exhausted
    ensures r.0.None? <==> forall j :: st.index <= j < |st.queue| ==> st.queue[j] !in live
    ensures r.0.Some? ==>
              var b := r.0.value;
              && b.queue == st.queue
              && st.index <= b.index < |b.queue|
              && b.currentProfileId == Some(b.queue[b.index])
              && r.1 == Shown(b.queue[b.index])
              && b.queue[b.index] in live
              && forall j :: st.index <= j < b.index ==> st.queue[j] !in live
  {
    var k := NextLive(st.queue, st.index, live);
    if k >= |st.queue| then (None, Exhausted)
    else (Some(BrowseState(st.queue, k, Some(st.queue[k]))), Shown(st.queue[k]))
  }

  /** Every action moves the cursor strictly forward: it never decreases, and the session cannot outlast its queue. */
  lemma ActionAdvancesCursor(st: BrowseState, live: set<int>)
    ensures var r := Show(Advance(st), live);
            r.0.Some? ==> st.index < r.0.value.index < |st.queue|
  {
  }

  /** After `n` actions a surviving session's cursor is at least `n` past where it started. */
  function Actions(st: BrowseState, live: set<int>, n: nat): Option<BrowseState>
    decreases n
  {
    if n == 0 then Some(st)
    else
      match Show(Advance(st), live).0
      case None => None
      case Some(next) => Actions(next, live, n - 1)
  }

  /** A session survives at most as many actions as its queue has entries past the cursor. */
  lemma {:induction false} ActionsBounded(st: BrowseState, live: set<int>, n: nat)
    ensures Actions(st, live, n).Some? ==> Actions(st, live, n).value.index >= st.index + n
    ensures st.index + n >= |st.queue| ==> Actions(st, live, n).None? || n == 0
    decreases n
  {
    if n > 0 {
      match Show(Advance(st), live).0
      case None =>
      case Some(next) =>
        ActionAdvancesCursor(st, live);
        ActionsBounded(next, live, n - 1);
    }
  }

  /** A like is an upsert of the edge (from, to); it is a match iff the reverse edge then exists. */
  function LikeAndCheck(likes: set<(int, int)>, from: int, to: int): (r: (set<(int, int)>, bool))
    ensures (from, to) in r.0 && r.0 - {(from, to)} == likes - {(from, to)}
    ensures r.1 <==> (to, from) in r.0
  {
    var after := likes + {(from, to)};
    (after, (to, from) in after)
  }

  /** Liking the same user again changes nothing. */
  lemma LikeIdempotent(likes: set<(int, int)>, from: int, to: int)
    ensures var once := LikeAndCheck(likes, from, to);
            LikeAndCheck(once.0, from, to) == once
  {
  }

  /** Between two different users, a like is a match iff the other user had already liked back. */
  lemma MatchIffReverseLike(likes: set<(int, int)>, from: int, to: int)
    requires from != to
    ensures LikeAndCheck(likes, from, to).1 <==> (to, from) in likes
  {
  }

  /** The two orders of mutual liking: the first like is saved, the answering like is a match. */
  lemma SecondLikeMatches(likes: set<(int, int)>, a: int, b: int)
    requires a != b && (a, b) !in likes && (b, a) !in likes
    ensures !LikeAndCheck(likes, a, b).1
    ensures LikeAndCheck(LikeAndCheck(likes, a, b).0, b, a).1
  {
  }

  /** The report reasons offered: code and label. */
  const ReportReasons: seq<(string, string)> := [
    ("spam", "Spam/Scam"),
    ("harass", "Belästigung"),
    ("nsfw", "18+/NSFW unpassend"),
    ("fake", "Fake-Profil"),
    ("other", "Sonstiges")
  ]

  /** The label of the first entry of `table` with code `code`. */
  function FindLabel(table: seq<(string, string)>, code: string): (r: Option<string>)
    ensures r.Some? ==> exists k :: 0 <= k < |table| && table[k] == (code, r.value)
    ensures r.None? <==> forall k :: 0 <= k < |table| ==> table[k].0 != code
  {
    if table == [] then None
    else if table[0].0 == code then Some(table[0].1)
    else
      var r := FindLabel(table[1..], code);
      assert forall k :: 1 <= k < |table| ==> table[k] == table[1..][k - 1];
      r
  }

  /** The label stored with a report: the label of a known code, "Sonstiges" for any other. */
  function ReasonLabel(code: string): (reason: string)
    ensures exists k :: 0 <= k < |ReportReasons| && ReportReasons[k].1 == reason
    ensures forall k :: 0 <= k < |ReportReasons| && ReportReasons[k].0 == code ==> reason == ReportReasons[k].1
    ensures (forall k :: 0 <= k < |ReportReasons| ==> ReportReasons[k].0 != code) ==> reason == "Sonstiges"
  {
    match FindLabel(ReportReasons, code)
    case Some(l) => l
    case None => assert ReportReasons[4].1 == "Sonstiges"; "Sonstiges"
  }

  /** A fresh queue built after a report never offers a profile of the reported user again. */
  lemma ReportExcludesFromLaterQueues(myId: int, me: Profile, likes: set<(int, int)>, reports: seq<Report>,
                                      later: seq<Report>, reason: string, prefs: Option<AgePrefs>,
                                      listing: seq<Profile>, c: Profile)
    requires UniqueIds(listing) && c in listing
    ensures var all := reports + [Report(myId, c.userId, reason)] + later;
            c.id !in BuildCandidateQueue(myId, me, likes, all, prefs, listing)
  {
    var all := reports + [Report(myId, c.userId, reason)] + later;
    assert all[|reports|] == Report(myId, c.userId, reason);
    QueueExcludes(myId, me, likes, all, prefs, listing, c);
  }

  /** A fresh queue built after a like never offers a profile of the liked user again. */
  lemma LikeExcludesFromLaterQueues(myId: int, me: Profile, likes: set<(int, int)>, reports: seq<Report>,
                                    prefs: Option<AgePrefs>, listing: seq<Profile>, c: Profile)
    requires UniqueIds(listing) && c in listing
    ensures c.id !in BuildCandidateQueue(myId, me, LikeAndCheck(likes, myId, c.userId).0, reports, prefs, listing)
  {
    QueueExcludes(myId, me, LikeAndCheck(likes, myId, c.userId).0, reports, prefs, listing, c);
  }
}
