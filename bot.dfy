/**
 * The bot's handlers with the chat platform and the database taken away: the
 * in-memory tables they read and write (Store) and one user's session
 * (Session), whose methods are the wizard, settings and browse handlers. The
 * clock is the `now` parameter; replies and keyboards are the returned outcomes.
 */
module Bot {
  import opened Common
  import opened Categories
  import opened Records
  import opened Matching
  import opened Wizard
  import opened Settings
  import opened RateLimit
  import opened Browse

  /** Calls allowed per hour for each action. */
  const LikeLimit: int := 60
  const SkipLimit: int := 120
  const ReportLimit: int := 20

  /** The profiles of other users, apart from the given one. */
  function WithoutUser(ps: seq<Profile>, userId: int): (r: seq<Profile>)
    ensures forall p :: p in r <==> p in ps && p.userId != userId
  {
    if ps == [] then []
    else
      var rest := WithoutUser(ps[1..], userId);
      assert ps == [ps[0]] + ps[1..];
      if ps[0].userId == userId then rest else [ps[0]] + rest
  }

  /** One more than the largest profile id: the id a newly created profile receives. */
  function NextProfileId(ps: seq<Profile>): (id: int)
    ensures forall p :: p in ps ==> p.id < id
  {
    if ps == [] then 1 else Max(ps[0].id + 1, NextProfileId(ps[1..]))
  }

  /** A table whose ids and users are unique and whose order is newest first. */
  ghost predicate WellKept(ps: seq<Profile>)
  {
    UniqueIds(ps) && UniqueUsers(ps) && NewestFirst(ps)
  }

  /** Dropping the first row of a well-kept table leaves a well-kept table. */
  lemma TailWellKept(ps: seq<Profile>)
    requires WellKept(ps) && ps != []
    ensures WellKept(ps[1..])
  {
    var tail := ps[1..];
    forall i, j | 0 <= i < j < |tail|
      ensures tail[i].id != tail[j].id && tail[i].userId != tail[j].userId && tail[i].updatedAt >= tail[j].updatedAt
    {
      assert tail[i] == ps[i + 1] && tail[j] == ps[j + 1];
    }
  }

  /** Putting in front of a well-kept table a row that differs in id and user from each row and is not older keeps it well kept. */
  lemma ConsWellKept(p: Profile, rest: seq<Profile>)
    requires WellKept(rest)
    requires forall q :: q in rest ==> q.id != p.id && q.userId != p.userId && q.updatedAt <= p.updatedAt
    ensures WellKept([p] + rest)
  {
    var r := [p] + rest;
    forall i, j | 0 <= i < j < |r|
      ensures r[i].id != r[j].id && r[i].userId != r[j].userId && r[i].updatedAt >= r[j].updatedAt
    {
      assert r[j] == rest[j - 1] && rest[j - 1] in rest;
      if i > 0 {
        assert r[i] == rest[i - 1];
      }
    }
  }

  /** Removing one user's rows keeps the ids and the users unique and the order newest first. */
  lemma {:induction false} WithoutUserKeepsTable(ps: seq<Profile>, userId: int)
    requires WellKept(ps)
    ensures WellKept(WithoutUser(ps, userId))
    decreases |ps|
  {
    if ps != [] {
      var tail := ps[1..];
      TailWellKept(ps);
      WithoutUserKeepsTable(tail, userId);
      var rest := WithoutUser(tail, userId);
      if ps[0].userId != userId {
        forall q | q in rest
          ensures q.id != ps[0].id && q.userId != ps[0].userId && q.updatedAt <= ps[0].updatedAt
        {
          var m :| 0 <= m < |tail| && tail[m] == q;
          assert ps[m + 1] == q;
        }
        ConsWellKept(ps[0], rest);
      }
    }
  }

  /** Two rows of a table with unique ids that share an id are the same row. */
  lemma SameIdSameRow(ps: seq<Profile>, a: Profile, b: Profile)
    requires UniqueIds(ps) && a in ps && b in ps && a.id == b.id
    ensures a == b
  {
    var i :| 0 <= i < |ps| && ps[i] == a;
    var j :| 0 <= j < |ps| && ps[j] == b;
    assert i == j;
  }

  /** The report rows in which a user is neither the reporter nor the reported user. */
  function ReportsWithout(rs: seq<Report>, userId: int): (r: seq<Report>)
    ensures forall x :: x in r <==> x in rs && x.reporterUserId != userId && x.reportedUserId != userId
  {
    if rs == [] then []
    else
      var rest := ReportsWithout(rs[1..], userId);
      assert rs == [rs[0]] + rs[1..];
      if rs[0].reporterUserId == userId || rs[0].reportedUserId == userId then rest else [rs[0]] + rest
  }

  /** The preferences row of a user, if one exists. */
  function PrefsOf(prefs: map<int, AgePrefs>, userId: int): Option<AgePrefs>
  {
    if userId in prefs then Some(prefs[userId]) else None
  }

  /** The database tables the handlers use, kept in memory. */
  class Store {
    /** The profile table, most recently updated first. */
    var profiles: seq<Profile>
    /** The like edges (from user, to user); unique per ordered pair. */
    var likes: set<(int, int)>
    /** The report rows, in creation order. */
    var reports: seq<Report>
    /** The age columns of the preferences rows, by user id. */
    var prefs: map<int, AgePrefs>

    /**
     * What the database guarantees of the profile table: a unique primary key, at
     * most one profile per user, and the listing order most recently updated first.
     */
    ghost predicate Valid()
      reads this`profiles
    {
      WellKept(profiles)
    }

    constructor (profiles: seq<Profile>, likes: set<(int, int)>, reports: seq<Report>, prefs: map<int, AgePrefs>)
      requires WellKept(profiles)
      ensures Valid()
      ensures this.profiles == profiles && this.likes == likes
      ensures this.reports == reports && this.prefs == prefs
    {
      this.profiles := profiles;
      this.likes := likes;
      this.reports := reports;
      this.prefs := prefs;
    }

    /** The like upsert on (from, to) followed by the lookup of the reverse edge. */
    method UpsertLike(from: int, to: int) returns (matched: bool)
      modifies this`likes
      ensures (likes, matched) == LikeAndCheck(old(likes), from, to)
    {
      likes := likes + {(from, to)};
      matched := (to, from) in likes;
    }

    /** A new report row. */
    method CreateReport(r: Report)
      modifies this`reports
      ensures reports == old(reports) + [r]
    {
      reports := reports + [r];
    }

    /** The age-button handler: upsert the preferences row, move one bound, store both bounds. */
    method UpdateAgePreference(userId: int, which: Bound, delta: int) returns (r: AgePrefs)
      modifies this`prefs
      ensures r == UpdateAgePref(PrefsOf(old(prefs), userId), which, delta)
      ensures prefs == old(prefs)[userId := r]
    {
      r := UpdateAgePref(PrefsOf(prefs, userId), which, delta);
      prefs := prefs[userId := r];
    }

    /**
     * The `/settings` command: the user's preferences row is created with both
     * bounds null when missing; the screen shows the stored bounds or 18..120.
     */
    method OpenSettings(userId: int) returns (shown: AgeWindow)
      modifies this`prefs
      ensures userId in old(prefs) ==> prefs == old(prefs)
      ensures userId !in old(prefs) ==> prefs == old(prefs)[userId := AgePrefs(None, None)]
      ensures shown == AgeWindow(StoredMin(PrefsOf(prefs, userId)), StoredMax(PrefsOf(prefs, userId)))
    {
      if userId !in prefs {
        prefs := prefs[userId := AgePrefs(None, None)];
      }
      shown := AgeWindow(StoredMin(PrefsOf(prefs, userId)), StoredMax(PrefsOf(prefs, userId)));
    }

    /**
     * The reset button of the age filter: both stored bounds become null, so
     * browsing falls back to the defaults. The update fails when the user has no
     * preferences row, and then nothing changes.
     */
    method ResetAgePreference(userId: int) returns (ok: bool)
      modifies this`prefs
      ensures ok <==> userId in old(prefs)
      ensures ok ==> prefs == old(prefs)[userId := AgePrefs(None, None)]
      ensures !ok ==> prefs == old(prefs)
    {
      if userId !in prefs {
        return false;
      }
      prefs := prefs[userId := AgePrefs(None, None)];
      ok := true;
    }

    /**
     * The profile upsert keyed by user: the written row replaces the user's old
     * row and, being newest, comes first. Its id is not used by another user's row.
     */
    method SaveProfile(p: Profile)
      requires Valid()
      requires forall q :: q in profiles && q.userId != p.userId ==> q.id != p.id
      requires forall q :: q in profiles ==> q.updatedAt <= p.updatedAt
      modifies this`profiles
      ensures Valid()
      ensures profiles == [p] + WithoutUser(old(profiles), p.userId)
    {
      WithoutUserKeepsTable(profiles, p.userId);
      var rest := WithoutUser(profiles, p.userId);
      ConsWellKept(p, rest);
      profiles := [p] + rest;
    }

    /**
     * The confirmed deletion of a user's data: their likes in either direction,
     * their reports as reporter or reported, their profile and their preferences.
     */
    method DeleteUser(userId: int)
      requires Valid()
      modifies this
      ensures Valid()
      ensures profiles == WithoutUser(old(profiles), userId)
      ensures likes == set e | e in old(likes) && e.0 != userId && e.1 != userId
      ensures reports == ReportsWithout(old(reports), userId)
      ensures prefs == old(prefs) - {userId}
    {
      WithoutUserKeepsTable(profiles, userId);
      likes := set e | e in likes && e.0 != userId && e.1 != userId;
      reports := ReportsWithout(reports, userId);
      profiles := WithoutUser(profiles, userId);
      prefs := prefs - {userId};
    }
  }

  /** The outcome of the skip button. */
  datatype SkipOutcome = SkipLimited(minutesLeft: int) | SkipNoSession | Skipped(next: ShowResult)

  /** The outcome of the like button. */
  datatype LikeOutcome =
    | LikeLimited(minutesLeft: int)
    | LikeNoSession
    | LikeGone(next: ShowResult)
    | Saved(next: ShowResult)
    | Matched(otherUserId: int, next: ShowResult)

  /** The outcome of the report button, which only opens the reason menu. */
  datatype ReportMenuOutcome = MenuLimited(minutesLeft: int) | MenuIgnored | MenuShown

  /** The outcome of choosing a report reason. */
  datatype ReportOutcome = ReportCancelled | ReportIgnored | Reported(reason: string, next: ShowResult)

  /** The outcome of starting to browse. */
  datatype StartOutcome = ProfileIncomplete | NoCandidates | Started(first: ShowResult)

  /** The outcome of a text message. */
  datatype TextOutcome = PassedOn | Accepted | InvalidAge

  /** The outcome of a wizard button. */
  datatype ChoiceOutcome = ChoiceAccepted | ChoiceRejected

  /** A session whose current profile id is set (the handlers test it for truthiness, so 0 reads as unset). */
  predicate HasCurrent(b: Option<BrowseState>)
  {
    b.Some? && b.value.currentProfileId.Some? && b.value.currentProfileId.value != 0
  }

  /** One user's session data: the wizard step, the fields collected, and the browse state. */
  class Session {
    var step: WizardStep
    var temp: TempProfile
    var browse: Option<BrowseState>

    constructor ()
      ensures step == Idle && temp == EmptyTemp && browse == None
    {
      step := Idle;
      temp := EmptyTemp;
      browse := None;
    }

    // -------------------------------------------------------------------------
    // Browsing
    // -------------------------------------------------------------------------

    /**
     * Puts the next candidate on screen, moving the cursor past entries whose
     * profile no longer exists; ends the session at the end of the queue.
     */
    method ShowNextCandidate(store: Store) returns (r: ShowResult)
      modifies this`browse
      ensures old(browse).None? ==> browse == None && r == Exhausted
      ensures old(browse).Some? ==> (browse, r) == Show(old(browse).value, LiveIds(store.profiles))
    {
      if browse.None? {
        return Exhausted;
      }
      var st := browse.value;
      ghost var live := LiveIds(store.profiles);
      var i := st.index;
      while i < |st.queue| && FindById(store.profiles, st.queue[i]).None?
        invariant st.index <= i
        invariant browse == Some(st.(index := i))
        invariant NextLive(st.queue, i, live) == NextLive(st.queue, st.index, live)
        decreases |st.queue| - i
      {
        i := i + 1;
        browse := Some(st.(index := i));
      }
      if i >= |st.queue| {
        browse := None;
        r := Exhausted;
      } else {
        var prof := FindById(store.profiles, st.queue[i]).value;
        browse := Some(BrowseState(st.queue, i, Some(prof.id)));
        r := Shown(prof.id);
      }
    }

    /** Builds a fresh queue for `userId` and shows its first candidate. */
    method StartBrowse(userId: int, store: Store) returns (o: StartOutcome)
      requires store.Valid()
      modifies this`browse
      ensures var me := FindByUser(store.profiles, userId);
              if me.None? || !BrowseReady(me.value) then
                o == ProfileIncomplete && browse == old(browse)
              else
                var queue := BuildCandidateQueue(userId, me.value, store.likes, store.reports,
                                                 PrefsOf(store.prefs, userId), store.profiles);
                && (forall i, j :: 0 <= i < j < |queue| ==> queue[i] != queue[j])
                && (forall c :: c in store.profiles && c.userId == userId ==> c.id !in queue)
                && (forall c :: c in store.profiles && (userId, c.userId) in store.likes ==> c.id !in queue)
                && (forall c :: c in store.profiles && c.userId in ReportedBy(store.reports, userId) ==> c.id !in queue)
                && if queue == [] then
                  o == NoCandidates && browse == Some(BrowseState([], 0, None))
                else
                  var sh := Show(BrowseState(queue, 0, None), LiveIds(store.profiles));
                  o == Started(sh.1) && browse == sh.0
    {
      var me := FindByUser(store.profiles, userId);
      if me.None? || !BrowseReady(me.value) {
        return ProfileIncomplete;
      }
      var queue := BuildCandidateQueue(userId, me.value, store.likes, store.reports,
                                       PrefsOf(store.prefs, userId), store.profiles);
      QueueDistinct(userId, me.value, store.likes, store.reports, PrefsOf(store.prefs, userId), store.profiles);
      forall c | c in store.profiles && (c.userId == userId || (userId, c.userId) in store.likes ||
                                         c.userId in ReportedBy(store.reports, userId))
        ensures c.id !in queue
      {
        QueueExcludes(userId, me.value, store.likes, store.reports, PrefsOf(store.prefs, userId), store.profiles, c);
      }
      browse := Some(BrowseState(queue, 0, None));
      if |queue| == 0 {
        return NoCandidates;
      }
      var first := ShowNextCandidate(store);
      o := Started(first);
    }

    /** The skip button: rate check, then the cursor moves on by one and the next candidate is shown. */
    method Skip(userId: int, now: int, limiter: RateLimiter, store: Store) returns (o: SkipOutcome)
      modifies this`browse, limiter
      ensures var (rate, d) := Step(old(limiter.rate), (userId, "skip"), SkipLimit, HourMs, now);
              && limiter.rate == rate
              && (d.Limited? ==> o == SkipLimited(d.minutesLeft) && browse == old(browse))
              && (d.Allowed? && old(browse).None? ==> o == SkipNoSession && browse == None)
              && (d.Allowed? && old(browse).Some? ==>
                    var sh := Show(Advance(old(browse).value), LiveIds(store.profiles));
                    o == Skipped(sh.1) && browse == sh.0)
    {
      var d := limiter.CheckRate(userId, "skip", SkipLimit, HourMs, now);
      if d.Limited? {
        return SkipLimited(d.minutesLeft);
      }
      if browse.None? {
        return SkipNoSession;
      }
      browse := Some(Advance(browse.value));
      var next := ShowNextCandidate(store);
      o := Skipped(next);
    }

    /**
     * The like button: rate check; the like edge to the shown profile's user is
     * upserted and the reverse edge decides between a match and "saved"; then
     * the cursor moves on. A shown profile that has disappeared is skipped.
     */
    method Like(userId: int, now: int, limiter: RateLimiter, store: Store) returns (o: LikeOutcome)
      modifies this`browse, limiter, store`likes
      ensures var (rate, d) := Step(old(limiter.rate), (userId, "like"), LikeLimit, HourMs, now);
              && limiter.rate == rate
              && (d.Limited? ==> o == LikeLimited(d.minutesLeft) && browse == old(browse) && store.likes == old(store.likes))
              && (d.Allowed? && !HasCurrent(old(browse)) ==>
                    o == LikeNoSession && browse == old(browse) && store.likes == old(store.likes))
              && (d.Allowed? && HasCurrent(old(browse)) ==>
                    var st := old(browse).value;
                    var prof := FindById(store.profiles, st.currentProfileId.value);
                    var sh := Show(Advance(st), LiveIds(store.profiles));
                    && browse == sh.0
                    && (prof.None? ==> o == LikeGone(sh.1) && store.likes == old(store.likes))
                    && (prof.Some? ==>
                          var (likes, matched) := LikeAndCheck(old(store.likes), userId, prof.value.userId);
                          && store.likes == likes
                          && o == if matched then Matched(prof.value.userId, sh.1) else Saved(sh.1)))
    {
      var d := limiter.CheckRate(userId, "like", LikeLimit, HourMs, now);
      if d.Limited? {
        return LikeLimited(d.minutesLeft);
      }
      if !HasCurrent(browse) {
        return LikeNoSession;
      }
      var st := browse.value;
      var prof := FindById(store.profiles, st.currentProfileId.value);
      if prof.None? {
        browse := Some(Advance(st));
        var next := ShowNextCandidate(store);
        return LikeGone(next);
      }
      var matched := store.UpsertLike(userId, prof.value.userId);
      browse := Some(Advance(st));
      var next := ShowNextCandidate(store);
      o := if matched then Matched(prof.value.userId, next) else Saved(next);
    }

    /** The report button: rate check, then the reason menu if a profile is on screen. */
    method OpenReportMenu(userId: int, now: int, limiter: RateLimiter) returns (o: ReportMenuOutcome)
      modifies limiter
      ensures var (rate, d) := Step(old(limiter.rate), (userId, "report"), ReportLimit, HourMs, now);
              && limiter.rate == rate
              && o == if d.Limited? then MenuLimited(d.minutesLeft)
                      else if HasCurrent(browse) then MenuShown
                      else MenuIgnored
    {
      var d := limiter.CheckRate(userId, "report", ReportLimit, HourMs, now);
      if d.Limited? {
        return MenuLimited(d.minutesLeft);
      }
      o := if HasCurrent(browse) then MenuShown else MenuIgnored;
    }

    /**
     * A reason from the report menu: "cancel" closes the menu; otherwise a report
     * of the shown profile's user is stored with the reason's label and the
     * cursor moves on. Nothing happens when the shown profile has disappeared.
     */
    method ChooseReportReason(userId: int, code: string, store: Store) returns (o: ReportOutcome)
      modifies this`browse, store`reports
      ensures code == "cancel" ==> o == ReportCancelled && browse == old(browse) && store.reports == old(store.reports)
      ensures code != "cancel" && !HasCurrent(old(browse)) ==>
                o == ReportIgnored && browse == old(browse) && store.reports == old(store.reports)
      ensures code != "cancel" && HasCurrent(old(browse)) ==>
                var st := old(browse).value;
                var prof := FindById(store.profiles, st.currentProfileId.value);
                && (prof.None? ==> o == ReportIgnored && browse == old(browse) && store.reports == old(store.reports))
                && (prof.Some? ==>
                      var sh := Show(Advance(st), LiveIds(store.profiles));
                      && store.reports == old(store.reports) + [Report(userId, prof.value.userId, ReasonLabel(code))]
                      && browse == sh.0
                      && o == Reported(ReasonLabel(code), sh.1))
    {
      if code == "cancel" {
        return ReportCancelled;
      }
      if !HasCurrent(browse) {
        return ReportIgnored;
      }
      var st := browse.value;
      var prof := FindById(store.profiles, st.currentProfileId.value);
      if prof.None? {
        return ReportIgnored;
      }
      var reason := ReasonLabel(code);
      store.CreateReport(Report(userId, prof.value.userId, reason));
      browse := Some(Advance(st));
      var next := ShowNextCandidate(store);
      o := Reported(reason, next);
    }

    // -------------------------------------------------------------------------
    // Wizard
    // -------------------------------------------------------------------------

    /** Opens the wizard at its first step, prefilled from the user's saved profile if there is one. */
    method StartWizard(userId: int, store: Store)
      modifies this`step, this`temp
      ensures step == DisplayName
      ensures var prof := FindByUser(store.profiles, userId);
              temp == match prof
                      case None => TempProfile(None, None, None, Some([]), None)
                      case Some(p) => TempProfile(p.displayName, p.age, p.identity,
                                                  Some(ValidAudiences(p.audiences)), p.bioSeek)
    {
      var prof := FindByUser(store.profiles, userId);
      var looking: seq<Audience> := [];
      if prof.Some? {
        looking := ValidAudiences(prof.value.audiences);
      }
      match prof {
        case None => temp := TempProfile(None, None, None, Some(looking), None);
        case Some(p) => temp := TempProfile(p.displayName, p.age, p.identity, Some(looking), p.bioSeek);
      }
      step := DisplayName;
    }

    /** The cancel command: leave the wizard and forget the collected fields. */
    method Cancel()
      modifies this`step, this`temp
      ensures step == Idle && temp == EmptyTemp
    {
      step := Idle;
      temp := EmptyTemp;
    }

    /** A back button: one step back along the chain. */
    method Back()
      modifies this`step
      ensures step == GoBack(old(step))
    {
      step := GoBack(step);
    }

    /**
     * A text message during the wizard: the trimmed name (at most 40 characters),
     * age (an integer 13..120) or search text (at most 500 characters) is stored
     * and the wizard moves on; other steps pass the message on.
     */
    method OnText(raw: string) returns (o: TextOutcome)
      modifies this`step, this`temp
      ensures var text := Trim(raw);
              match old(step)
              case DisplayName =>
                o == Accepted && temp == old(temp).(displayName := Some(Truncate(text, MaxNameLength))) && step == AgeStep
              case AgeStep =>
                if AgeInput(text).None? then o == InvalidAge && temp == old(temp) && step == old(step)
                else o == Accepted && temp == old(temp).(age := AgeInput(text)) && step == IdentityStep
              case BioSeek =>
                o == Accepted && temp == old(temp).(bioSeek := Some(Truncate(text, MaxBioLength))) && step == Confirm
              case _ => o == PassedOn && temp == old(temp) && step == old(step)
    {
      if step == Idle {
        return PassedOn;
      }
      var text := Trim(raw);
      if step == DisplayName {
        temp := temp.(displayName := Some(Truncate(text, MaxNameLength)));
        step := GoNext(step);
        return Accepted;
      }
      if step == AgeStep {
        var age := AgeInput(text);
        if age.None? {
          return InvalidAge;
        }
        temp := temp.(age := age);
        step := GoNext(step);
        return Accepted;
      }
      if step == BioSeek {
        temp := temp.(bioSeek := Some(Truncate(text, MaxBioLength)));
        step := GoNext(step);
        return Accepted;
      }
      o := PassedOn;
    }

    /** An identity button: a valid identity is stored and the wizard goes to the audience step. */
    method ChooseIdentity(raw: string) returns (o: ChoiceOutcome)
      modifies this`step, this`temp
      ensures ParseIdentity(raw).None? ==> o == ChoiceRejected && step == old(step) && temp == old(temp)
      ensures ParseIdentity(raw).Some? ==>
                o == ChoiceAccepted && step == Looking && temp == old(temp).(identity := Some(raw))
    {
      if ParseIdentity(raw).None? {
        return ChoiceRejected;
      }
      temp := temp.(identity := Some(raw));
      step := Looking;
      o := ChoiceAccepted;
    }

    /** An audience button: a valid audience is toggled in the selection. */
    method ToggleAudience(raw: string) returns (o: ChoiceOutcome)
      modifies this`temp
      ensures ParseAudience(raw).None? ==> o == ChoiceRejected && temp == old(temp)
      ensures ParseAudience(raw).Some? ==>
                var current := if old(temp).looking.Some? then old(temp).looking.value else [];
                o == ChoiceAccepted &&
                temp == old(temp).(looking := Some(Toggle(current, ParseAudience(raw).value)))
    {
      var a := ParseAudience(raw);
      if a.None? {
        return ChoiceRejected;
      }
      var current := if temp.looking.Some? then temp.looking.value else [];
      temp := temp.(looking := Some(Toggle(current, a.value)));
      o := ChoiceAccepted;
    }

    /** The "next" button of the audience step: refused while nothing is selected. */
    method NextFromLooking() returns (o: ChoiceOutcome)
      modifies this`step
      ensures temp.looking.None? || temp.looking.value == [] ==> o == ChoiceRejected && step == old(step)
      ensures temp.looking.Some? && temp.looking.value != [] ==> o == ChoiceAccepted && step == BioSeek
    {
      if temp.looking.None? || |temp.looking.value| == 0 {
        return ChoiceRejected;
      }
      step := BioSeek;
      o := ChoiceAccepted;
    }

    /**
     * The save button: refused unless the collected fields are complete; otherwise
     * the user's profile row is written (keeping its id, or with a new one) and
     * the wizard closes.
     */
    method ConfirmSave(userId: int, now: int, store: Store) returns (saved: Option<Profile>)
      requires store.Valid()
      requires forall p :: p in store.profiles ==> p.updatedAt <= now
      modifies this`step, this`temp, store`profiles
      ensures store.Valid()
      ensures !IsTempComplete(old(temp)) ==>
                saved.None? && step == old(step) && temp == old(temp) && store.profiles == old(store.profiles)
      ensures IsTempComplete(old(temp)) ==>
                var existing := FindByUser(old(store.profiles), userId);
                var id := if existing.Some? then existing.value.id else NextProfileId(old(store.profiles));
                && saved == Some(SavedProfile(id, userId, old(temp), now))
                && store.profiles == [saved.value] + WithoutUser(old(store.profiles), userId)
                && step == Idle && temp == EmptyTemp
    {
      if !IsTempComplete(temp) {
        return None;
      }
      var existing := FindByUser(store.profiles, userId);
      var id := if existing.Some? then existing.value.id else NextProfileId(store.profiles);
      var p := SavedProfile(id, userId, temp, now);
      forall q | q in store.profiles && q.userId != userId
        ensures q.id != p.id
      {
        if existing.Some? && q.id == p.id {
          SameIdSameRow(store.profiles, q, existing.value);
        }
      }
      store.SaveProfile(p);
      step := Idle;
      temp := EmptyTemp;
      saved := Some(p);
    }
  }
}
