/**
 * The candidate queue a viewer browses: the profile table is filtered by the
 * database query's conditions, then by the mutual-interest test `matchMe`, and
 * the surviving profile ids are kept in the order the query returned them
 * (most recently updated first).
 */
module Matching {
  import opened Common
  import opened Categories
  import opened Records

  /** The inclusive age range a viewer wants to see. */
  datatype AgeWindow = AgeWindow(min: int, max: int)

  /**
   * Everything `matchMe` needs about the viewer, loaded once per queue build:
   * the viewer's own category (None when the stored identity is not one of the
   * seven), the valid audiences it is looking for, the users it has liked or
   * reported, and its age window.
   */
  datatype Viewer = Viewer(
    userId: int,
    category: Option<Audience>,
    looking: seq<Audience>,
    liked: set<int>,
    reported: set<int>,
    window: AgeWindow)

  /** The gate before browsing: a profile with a non-empty name, a non-zero age, a non-empty identity and some audience row. */
  predicate BrowseReady(me: Profile)
    ensures BrowseReady(me) ==> me.displayName.Some? && me.age.Some? && me.identity.Some?
    ensures me.audiences == [] ==> !BrowseReady(me)
  {
    && me.displayName.Some? && me.displayName.value != ""
    && me.age.Some? && me.age.value != 0
    && me.identity.Some? && me.identity.value != ""
    && |me.audiences| > 0
  }

  /** The age window used for browsing: stored bounds win, else 18 (adult) or 13, up to 120. */
  function EffectiveWindow(prefs: Option<AgePrefs>, isAdult: bool): (w: AgeWindow)
    ensures prefs.Some? && prefs.value.minAge.Some? ==> w.min == prefs.value.minAge.value
    ensures prefs.Some? && prefs.value.maxAge.Some? ==> w.max == prefs.value.maxAge.value
    ensures prefs.None? || prefs.value.minAge.None? ==> w.min == if isAdult then 18 else 13
    ensures prefs.None? || prefs.value.maxAge.None? ==> w.max == 120
  {
    var minAge := if prefs.Some? && prefs.value.minAge.Some? then prefs.value.minAge.value
                  else if isAdult then 18 else 13;
    var maxAge := if prefs.Some? && prefs.value.maxAge.Some? then prefs.value.maxAge.value else 120;
    AgeWindow(minAge, maxAge)
  }

  /** Audience codes are pairwise distinct. */
  lemma AudienceCodeInjective()
    ensures forall a, b :: AudienceCode(a) == AudienceCode(b) ==> a == b
  {
    forall a, b | AudienceCode(a) == AudienceCode(b) ensures a == b {
      AudienceCodeRoundTrip(a);
      AudienceCodeRoundTrip(b);
    }
  }

  /** The stored audience rows that name a real category, in stored order; the others are dropped. */
  function ValidAudiences(raw: seq<string>): (r: seq<Audience>)
    ensures forall a :: a in r <==> AudienceCode(a) in raw
    ensures |r| <= |raw|
  {
    AudienceCodeInjective();
    if raw == [] then []
    else
      var rest := ValidAudiences(raw[1..]);
      assert raw == [raw[0]] + raw[1..];
      match ParseAudience(raw[0])
      case Some(a) => [a] + rest
      case None => rest
  }

  /** The category under which a stored identity is sought; None when it is null or not one of the seven. */
  function CategoryOf(identity: Option<string>): (r: Option<Audience>)
    ensures r.Some? <==> identity.Some? && ParseIdentity(identity.value).Some?
    ensures r.Some? ==> r.value == IdentityToAudience(ParseIdentity(identity.value).value)
  {
    match identity
    case None => None
    case Some(s) =>
      match ParseIdentity(s)
      case None => None
      case Some(i) => Some(IdentityToAudience(i))
  }

  /** Someone looking for `looking` wants a profile of category `category`. */
  predicate Wants(looking: seq<Audience>, category: Option<Audience>)
  {
    Any in looking || (category.Some? && category.value in looking)
  }

  /** The viewer data of user `myId` with profile `me`. */
  function ViewerOf(myId: int, me: Profile, likes: set<(int, int)>, reports: seq<Report>, prefs: Option<AgePrefs>): Viewer
  {
    Viewer(myId, CategoryOf(me.identity), ValidAudiences(me.audiences),
           LikedBy(likes, myId), ReportedBy(reports, myId), EffectiveWindow(prefs, me.isAdult))
  }

  /** The conditions of the database query: someone else, visible, named, aged inside the window, with an identity. */
  predicate Fetched(v: Viewer, c: Profile)
    ensures Fetched(v, c) ==> c.userId != v.userId && c.visible
    ensures v.window.min > v.window.max ==> !Fetched(v, c)
    ensures c.age.Some? && !(v.window.min <= c.age.value <= v.window.max) ==> !Fetched(v, c)
  {
    && c.userId != v.userId
    && c.visible
    && c.displayName.Some?
    && c.age.Some? && v.window.min <= c.age.value <= v.window.max
    && c.identity.Some?
  }

  /**
   * The per-candidate test: the candidate's identity is valid, each side wants
   * the other, and the viewer has neither liked nor reported the candidate's user.
   */
  predicate MatchMe(v: Viewer, c: Profile)
    ensures MatchMe(v, c) ==>
              && c.identity.Some? && ParseIdentity(c.identity.value).Some?
              && (Any in v.looking || IdentityToAudience(ParseIdentity(c.identity.value).value) in v.looking)
    ensures MatchMe(v, c) ==> v.category.Some? || AudienceCode(Any) in c.audiences
    ensures MatchMe(v, c) ==> c.userId !in v.liked && c.userId !in v.reported
  {
    var cat := CategoryOf(c.identity);
    && cat.Some?
    && Wants(v.looking, cat)
    && Wants(ValidAudiences(c.audiences), v.category)
    && c.userId !in v.liked
    && c.userId !in v.reported
  }

  /** The rows of `cs` that the query returns and `matchMe` accepts, in their order in `cs`. */
  function Survivors(v: Viewer, cs: seq<Profile>): (r: seq<Profile>)
    ensures forall c :: c in r ==> c in cs && Fetched(v, c) && MatchMe(v, c)
    ensures forall c :: c in cs && Fetched(v, c) && MatchMe(v, c) ==> c in r
    ensures |r| <= |cs|
  {
    if cs == [] then []
    else
      var rest := Survivors(v, cs[1..]);
      assert cs == [cs[0]] + cs[1..];
      if Fetched(v, cs[0]) && MatchMe(v, cs[0]) then [cs[0]] + rest else rest
  }

  /** The ids of a list of profiles, position by position. */
  function Ids(ps: seq<Profile>): (r: seq<int>)
    ensures |r| == |ps|
    ensures forall k :: 0 <= k < |ps| ==> r[k] == ps[k].id
  {
    if ps == [] then [] else [ps[0].id] + Ids(ps[1..])
  }

  /**
   * The queue of profile ids built for user `myId` whose profile is `me`, from
   * the profile table `listing` (in the query's updatedAt-descending order).
   */
  function BuildCandidateQueue(myId: int, me: Profile, likes: set<(int, int)>, reports: seq<Report>,
                               prefs: Option<AgePrefs>, listing: seq<Profile>): (q: seq<int>)
    ensures |q| <= |listing|
    ensures forall id :: id in q ==> exists c :: c in listing && c.id == id
  {
    Ids(Survivors(ViewerOf(myId, me, likes, reports, prefs), listing))
  }

  /** `a` can be obtained from `b` by deleting elements. */
  predicate IsSubsequence<T(==)>(a: seq<T>, b: seq<T>)
    decreases |b|
  {
    if a == [] then true
    else if b == [] then false
    else if a[0] == b[0] then IsSubsequence(a[1..], b[1..])
    else IsSubsequence(a, b[1..])
  }

  /** Profiles are listed most recently updated first. */
  ghost predicate NewestFirst(ps: seq<Profile>)
  {
    forall i, j :: 0 <= i < j < |ps| ==> ps[i].updatedAt >= ps[j].updatedAt
  }

  /** Filtering only deletes rows: the survivors are a subsequence of the listing. */
  lemma {:induction false} SurvivorsSubsequence(v: Viewer, cs: seq<Profile>)
    ensures IsSubsequence(Survivors(v, cs), cs)
    decreases |cs|
  {
    if cs != [] {
      SurvivorsSubsequence(v, cs[1..]);
      var rest := Survivors(v, cs[1..]);
      if Fetched(v, cs[0]) && MatchMe(v, cs[0]) {
        assert ([cs[0]] + rest)[1..] == rest;
      } else if rest != [] {
        SkipHeadSubsequence(rest, cs);
      }
    }
  }

  /** A subsequence of the tail whose head differs from the list's head is still a subsequence of the list. */
  lemma {:induction false} SkipHeadSubsequence<T>(a: seq<T>, b: seq<T>)
    requires b != [] && IsSubsequence(a, b[1..])
    ensures IsSubsequence(a, b)
    decreases |a| + |b|
  {
    if a != [] && a[0] == b[0] {
      SubsequenceOfTail(a, b[1..]);
    }
  }

  /** Dropping the head of a subsequence keeps a subsequence. */
  lemma {:induction false} SubsequenceOfTail<T>(a: seq<T>, b: seq<T>)
    requires a != [] && IsSubsequence(a, b)
    ensures IsSubsequence(a[1..], b)
    decreases |a| + |b|
  {
    if a[0] != b[0] {
      SubsequenceOfTail(a, b[1..]);
      if a[1..] != [] {
        SkipHeadSubsequence(a[1..], b);
      }
    } else if a[1..] != [] {
      SkipHeadSubsequence(a[1..], b);
    }
  }

  /** The queue keeps the listing's order: survivors of a newest-first listing are newest first. */
  lemma {:induction false} SurvivorsNewestFirst(v: Viewer, cs: seq<Profile>)
    requires NewestFirst(cs)
    ensures NewestFirst(Survivors(v, cs))
    decreases |cs|
  {
    if cs != [] {
      assert NewestFirst(cs[1..]);
      SurvivorsNewestFirst(v, cs[1..]);
      var rest := Survivors(v, cs[1..]);
      forall c | c in rest ensures c.updatedAt <= cs[0].updatedAt {
        var k :| 1 <= k < |cs| && cs[k] == c;
      }
    }
  }

  /** Filtering a listing whose ids are unique keeps them unique. */
  lemma {:induction false} SurvivorsUniqueIds(v: Viewer, cs: seq<Profile>)
    requires UniqueIds(cs)
    ensures UniqueIds(Survivors(v, cs))
    decreases |cs|
  {
    if cs != [] {
      assert UniqueIds(cs[1..]);
      SurvivorsUniqueIds(v, cs[1..]);
      var rest := Survivors(v, cs[1..]);
      forall c | c in rest ensures c.id != cs[0].id {
        var k :| 1 <= k < |cs| && cs[k] == c;
      }
    }
  }

  /** Every queued id is that of a listed profile that passes the query and `matchMe`. */
  lemma QueueSound(myId: int, me: Profile, likes: set<(int, int)>, reports: seq<Report>,
                   prefs: Option<AgePrefs>, listing: seq<Profile>, id: int)
    requires id in BuildCandidateQueue(myId, me, likes, reports, prefs, listing)
    ensures exists c :: c in listing && c.id == id &&
              Fetched(ViewerOf(myId, me, likes, reports, prefs), c) &&
              MatchMe(ViewerOf(myId, me, likes, reports, prefs), c)
  {
    var s := Survivors(ViewerOf(myId, me, likes, reports, prefs), listing);
    var k :| 0 <= k < |s| && Ids(s)[k] == id;
    assert s[k] in s;
  }

  /** Every listed profile that passes the query and `matchMe` is queued. */
  lemma QueueComplete(myId: int, me: Profile, likes: set<(int, int)>, reports: seq<Report>,
                      prefs: Option<AgePrefs>, listing: seq<Profile>, c: Profile)
    requires c in listing
    requires Fetched(ViewerOf(myId, me, likes, reports, prefs), c)
    requires MatchMe(ViewerOf(myId, me, likes, reports, prefs), c)
    ensures c.id in BuildCandidateQueue(myId, me, likes, reports, prefs, listing)
  {
    var s := Survivors(ViewerOf(myId, me, likes, reports, prefs), listing);
    var k :| 0 <= k < |s| && s[k] == c;
    assert Ids(s)[k] == c.id;
  }

  /**
   * Exclusion: when the listing's ids are unique, no profile of the viewer
   * itself, of a user the viewer liked, or of a user the viewer reported is
   * ever queued; the queue holds no id twice.
   */
  lemma {:induction false} QueueExcludes(myId: int, me: Profile, likes: set<(int, int)>, reports: seq<Report>,
                                         prefs: Option<AgePrefs>, listing: seq<Profile>, c: Profile)
    requires UniqueIds(listing)
    requires c in listing
    requires c.userId == myId || (myId, c.userId) in likes || c.userId in ReportedBy(reports, myId)
    ensures c.id !in BuildCandidateQueue(myId, me, likes, reports, prefs, listing)
  {
    var v := ViewerOf(myId, me, likes, reports, prefs);
    var s := Survivors(v, listing);
    var j :| 0 <= j < |listing| && listing[j] == c;
    forall k | 0 <= k < |s| ensures Ids(s)[k] != c.id {
      var d := s[k];
      assert d in s;
      assert d != c;
      var i :| 0 <= i < |listing| && listing[i] == d;
      assert i != j;
    }
  }

  /** The queue lists each profile id at most once when the listing does. */
  lemma QueueDistinct(myId: int, me: Profile, likes: set<(int, int)>, reports: seq<Report>,
                      prefs: Option<AgePrefs>, listing: seq<Profile>)
    requires UniqueIds(listing)
    ensures var q := BuildCandidateQueue(myId, me, likes, reports, prefs, listing);
            forall i, j :: 0 <= i < j < |q| ==> q[i] != q[j]
  {
    SurvivorsUniqueIds(ViewerOf(myId, me, likes, reports, prefs), listing);
  }

  /** Every queued profile's age lies inside the viewer's effective age window. */
  lemma QueueRespectsAgeWindow(myId: int, me: Profile, likes: set<(int, int)>, reports: seq<Report>,
                               prefs: Option<AgePrefs>, listing: seq<Profile>, id: int)
    requires id in BuildCandidateQueue(myId, me, likes, reports, prefs, listing)
    ensures exists c :: c in listing && c.id == id && c.age.Some? &&
              EffectiveWindow(prefs, me.isAdult).min <= c.age.value <= EffectiveWindow(prefs, me.isAdult).max
  {
    QueueSound(myId, me, likes, reports, prefs, listing, id);
  }

  /**
   * `matchMe` is symmetric between two users who have neither liked nor reported
   * each other and whose identities are valid.
   */
  lemma MatchMeSymmetric(a: Profile, b: Profile, likes: set<(int, int)>, reports: seq<Report>,
                         prefsA: Option<AgePrefs>, prefsB: Option<AgePrefs>)
    requires CategoryOf(a.identity).Some? && CategoryOf(b.identity).Some?
    requires (a.userId, b.userId) !in likes && (b.userId, a.userId) !in likes
    requires b.userId !in ReportedBy(reports, a.userId) && a.userId !in ReportedBy(reports, b.userId)
    ensures MatchMe(ViewerOf(a.userId, a, likes, reports, prefsA), b)
        <==> MatchMe(ViewerOf(b.userId, b, likes, reports, prefsB), a)
  {
  }

  /** The viewer's own identity is not validated: with an invalid one, only candidates seeking ANY accept it. */
  lemma InvalidViewerIdentityNeedsAny(myId: int, me: Profile, likes: set<(int, int)>, reports: seq<Report>,
                                      prefs: Option<AgePrefs>, c: Profile)
    requires me.identity.Some? && ParseIdentity(me.identity.value).None?
    requires MatchMe(ViewerOf(myId, me, likes, reports, prefs), c)
    ensures AudienceCode(Any) in c.audiences
  {
  }
}
