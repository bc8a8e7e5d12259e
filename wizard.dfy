/**
 * The profile wizard: a linear chain of six form steps, the validation of the
 * text typed at each step, the audience multi-select, and the completeness test
 * applied before the collected fields are saved.
 */
module Wizard {
  import opened Common
  import opened Categories
  import opened Records
  import opened Matching

  datatype WizardStep = Idle | DisplayName | AgeStep | IdentityStep | Looking | BioSeek | Confirm

  /** Where a step sits on the form: steps 1 to 6; idle is off the chain. */
  function Position(s: WizardStep): nat
  {
    match s
    case Idle => 0
    case DisplayName => 1
    case AgeStep => 2
    case IdentityStep => 3
    case Looking => 4
    case BioSeek => 5
    case Confirm => 6
  }

  /** Different steps sit at different positions. */
  lemma PositionInjective(s: WizardStep, t: WizardStep)
    ensures Position(s) == Position(t) ==> s == t
  {
  }

  /** Forward navigation: one step further along the chain; idle and confirm stay where they are. */
  function GoNext(s: WizardStep): (r: WizardStep)
    ensures 1 <= Position(s) <= 5 ==> Position(r) == Position(s) + 1
    ensures s == Idle || s == Confirm ==> r == s
  {
    match s
    case DisplayName => AgeStep
    case AgeStep => IdentityStep
    case IdentityStep => Looking
    case Looking => BioSeek
    case BioSeek => Confirm
    case _ => s
  }

  /** Backward navigation: one step back; idle and the first step stay where they are. */
  function GoBack(s: WizardStep): (r: WizardStep)
    ensures 2 <= Position(s) <= 6 ==> Position(r) == Position(s) - 1
    ensures Position(s) <= 1 ==> r == s
  {
    match s
    case AgeStep => DisplayName
    case IdentityStep => AgeStep
    case Looking => IdentityStep
    case BioSeek => Looking
    case Confirm => BioSeek
    case _ => s
  }

  /** Going back undoes going forward, on every step that has a successor. */
  lemma GoBackUndoesGoNext(s: WizardStep)
    requires 1 <= Position(s) <= 5
    ensures GoBack(GoNext(s)) == s
  {
    PositionInjective(GoBack(GoNext(s)), s);
  }

  /** Going forward undoes going back, on every step that has a predecessor. */
  lemma GoNextUndoesGoBack(s: WizardStep)
    requires 2 <= Position(s) <= 6
    ensures GoNext(GoBack(s)) == s
  {
    PositionInjective(GoNext(GoBack(s)), s);
  }

  /** The fields collected so far; every one may still be unset. */
  datatype TempProfile = TempProfile(
    displayName: Option<string>,
    age: Option<int>,
    identity: Option<string>,
    looking: Option<seq<Audience>>,
    bioSeek: Option<string>)

  const EmptyTemp: TempProfile := TempProfile(None, None, None, None, None)

  /** The truthiness test before saving: a non-empty name, a non-zero age, a non-empty identity, some audience. */
  predicate IsTempComplete(t: TempProfile)
    ensures IsTempComplete(t) ==> t.displayName.Some? && t.age.Some? && t.identity.Some? && t.looking.Some?
    ensures t.looking.Some? && t.looking.value == [] ==> !IsTempComplete(t)
    ensures t == EmptyTemp ==> !IsTempComplete(t)
  {
    && t.displayName.Some? && t.displayName.value != ""
    && t.age.Some? && t.age.value != 0
    && t.identity.Some? && t.identity.value != ""
    && t.looking.Some? && |t.looking.value| > 0
  }

  // ---------------------------------------------------------------------------
  // Text input: trim, truncate, integer parsing
  // ---------------------------------------------------------------------------

  /** The characters JavaScript's `String.prototype.trim` removes: white space and line terminators. */
  predicate IsTrimmable(c: char)
  {
    || c == '\t' || c == '\n' || c == '\U{B}' || c == '\U{C}' || c == '\r' || c == ' '
    || c == '\U{A0}' || c == '\U{1680}' || ('\U{2000}' <= c <= '\U{200A}')
    || c == '\U{2028}' || c == '\U{2029}' || c == '\U{202F}' || c == '\U{205F}'
    || c == '\U{3000}' || c == '\U{FEFF}'
  }

  /** How many trimmable characters open `s`. */
  function LeadingSpace(s: string): (n: nat)
    ensures n <= |s|
    ensures forall k :: 0 <= k < n ==> IsTrimmable(s[k])
    ensures n < |s| ==> !IsTrimmable(s[n])
  {
    if s == [] || !IsTrimmable(s[0]) then 0 else 1 + LeadingSpace(s[1..])
  }

  /** How many trimmable characters close `s`. */
  function TrailingSpace(s: string): (n: nat)
    ensures n <= |s|
    ensures forall k :: |s| - n <= k < |s| ==> IsTrimmable(s[k])
    ensures n < |s| ==> !IsTrimmable(s[|s| - 1 - n])
  {
    if s == [] || !IsTrimmable(s[|s| - 1]) then 0 else 1 + TrailingSpace(s[..|s| - 1])
  }

  /**
   * `text.trim()`: the infix of `s` left after removing the trimmable characters
   * at both ends; it neither starts nor ends with one.
   */
  function Trim(s: string): (r: string)
    ensures exists i, j :: 0 <= i <= j <= |s| && r == s[i..j] &&
              (forall k :: 0 <= k < i ==> IsTrimmable(s[k])) &&
              (forall k :: j <= k < |s| ==> IsTrimmable(s[k]))
    ensures r != [] ==> !IsTrimmable(r[0]) && !IsTrimmable(r[|r| - 1])
  {
    var i := LeadingSpace(s);
    var rest := s[i..];
    var j := i + (|rest| - TrailingSpace(rest));
    assert rest[..|rest| - TrailingSpace(rest)] == s[i..j];
    assert forall k :: j <= k < |s| ==> s[k] == rest[k - i];
    s[i..j]
  }

  /** Trimming twice is trimming once. */
  lemma TrimIdempotent(s: string)
    ensures Trim(Trim(s)) == Trim(s)
  {
    var t := Trim(s);
    assert LeadingSpace(t) == 0;
    assert t[0..] == t;
    assert TrailingSpace(t) == 0;
    assert t[0..|t|] == t;
  }

  /** `s.slice(0, n)`: the first `n` characters, or all of `s` when it is shorter. */
  function Truncate(s: string, n: nat): (r: string)
    ensures |r| <= n && r <= s
    ensures |s| <= n ==> r == s
    ensures |s| > n ==> |r| == n
  {
    if |s| <= n then s else s[..n]
  }

  const MaxNameLength: nat := 40
  const MaxBioLength: nat := 500
  const MinAge: int := 13
  const MaxAge: int := 120

  predicate IsDigit(c: char) { '0' <= c <= '9' }

  /** How many decimal digits open `s`. */
  function DigitRun(s: string): (n: nat)
    ensures n <= |s|
    ensures forall k :: 0 <= k < n ==> IsDigit(s[k])
    ensures n < |s| ==> !IsDigit(s[n])
  {
    if s == [] || !IsDigit(s[0]) then 0 else 1 + DigitRun(s[1..])
  }

  /** The value of a string of decimal digits, most significant first. */
  function DigitsValue(s: string): nat
    requires forall k :: 0 <= k < |s| ==> IsDigit(s[k])
  {
    if s == [] then 0
    else
      assert IsDigit(s[|s| - 1]);
      DigitsValue(s[..|s| - 1]) * 10 + (s[|s| - 1] as int - '0' as int)
  }

  predicate AllZeros(s: string) { forall k :: 0 <= k < |s| ==> s[k] == '0' }

  /**
   * `Number(text)` followed by `Number.isInteger`, for text in plain decimal
   * notation: an optional sign, at least one digit, and optionally a point
   * followed only by zeros. Everything else reads as not an integer.
   */
  function ParseInteger(text: string): (r: Option<int>)
    ensures r.Some? ==> |text| > 0
    ensures r.Some? && r.value < 0 ==> text[0] == '-'
    ensures |text| > 0 && !IsDigit(text[0]) && text[0] != '-' && text[0] != '+' ==> r.None?
  {
    var negative := |text| > 0 && text[0] == '-';
    var body := if |text| > 0 && (text[0] == '-' || text[0] == '+') then text[1..] else text;
    var n := DigitRun(body);
    if n == 0 then None
    else if n == |body| || (body[n] == '.' && AllZeros(body[n + 1..])) then
      var magnitude: int := DigitsValue(body[..n]);
      Some(if negative then -magnitude else magnitude)
    else None
  }

  /** The decimal numeral of `n`, without sign or leading zeros. */
  function Decimal(n: nat): (s: string)
    ensures |s| > 0 && forall k :: 0 <= k < |s| ==> IsDigit(s[k])
  {
    var d := [(('0' as int) + n % 10) as char];
    if n < 10 then d else Decimal(n / 10) + d
  }

  /** Reading a decimal numeral gives back its number. */
  lemma {:induction false} DecimalValue(n: nat)
    ensures DigitsValue(Decimal(n)) == n
  {
    var s := Decimal(n);
    if n >= 10 {
      DecimalValue(n / 10);
      assert s[..|s| - 1] == Decimal(n / 10);
    }
  }

  /** `ParseInteger` reads back the numeral of any whole number, negative ones with a minus sign. */
  lemma ParseIntegerDecimal(n: nat)
    ensures ParseInteger(Decimal(n)) == Some(n)
    ensures ParseInteger("-" + Decimal(n)) == Some(-(n as int))
  {
    var s := Decimal(n);
    DecimalValue(n);
    assert DigitRun(s) == |s|;
    assert s[..|s|] == s;
    assert ("-" + s)[1..] == s;
  }

  /** The age step's test: an integer from 13 to 120, or nothing. */
  function AgeInput(text: string): (r: Option<int>)
    ensures r.Some? ==> MinAge <= r.value <= MaxAge
    ensures r.Some? ==> ParseInteger(text) == r
  {
    match ParseInteger(text)
    case Some(a) => if a < MinAge || a > MaxAge then None else Some(a)
    case None => None
  }

  /** Every age from 13 to 120, typed as a plain numeral, is accepted with its value. */
  lemma AgeInputAcceptsRange(n: nat)
    requires MinAge <= n <= MaxAge
    ensures AgeInput(Decimal(n)) == Some(n)
  {
    ParseIntegerDecimal(n);
  }

  /** Ages outside 13 to 120 are refused, however they are written. */
  lemma AgeInputRejectsOutside(text: string)
    requires ParseInteger(text).Some?
    requires ParseInteger(text).value < MinAge || ParseInteger(text).value > MaxAge
    ensures AgeInput(text).None?
  {
  }

  // ---------------------------------------------------------------------------
  // Audience multi-select
  // ---------------------------------------------------------------------------

  predicate NoDuplicates<T(==)>(s: seq<T>)
  {
    forall i, j :: 0 <= i < j < |s| ==> s[i] != s[j]
  }

  /** `Array.from(new Set(s))`: each element once, in order of first occurrence. */
  function Dedup(s: seq<Audience>): (r: seq<Audience>)
    ensures NoDuplicates(r)
    ensures forall a :: a in r <==> a in s
  {
    if s == [] then []
    else
      var d := Dedup(s[..|s| - 1]);
      assert s == s[..|s| - 1] + [s[|s| - 1]];
      if s[|s| - 1] in d then d else d + [s[|s| - 1]]
  }

  /** A list without duplicates is its own deduplication. */
  lemma {:induction false} DedupOfDistinct(s: seq<Audience>)
    requires NoDuplicates(s)
    ensures Dedup(s) == s
  {
    if s != [] {
      DedupOfDistinct(s[..|s| - 1]);
      assert s == s[..|s| - 1] + [s[|s| - 1]];
    }
  }

  /** `set.delete(a)` on the list view: every element except `a`, in order. */
  function Remove(s: seq<Audience>, a: Audience): (r: seq<Audience>)
    ensures forall b :: b in r <==> b in s && b != a
    ensures NoDuplicates(s) ==> NoDuplicates(r)
  {
    if s == [] then []
    else
      var rest := Remove(s[1..], a);
      assert s == [s[0]] + s[1..];
      assert NoDuplicates(s) ==> NoDuplicates(s[1..]) && s[0] !in s[1..] by {
        if NoDuplicates(s) {
          forall k | 0 <= k < |s[1..]| ensures s[1..][k] != s[0] {
            assert s[1..][k] == s[k + 1];
          }
        }
      }
      if s[0] == a then rest else [s[0]] + rest
  }

  /** Removing an absent element changes nothing. */
  lemma {:induction false} RemoveAbsent(s: seq<Audience>, a: Audience)
    requires a !in s
    ensures Remove(s, a) == s
  {
    if s != [] {
      RemoveAbsent(s[1..], a);
      assert s == [s[0]] + s[1..];
    }
  }

  /** The toggle of one audience: selected ones are deselected, others are appended. */
  function Toggle(looking: seq<Audience>, a: Audience): (r: seq<Audience>)
    ensures NoDuplicates(r)
    ensures a in r <==> a !in looking
    ensures forall b :: b != a ==> (b in r <==> b in looking)
  {
    var d := Dedup(looking);
    if a in d then Remove(d, a) else d + [a]
  }

  /** Toggling the same audience twice gives back the same selection, as a set. */
  lemma ToggleTwiceSameSelection(looking: seq<Audience>, a: Audience)
    ensures forall b :: b in Toggle(Toggle(looking, a), a) <==> b in looking
  {
  }

  /** Selecting an audience and deselecting it again restores a duplicate-free selection exactly. */
  lemma ToggleOnOff(looking: seq<Audience>, a: Audience)
    requires NoDuplicates(looking) && a !in looking
    ensures Toggle(Toggle(looking, a), a) == looking
  {
    DedupOfDistinct(looking);
    var once := looking + [a];
    assert Toggle(looking, a) == once;
    DedupOfDistinct(once);
    RemoveAbsent(looking, a);
    RemoveConcat(looking, [a], a);
    assert Remove([a], a) == [];
  }

  /** Removing from a concatenation removes from both parts. */
  lemma {:induction false} RemoveConcat(s: seq<Audience>, t: seq<Audience>, a: Audience)
    ensures Remove(s + t, a) == Remove(s, a) + Remove(t, a)
  {
    if s != [] {
      RemoveConcat(s[1..], t, a);
      assert (s + t)[1..] == s[1..] + t;
    } else {
      assert s + t == t;
    }
  }

  // ---------------------------------------------------------------------------
  // Saving
  // ---------------------------------------------------------------------------

  /** The profile row written by a confirmed wizard: visible, adult iff the age is at least 18. */
  function SavedProfile(id: int, userId: int, t: TempProfile, updatedAt: int): (p: Profile)
    requires IsTempComplete(t)
    ensures p.id == id && p.userId == userId && p.updatedAt == updatedAt
    ensures p.displayName == t.displayName && p.age == t.age && p.identity == t.identity && p.bioSeek == t.bioSeek
    ensures p.visible && p.isAdult == (t.age.value >= 18)
    ensures forall a :: a in ValidAudiences(p.audiences) <==> a in t.looking.value
  {
    AudienceCodesReadBack(t.looking.value);
    Profile(id, userId, t.displayName, t.age, t.identity, AudienceCodes(t.looking.value),
            t.bioSeek, true, t.age.value >= 18, updatedAt)
  }

  /** The audience rows written for a selection. */
  function AudienceCodes(looking: seq<Audience>): (r: seq<string>)
    ensures |r| == |looking|
    ensures forall k :: 0 <= k < |looking| ==> r[k] == AudienceCode(looking[k])
  {
    if looking == [] then [] else [AudienceCode(looking[0])] + AudienceCodes(looking[1..])
  }

  /** Reading back the written audience rows gives the selected audiences. */
  lemma AudienceCodesReadBack(looking: seq<Audience>)
    ensures forall a :: a in ValidAudiences(AudienceCodes(looking)) <==> a in looking
  {
    var r := AudienceCodes(looking);
    forall a ensures AudienceCode(a) in r <==> a in looking {
      AudienceCodeInjective();
    }
  }

  /** A completed wizard saves a profile that passes the browse gate. */
  lemma SavedProfileBrowseReady(id: int, userId: int, t: TempProfile, updatedAt: int)
    requires IsTempComplete(t)
    ensures BrowseReady(SavedProfile(id, userId, t, updatedAt))
  {
  }
}
