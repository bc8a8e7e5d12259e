# Dating bot browse core — a Dafny model

This project models the decision logic of a Telegram dating bot (`src/bot.ts`), with the chat
platform and the database taken away. It covers:

- the in-memory fixed-window **rate limiter** that gates the like, skip and report buttons;
- the **candidate queue**: the profile query's conditions, the mutual-interest test `matchMe`
  (identity → audience table, "ANY" wildcard, liked and reported users excluded), and the
  resulting list of profile ids in most-recently-updated-first order;
- the **browse session** (queue, cursor, profile on screen), including the silent skipping of
  queue entries whose profile has disappeared, and the skip, like and report handlers;
- the **like store** (an upsert of the edge (from, to), with a match iff the reverse edge exists)
  and the report store with its reason labels;
- the **profile wizard**: the six-step chain with forward and back navigation, the trimming,
  truncation and age validation of typed text, the audience multi-select toggle, and the
  completeness test before saving;
- the **age filter** buttons of the settings screen, which clamp the bounds into 13..120.

The database becomes the `Bot.Store` class: the profile table as a sequence (most recently
updated first, with unique ids and at most one profile per user, the invariant `Valid`), likes as a set of (from user, to user) pairs, reports as a sequence, and
preferences as a map. One user's session is the `Bot.Session` class; the handlers are its
methods, and they return outcome values where the bot sends replies. The clock is a `now`
parameter (milliseconds).

Files: `common.dfy` (Option), `categories.dfy`, `ratelimit.dfy`, `records.dfy` (table rows and
lookups), `matching.dfy` (queue construction), `wizard.dfy`, `settings.dfy`, `browse.dfy`
(session and like rules as values), `bot.dfy` (the Store and Session classes).

Some behaviour of the code worth knowing: the bot has no tag-overlap ranking, no distance or
radius filter and no suspension or shadowban flags; a like advances the cursor rather than
removing the entry; an empty queue leaves a session with an empty queue in place; the report
button that opens the reasons menu is rate limited, the reason choice itself is not; and the
viewer's own identity is never validated (an invalid one is accepted only by candidates who
seek ANY, see `Matching.InvalidViewerIdentityNeedsAny`).
The settings screen assumes a lower age bound of 18 when none is stored, while the queue
builder assumes 13 for a minor; `Settings.MaxButtonPinsAdultMinimum` states the effect.

## Model

| member | source | states |
|---|---|---|
| `Categories.ParseIdentity` | src/bot.ts:11-19 | a raw string is accepted as an identity exactly when it is one of the seven codes, and then decodes to the identity with that code |
| `Categories.ParseAudience` | src/bot.ts:22-30 | a raw string is accepted as an audience exactly when it is one of the seven codes |
| `Categories.IdentityToAudience` | src/bot.ts:156-166 | the table maps an identity to ANY exactly when it is OTHER |
| `Categories.IdentityToAudienceBijective` | src/bot.ts:156-166 | the identity table has an inverse on both sides, so it is total and one-to-one onto the seven audiences |
| `Categories.IdentityToAudienceInjective` | src/bot.ts:156-166 | distinct identities map to distinct audience categories |
| `RateLimit.CeilDiv` | src/bot.ts:118-119 | the minutes left are the least whole number of minutes covering the remaining milliseconds |
| `RateLimit.Step` | src/bot.ts:104-121 | a call is allowed iff the key is missing, its window has expired, or its count is below the limit; a fresh or expired window restarts at count 1 ending at now + window; an allowed call inside a window adds exactly 1 and stays within the limit; a refused call changes nothing and reports at least 1 minute, the ceiling of the remaining time; other keys are untouched |
| `RateLimit.RateLimiter.CheckRate` | src/bot.ts:104-121 | the in-place table update and verdict are those of `Step` |
| `RateLimit.RunInsideWindow` | src/bot.ts:114-120 | calls made before an open window ends are allowed only until its count reaches the limit |
| `RateLimit.WindowAdmitsAtMostLimit` | src/bot.ts:109-120 | of n calls starting a fresh window and falling before its end, exactly min(n, max(1, limit)) are allowed; the rest are refused |
| `RateLimit.RunKeepsOtherKeys` | src/bot.ts:105-111 | any sequence of calls for one user and action leaves the counters of every other user and action as they were |
| `Records.FindById` | src/bot.ts:507-511 | the lookup by profile id finds a profile with that id, and finds nothing only when no profile has it |
| `Records.FindByUser` | src/bot.ts:426-429 | the lookup by user finds that user's profile, and nothing only when the user has none |
| `Records.LikedBy` | src/bot.ts:449-450 | the liked set holds exactly the users with a like edge from the viewer |
| `Records.ReportedBy` | src/bot.ts:451-452 | the reported set holds exactly the users the viewer has a report row against |
| `Matching.EffectiveWindow` | src/bot.ts:460-462 | each stored bound is used as it is; a bound that is null, or missing with the whole preferences row, falls back on its own to 18 (adult) or 13 for the lower and 120 for the upper end |
| `Matching.ValidAudiences` | src/bot.ts:455-457 | the audiences read from stored rows are exactly those whose code appears among the rows; unknown strings are dropped |
| `Matching.CategoryOf` | src/bot.ts:478-480 | a stored identity yields a category exactly when it is set and valid, and the category is the table's image of that identity |
| `Matching.BrowseReady` | src/bot.ts:430 | browsing needs a saved name, age and identity, and is refused without any audience row |
| `Matching.Fetched` | src/bot.ts:464-471 | the query returns only visible profiles of other users; an age outside the window, or an empty window, excludes a profile |
| `Matching.MatchMe` | src/bot.ts:477-495 | an accepted candidate has a valid identity whose category the viewer seeks (or the viewer seeks ANY); a viewer with an invalid identity is accepted only by a candidate with an ANY row; liked and reported users are refused |
| `Matching.BuildCandidateQueue` | src/bot.ts:445-498 | the queue is no longer than the table and holds only ids of listed profiles |
| `Matching.Survivors` | src/bot.ts:464-497 | a profile survives iff it is listed, passes the query's conditions (other user, visible, named, age in window, identity set) and `matchMe` |
| `Matching.SurvivorsSubsequence` | src/bot.ts:473-497 | the filtered list is a subsequence of the listing |
| `Matching.SurvivorsNewestFirst` | src/bot.ts:473-497 | filtering a newest-first listing keeps it newest first |
| `Matching.SurvivorsUniqueIds` | src/bot.ts:497 | filtering a listing with unique ids keeps them unique |
| `Matching.QueueSound` | src/bot.ts:464-497 | every queued id belongs to a listed profile that passes the query and `matchMe` |
| `Matching.QueueComplete` | src/bot.ts:477-497 | every listed profile that passes the query and `matchMe` is queued |
| `Matching.QueueExcludes` | src/bot.ts:466-494 | no profile of the viewer, of a liked user or of a reported user is ever queued |
| `Matching.QueueDistinct` | src/bot.ts:497 | the queue holds no profile id twice |
| `Matching.QueueRespectsAgeWindow` | src/bot.ts:461-469 | every queued profile has an age inside the effective window |
| `Matching.MatchMeSymmetric` | src/bot.ts:477-495 | between two users with valid identities who have neither liked nor reported each other, each accepts the other or neither does |
| `Matching.InvalidViewerIdentityNeedsAny` | src/bot.ts:487-489 | a viewer whose stored identity is invalid is accepted only by candidates seeking ANY |
| `Wizard.GoNext` | src/bot.ts:272-312 | forward navigation moves exactly one position along the six steps; idle and confirm do not move |
| `Wizard.GoBack` | src/bot.ts:314-346 | back navigation moves exactly one position back; idle and the first step do not move |
| `Wizard.GoBackUndoesGoNext` | src/bot.ts:272-346 | going back after going forward returns to the same step |
| `Wizard.GoNextUndoesGoBack` | src/bot.ts:272-346 | going forward after going back returns to the same step |
| `Wizard.Trim` | src/bot.ts:652 | the trimmed text is an infix of the input with only white space cut from both ends, and neither starts nor ends with white space |
| `Wizard.TrimIdempotent` | src/bot.ts:652 | trimming twice is trimming once |
| `Wizard.Truncate` | src/bot.ts:655 | the stored text is a prefix of the input: the whole input when it fits, else exactly its first n characters |
| `Wizard.AgeInput` | src/bot.ts:659-666 | an accepted age is an integer read from the text and lies in 13..120 |
| `Wizard.AgeInputAcceptsRange` | src/bot.ts:659-666 | every age 13..120 typed as a numeral is accepted with its value |
| `Wizard.AgeInputRejectsOutside` | src/bot.ts:661-663 | integers outside 13..120 are refused |
| `Wizard.ParseInteger` | src/bot.ts:660-661 | text read as an integer is non-empty, a negative value needs a leading minus, and text starting with anything but a digit or sign is refused |
| `Wizard.ParseIntegerDecimal` | src/bot.ts:660 | the integer reader reads back every numeral, with or without a minus sign |
| `Wizard.Dedup` | src/bot.ts:701-703 | rebuilding the selection through a set keeps the same members, each once |
| `Wizard.Toggle` | src/bot.ts:701-703 | toggling an audience flips its membership, keeps every other membership, and leaves no duplicates |
| `Wizard.ToggleTwiceSameSelection` | src/bot.ts:701-703 | toggling the same audience twice gives back the same set of audiences |
| `Wizard.ToggleOnOff` | src/bot.ts:701-703 | selecting then deselecting an audience restores a duplicate-free selection exactly |
| `Wizard.IsTempComplete` | src/bot.ts:153-154 | a complete wizard has a name, age, identity and a non-empty audience selection; the empty wizard is not complete |
| `Wizard.SavedProfile` | src/bot.ts:733-757 | the saved row keeps the id, user and collected fields, is visible, is adult iff the age is at least 18, carries the save time, and its audience rows read back as the selection |
| `Wizard.AudienceCodesReadBack` | src/bot.ts:754-757 | the audience rows written on save read back as exactly the selected audiences |
| `Wizard.SavedProfileBrowseReady` | src/bot.ts:153-154 | a wizard that passes the completeness test saves a profile that passes the browse gate |
| `Settings.UpdateAgePref` | src/bot.ts:806-822 | the moved bound lands on its target when allowed and otherwise on the nearer end of 13..120 or the other bound; the other bound is kept; the lower bound never exceeds the upper |
| `Settings.UpdateKeepsWellFormed` | src/bot.ts:813-817 | bounds inside 13..120 and in order stay so after any button |
| `Settings.ResetRestoresDefaultWindow` | src/bot.ts:831-836 | bounds reset to null give the same browse window and settings display as having no preferences row |
| `Settings.MaxButtonPinsAdultMinimum` | src/bot.ts:461 | a minor without stored bounds browses from 13, but after a Max button the stored lower bound is 18 |
| `Browse.LiveIds` | src/bot.ts:508-512 | the live ids are exactly those the lookup by id finds |
| `Browse.NextLive` | src/bot.ts:500-515 | the cursor moves to the first live entry at or after it, skipping only entries whose profile is gone, or to the end |
| `Browse.Show` | src/bot.ts:500-517 | the session ends iff no live entry remains at or after the cursor; otherwise the first live entry is shown and becomes the current profile, and the cursor never moves back |
| `Browse.Advance` | src/bot.ts:534 | an action moves the cursor exactly one entry on and keeps the queue and the profile on screen |
| `Browse.ActionAdvancesCursor` | src/bot.ts:534 | after skip, like or report a surviving session's cursor is strictly further on and inside the queue |
| `Browse.ActionsBounded` | src/bot.ts:586 | after n actions the cursor has advanced at least n, so a session cannot outlast its queue |
| `Browse.LikeAndCheck` | src/bot.ts:555-568 | the like adds its edge and nothing else, and is a match iff the reverse edge then exists |
| `Browse.LikeIdempotent` | src/bot.ts:555-561 | liking the same user twice leaves the store and the verdict as after the first like |
| `Browse.MatchIffReverseLike` | src/bot.ts:564-568 | between different users, a like is a match iff the other had already liked back |
| `Browse.SecondLikeMatches` | src/bot.ts:568-584 | of two users who like each other, the first like is saved and the answering like is a match |
| `Browse.FindLabel` | src/bot.ts:633 | the lookup returns the label of an entry with the given code, and nothing only when no entry has it |
| `Browse.ReasonLabel` | src/bot.ts:591-597 | the stored reason is always one of the five labels: that of the chosen code, or "Sonstiges" for an unknown code |
| `Browse.ReportExcludesFromLaterQueues` | src/bot.ts:634-636 | once a report is stored, no later queue of the reporter offers the reported user's profile |
| `Browse.LikeExcludesFromLaterQueues` | src/bot.ts:555-561 | once a like is stored, no later queue of the liker offers the liked user's profile |
| `Bot.WithoutUser` | src/bot.ts:733-734 | the upsert keyed by user leaves exactly the other users' rows besides the written one |
| `Bot.NextProfileId` | src/bot.ts:743-744 | a created profile gets an id larger than every existing one |
| `Bot.WithoutUserKeepsTable` | src/bot.ts:733-734 | removing one user's row keeps the profile ids and owners unique and the table newest first |
| `Bot.ReportsWithout` | src/bot.ts:864 | the reports kept are exactly those in which the user is neither reporter nor reported |
| `Bot.HasCurrent` | src/bot.ts:542 | a session has a current profile only when one is set and non-zero, the truthiness test of the handlers |
| `Bot.Store.UpsertLike` | src/bot.ts:555-566 | the in-place like upsert and reverse-edge check are those of `LikeAndCheck` |
| `Bot.Store.CreateReport` | src/bot.ts:634-636 | the report table gains exactly the new row at its end |
| `Bot.Store.OpenSettings` | src/bot.ts:770-795 | a missing preferences row is created with both bounds null, an existing one is kept, and the shown bounds are the stored ones or 18..120 |
| `Bot.Store.ResetAgePreference` | src/bot.ts:831-837 | with a preferences row both bounds become null; without one the update fails and nothing changes |
| `Bot.Store.DeleteUser` | src/bot.ts:859-873 | the user's likes in either direction, reports as either party, profile and preferences row are removed and nothing else; the table invariant is kept |
| `Bot.Store.UpdateAgePreference` | src/bot.ts:806-822 | the stored preferences of the user become the clamped bounds; other users' rows are unchanged |
| `Bot.Store.SaveProfile` | src/bot.ts:733-757 | the user's old row is replaced by the written row, which comes first as the newest; unique ids, one profile per user and newest-first order are kept |
| `Bot.Session.ShowNextCandidate` | src/bot.ts:500-527 | the loop that skips vanished profiles leaves the session and result given by `Show`; no session gives the end |
| `Bot.Session.StartBrowse` | src/bot.ts:424-443 | an incomplete or missing profile is refused; otherwise the queue is built from the store, holds no id twice and no profile of the user, of a liked or of a reported user; the session starts at cursor 0, and the first candidate is shown unless the queue is empty |
| `Bot.Session.Skip` | src/bot.ts:529-536 | the skip counter is checked first; a refused call changes nothing else; without a session nothing moves; otherwise the cursor advances by one and the next candidate is shown |
| `Bot.Session.Like` | src/bot.ts:538-588 | the like counter is checked first; without a current profile nothing changes; a vanished profile is skipped; otherwise the like is upserted, match or saved is decided by the reverse edge, and the cursor advances by one |
| `Bot.Session.OpenReportMenu` | src/bot.ts:599-611 | the report counter is checked; the reason menu opens only while a profile is on screen |
| `Bot.Session.ChooseReportReason` | src/bot.ts:613-641 | cancel changes nothing; with a current, existing profile one report row with the reason's label is added and the cursor advances by one; otherwise nothing changes |
| `Bot.Session.StartWizard` | src/bot.ts:226-270 | the wizard opens at the name step, prefilled from the saved profile with its valid audiences, or empty |
| `Bot.Session.Cancel` | src/bot.ts:378-382 | the wizard closes and the collected fields are forgotten |
| `Bot.Session.Back` | src/bot.ts:694-723 | a back button moves one step back |
| `Bot.Session.OnText` | src/bot.ts:648-674 | on the name, age and search-text steps the trimmed text is stored (truncated to 40 or 500, or the age when valid) and the wizard moves on; an invalid age changes nothing; other steps pass the message on |
| `Bot.Session.ChooseIdentity` | src/bot.ts:681-692 | a valid identity is stored and the wizard goes to the audience step; an invalid one changes nothing |
| `Bot.Session.ToggleAudience` | src/bot.ts:696-708 | a valid audience is toggled in the selection; an invalid one changes nothing |
| `Bot.Session.NextFromLooking` | src/bot.ts:711-721 | the audience step can be left only with at least one audience selected |
| `Bot.Session.ConfirmSave` | src/bot.ts:724-763 | an incomplete wizard is refused; a complete one writes the user's profile row (same id, or a new one) and closes the wizard; the table invariant is kept |

## Left out

- The database's `take: 50` cap on the candidate query is not modelled: the query's conditions are applied to the whole profile table, which is taken to be in most-recently-updated-first order already.
- Telegram I/O: replies, keyboards, message edits, callback answers, `formatProfileCard`, `renderSummary`, `usernameOrLink` and the German messages; the handlers return outcome values instead.
- The match notification sent to the other user (and the swallowed delivery failure) is not modelled; `Matched` carries that user's id.
- The user row upserts in `/start` and in the wizard, `/myprofile` and `toggle_adult` are not modelled: the queue never reads the user table, the display flag `showAdult` or the profile card. The deletion of photos and of the user row in the delete confirmation is left out for the same reason.
- Bot.Session.ConfirmSave: assumes the clock is not behind any stored `updatedAt`, which the newest-first order of the table needs; the database sets the timestamp itself.
- `requireToken`, process exit, the bot start-up and error logging are I/O.
- `src/ai.ts`, `src/ui/mainMenu.ts`, `src/handlers/index.ts` and `src/lib/isAdmin.ts` are not part of this model.
- The rate limiter's key is the pair (user id, action) instead of the string "user:action"; the two are equivalent because a user id's decimal text contains no colon.
- Concurrency: the handlers are modelled one call at a time; interleavings of asynchronous handlers are not modelled.
- Wizard.AgeInput: reads integers only in plain decimal notation (sign, digits, optionally a point and zeros); JavaScript's `Number` also accepts exponent, hexadecimal, binary and octal forms and rounds long fractions to a double, and those inputs are refused by the model.
- Wizard.Truncate: counts Unicode characters, while JavaScript's `slice` counts UTF-16 code units, so the two differ on text with characters outside the Basic Multilingual Plane.
- Bot.NextProfileId: the database's auto-increment counter is modelled as one more than the largest id present, so ids of deleted rows at the top may be reused, which a database counter may not do.
- Ranking by shared tags, distance or radius filtering and suspension or shadowban flags do not exist in this code and are not modelled.
