# after8 back end: decision logic in Dafny

This project models the decision logic of the after8 dinner-club back end. The
back end is an Express service over a Prisma database. The model covers these
parts of it:

- **The compatibility matcher** (`MatchMaker`, `match_maker.dfy`). `save`
  validates a questionnaire submission and upserts its answers into the answer
  table. `getSimilarMatches` then works in three steps:
  - it scores every participant of an event against every other participant:
    the matching questions divided by the larger answer-set size, times 100;
  - it averages each participant's scores;
  - it puts each participant into one of six bands, from "90-100" down to
    "below-50".
- **The answer schema** (`MatcherValidator`, `matcher_validator.dfy`). A
  submission is valid when two things hold:
  - it is a non-empty array;
  - every answer names a question and carries a non-empty option or a scaled
    value.
- **Level assignment** (`Game`, `game.dfy`):
  - A user's score is ten per registration plus five per badge.
  - The first level in ascending minimum-score order whose range contains the
    score is assigned.
  - It also models the key whitelist of a level update and the defaults of a
    new level.
- **Badge assignment** (`Badges`, `badges.dfy`). A user's statistics are tested
  against each badge rule, using JavaScript truthiness. The badges earned are
  merged into the user's list without duplicates.
- **Registrations, invitations and reviews** (`Events`, `events.dfy`). This is
  a class over the three tables. It has one method per handler, and each
  returns a result or an error. The module also models the clause selection of
  the event filter.
- **The event schemas** (`EventValidators`, `events_validators.dfy`):
  - the digit-string price and the comma-separated keywords of the filter
    query, with `split` and `trim` modelled exactly;
  - the field constraints of event creation and update.

Three support modules are shared:

- `Js` (`js.dfy`) holds nullable values, results, and JavaScript numbers. A
  number is an exact real or NaN.
- `Schema` (`schema.dfy`) holds the database enumerations.
- `Seqs` (`seqs.dfy`) holds facts about sequences and maps that the loop
  proofs and store updates use.

The database is modelled as maps and sequences held in the fields of a class:

- the answer table of `MatchMaker.AnswerStore`;
- the user and level tables of `Game.GameStore`;
- the user and rule tables of `Badges.UserStore`;
- the registration, invitation, review and event-owner tables of
  `Events.EventsDb`.

Each handler that writes is a method, and its `ensures` give the whole new
state. Answers arrive already parsed from JSON, as datatypes.

## Behaviour worth noting

- **A pair with no answers.** When neither user of a pair has answers, the
  pair score `(matches / totalQ) * 100` is 0/0, which is NaN
  (`src/controllers/match-maker/match-maker.controller.ts:97-112`). NaN makes the average NaN, and every `>=` comparison
  then fails, so the user lands in "below-50" (`src/controllers/match-maker/match-maker.controller.ts:117-125`;
  `MatchMaker.AvgScoreRange`, `MatchMaker.BandOfInterval`).
- **A user without answers.** The answer map holds an object for every listed
  user (`src/controllers/match-maker/match-maker.controller.ts:69-76`). An empty object is truthy, so the guards at
  `src/controllers/match-maker/match-maker.controller.ts:84` and `src/controllers/match-maker/match-maker.controller.ts:94` never skip anyone, and a user without answers is
  still scored and compared. The model gives such a user an empty answer set.
- **No participants.** An event without participants gets the six empty
  groups it starts with (`src/controllers/match-maker/match-maker.controller.ts:78-80`). Only an empty event id is an error
  (`src/controllers/match-maker/match-maker.controller.ts:49-52`).
- **Symmetry.** The denominator is the larger of the two answer sets
  (`src/controllers/match-maker/match-maker.controller.ts:97`), so the pair score is symmetric
  (`MatchMaker.PairScoreSymmetric`).
- **The city filter.** The filter handler reads `city`
  (`src/controllers/events/events.controller.ts:138-143`), but the filter
  schema declares `venue` and no `city` (`src/validators/events.validators.ts:41-63`).
  Zod strips undeclared keys, so `city` is always undefined: no city clause
  is ever built, and the parsed venue is never used (`Events.FilterConditions`,
  `Events.VenueIgnored`).
- **Keywords.** `split(",")` never produces an empty list
  (`src/validators/events.validators.ts:58-62`). A keyword string that is
  present, even an empty one, therefore always adds a keyword clause
  (`src/controllers/events/events.controller.ts:145`;
  `Events.KeywordsAlwaysFilter`).

## Model

| member | source | states |
|---|---|---|
| MatcherValidator.AnswerIssues | src/validators/matcher.validator.ts:7-17 | An answer has no issue exactly when its questionId is non-empty and it has a non-null, non-empty optionId or a non-null scaledValue. An empty questionId reports "questionId is required" first. |
| MatcherValidator.ElementIssues | src/validators/matcher.validator.ts:5-18 | The element issues are empty exactly when every element is valid. |
| MatcherValidator.SafeParse | src/validators/matcher.validator.ts:3-20 | The parse succeeds exactly when the array is non-empty and every element is valid. Success returns the input. A failure carries at least one issue, and an empty array fails with "Answers array cannot be empty". |
| MatcherValidator.BothFieldsAccepted | src/validators/matcher.validator.ts:12-17 | An answer that has both an option and a scaled value is accepted. |
| MatcherValidator.EmptyOptionRejected | src/validators/matcher.validator.ts:8-17 | An empty optionId with a null scaledValue is rejected. An empty questionId adds its own issue in front. |
| MatchMaker.Upserted | src/controllers/match-maker/match-maker.controller.ts:17-38 | The upserts delete nothing, and every submitted question is stored afterwards. |
| MatchMaker.UpsertedLastWins | src/controllers/match-maker/match-maker.controller.ts:17-38 | After the batch, a question is stored exactly when it was stored before or was submitted. An unsubmitted question keeps its answer. A submitted question holds the last submitted answer for it, with a missing field stored as null. |
| MatchMaker.UpsertedUsable | src/controllers/match-maker/match-maker.controller.ts:17-38 | Upserting validated answers keeps every stored answer usable. |
| MatchMaker.AnswerStore.Save | src/controllers/match-maker/match-maker.controller.ts:7-38 | An invalid body fails with the single error "Invalid answers schema" and changes nothing. A valid body replaces exactly the caller's answers by the upserted ones, and preserves the invariant that every stored answer is usable. |
| MatchMaker.IsMatch | src/controllers/match-maker/match-maker.controller.ts:104-107 | A match needs a truthy equal option or two equal non-null scaled values, so both matching answers are usable. |
| MatchMaker.MatchingQuestions | src/controllers/match-maker/match-maker.controller.ts:99-110 | Only questions answered by both users can match. |
| MatchMaker.Percent | src/controllers/match-maker/match-maker.controller.ts:112 | `(matches / totalQ) * 100` is NaN exactly when totalQ is 0. Otherwise the score times totalQ is 100 times the matches. |
| MatchMaker.PairScore | src/controllers/match-maker/match-maker.controller.ts:97-112 | The share of matching questions out of the larger answer set. Its range and NaN case are stated by `PairScoreRange`, its symmetry by `PairScoreSymmetric`. |
| MatchMaker.PairScoreRange | src/controllers/match-maker/match-maker.controller.ts:97-112 | The matches never exceed the larger answer set. The score is NaN exactly when both answer sets are empty; otherwise it lies in [0, 100]. |
| MatchMaker.PairScoreSymmetric | src/controllers/match-maker/match-maker.controller.ts:97-110 | score(a, b) equals score(b, a). |
| MatchMaker.IdenticalAnswersScoreFull | src/controllers/match-maker/match-maker.controller.ts:104-112 | Identical non-empty answer sets whose answers are all usable score exactly 100. |
| MatchMaker.EmptyAnswersScoreZero | src/controllers/match-maker/match-maker.controller.ts:97-112 | An empty answer set scores 0 against a non-empty one. |
| MatchMaker.CountMatches | src/controllers/match-maker/match-maker.controller.ts:96-110 | The loop over A's questions counts exactly the matching questions. |
| MatchMaker.CompareCount | src/controllers/match-maker/match-maker.controller.ts:90-114 | `compareCount`: when no listed user is the user itself, every listed user is compared. |
| MatchMaker.TotalScore | src/controllers/match-maker/match-maker.controller.ts:86-113 | `totalScore`: with no comparisons it stays 0. Its range and its NaN case are stated by `TotalScoreRange` and `TotalScoreNaN`. |
| MatchMaker.AvgScore | src/controllers/match-maker/match-maker.controller.ts:117 | `compareCount > 0 ? totalScore / compareCount : 0`. Its range and NaN case are stated by `AvgScoreRange`, and its zero case by `SoleParticipantScoresZero`. |
| MatchMaker.CompareCountExcludesSelf | src/controllers/match-maker/match-maker.controller.ts:90-91 | A user is never compared with itself: a listed participant has fewer comparisons than there are users. |
| MatchMaker.CompareCountAtMost | src/controllers/match-maker/match-maker.controller.ts:90-114 | There are at most as many comparisons as users. |
| MatchMaker.CompareCountZero | src/controllers/match-maker/match-maker.controller.ts:90-117 | There are no comparisons exactly when every listed user is the user itself. |
| MatchMaker.TotalScoreRange | src/controllers/match-maker/match-maker.controller.ts:86-115 | A defined running total lies between 0 and 100 times the number of comparisons. |
| MatchMaker.TotalScoreNaN | src/controllers/match-maker/match-maker.controller.ts:97-113 | The total is NaN exactly when the user has no answers and some other compared user has none either. |
| MatchMaker.AvgScoreRange | src/controllers/match-maker/match-maker.controller.ts:117 | A defined average lies in [0, 100]. The average is NaN exactly when a 0/0 pair occurs. |
| MatchMaker.SoleParticipantScoresZero | src/controllers/match-maker/match-maker.controller.ts:117 | With nobody else to compare with, the average is 0. |
| MatchMaker.ComparePair | src/controllers/match-maker/match-maker.controller.ts:93-112 | One comparison computes the pair score: the matches over the larger answer-set size, times 100, NaN for 0/0. |
| MatchMaker.ScoreUser | src/controllers/match-maker/match-maker.controller.ts:83-117 | The nested loop computes the average that the specification function defines. |
| MatchMaker.BandOf | src/controllers/match-maker/match-maker.controller.ts:120-125 | The `>=` chain gives "below-50" exactly for NaN or a score under 50. Any other score lies in its band's interval, and "90-100" is open above. |
| MatchMaker.BandOfInterval | src/controllers/match-maker/match-maker.controller.ts:120-125 | A score in [0, 100] goes to band b exactly when it lies in b's half-open interval; 100 goes to "90-100". A boundary value goes to the higher band, and NaN goes to "below-50". |
| MatchMaker.Group | src/controllers/match-maker/match-maker.controller.ts:120-125 | A band's group holds only entries of that band, and is no longer than the participant list. |
| MatchMaker.Positions | src/controllers/match-maker/match-maker.controller.ts:82-125 | The positions at which a list of bands holds b, strictly ascending. Each listed position holds b, and every position holding b is listed. Applied to the participants' bands, these are the positions of band b's participants. |
| MatchMaker.GroupIsSubsequence | src/controllers/match-maker/match-maker.controller.ts:82-125 | Band b's group is the participants' entries at the positions of band b, in that order: `push` keeps input order and leaves nobody of the band out. |
| MatchMaker.GroupSizesSum | src/controllers/match-maker/match-maker.controller.ts:82-126 | The six group sizes add up to the number of participants. |
| MatchMaker.EveryParticipantPlaced | src/controllers/match-maker/match-maker.controller.ts:82-126 | Every participant's entry is in the group of its band. |
| MatchMaker.EntryName | src/controllers/match-maker/match-maker.controller.ts:118 | A missing name becomes "Unnamed User". |
| MatchMaker.GroupsStep | src/controllers/match-maker/match-maker.controller.ts:120-125 | One step of the outer loop pushes the entry onto its band's list. |
| MatchMaker.GetSimilarMatches | src/controllers/match-maker/match-maker.controller.ts:47-128 | An empty event id is the only error. Otherwise all six bands are present and each holds its participants' entries in input order. |
| MatchMaker.ExamplePairScores | src/controllers/match-maker/match-maker.controller.ts:97-112 | Example: one agreement out of two questions scores 50, and none scores 0. |
| MatchMaker.ExampleTotal | src/controllers/match-maker/match-maker.controller.ts:86-114 | Example: comparing U1 with U2 and U3 makes two comparisons with a running total of 50; U1 itself is skipped. |
| MatchMaker.ExampleAverage | src/controllers/match-maker/match-maker.controller.ts:117-125 | Example: scores of 50 and 0 average to 25, which is placed "below-50". |
| Game.NewScore | src/controllers/game/game.controller.ts:118-120 | The new score is 0 exactly when the user has no registrations and no badges. |
| Game.NewScoreSteps | src/controllers/game/game.controller.ts:118-120 | Each registration adds 10 whatever its status, and each badge adds 5. A missing badge list counts as none. |
| Game.Contains | src/controllers/game/game.controller.ts:136-139 | `newScore >= minScore && newScore <= maxScore`, with a null maxScore compared as 0. A level contains a score only when its minimum is at most that maximum. |
| Game.FindLevel | src/controllers/game/game.controller.ts:135-140 | The result is none exactly when no level contains the score. Otherwise it is the first containing level. |
| Game.Insert | src/controllers/game/game.controller.ts:127-129 | Insertion keeps the list sorted by minimum score and adds exactly the one level. |
| Game.SortByMinScore | src/controllers/game/game.controller.ts:127-129 | The query result is sorted ascending by minimum score, and is a permutation of the level table. |
| Game.FoundLevelIsLowest | src/controllers/game/game.controller.ts:127-140 | In the sorted list, the level found has the lowest minimum score of all levels containing the score. |
| Game.NullMaxContainsOnlyZero | src/controllers/game/game.controller.ts:135-140 | A null maxScore compares as 0, so such a level contains at most the score 0. |
| Game.NewLevel | src/controllers/game/game.controller.ts:73-88 | Every field is copied, and an absent threshold is stored as null. |
| Game.UpdateLevelData | src/controllers/game/game.controller.ts:8-45 | Missing ids give "Invalid format". Otherwise the payload holds exactly the whitelisted keys present in the data, with their values unchanged. |
| Game.GameStore.CreateNewLevel | src/controllers/game/game.controller.ts:59-90 | A missing caller id fails. Otherwise exactly the new level is appended. |
| Game.GameStore.AssignLevel | src/controllers/game/game.controller.ts:97-165 | With no caller id, or an unknown user, the call fails and nothing changes. Otherwise the new score is stored before the level lookup. With no levels the call fails, and with no containing level the levelId is unchanged; the stored score persists in both cases. When a level contains the score, it gets the first containing level in ascending minScore order. |
| Badges.Count | src/controllers/user/user.controller.ts:264 | `filter(...).length` is the multiplicity of the value. |
| Badges.AvgRating | src/controllers/user/user.controller.ts:265 | The average rating is NaN exactly when there are no reviews. |
| Badges.MaxCommentLength | src/controllers/user/user.controller.ts:267 | The value is NaN exactly when some comment is null. Otherwise it is at least every comment length, and is 0 or one of those lengths. |
| Badges.Stats | src/controllers/user/user.controller.ts:256-268 | dinnersAttended counts only APPROVED registrations. dinnersHosted counts hosted events. fiveStarReviews counts ratings equal to 5. |
| Badges.Awards | src/controllers/user/user.controller.ts:273-329 | The switch over the rule's badge, one threshold test per case, and nothing for a badge without a case. Its consequences are stated by `AwardsEdgeCases` and `NewBadges`. |
| Badges.AwardsEdgeCases | src/controllers/user/user.controller.ts:272-330 | A zero threshold never awards: a dinner, review, average-rating or comment-length threshold of 0 blocks its badge. GOLDEN_SPOON is never awarded without reviews. A null comment blocks THE_FOOD_ORACLE. HOST_TITLE is awarded exactly when both thresholds are truthy and met. THE_PLUS_ONE_MAGNET is never awarded. |
| Badges.NewBadges | src/controllers/user/user.controller.ts:270-331 | A badge is pushed exactly when some rule for it is passed. |
| Badges.Dedup | src/controllers/user/user.controller.ts:338 | `Array.from(new Set(s))` has no duplicates and the same elements as s. |
| Badges.DedupPrefix | src/controllers/user/user.controller.ts:338 | Deduplicating a longer list keeps the deduplicated prefix in front. |
| Badges.DedupAbsorbs | src/controllers/user/user.controller.ts:338 | Appending elements already present changes nothing. |
| Badges.DedupKeepsDistinct | src/controllers/user/user.controller.ts:338 | A list without duplicates is unchanged. |
| Badges.BadgeList | src/controllers/user/user.controller.ts:338 | The stored list `Array.from(new Set([...user.badges, ...newBadges]))` has no duplicates and holds exactly the old and the new badges. |
| Badges.BadgeListUnion | src/controllers/user/user.controller.ts:338 | The stored list holds exactly the old and the new badges, once each. No old badge is lost, and distinct old badges stay in front in order. |
| Badges.AssignBadgesIdempotent | src/controllers/user/user.controller.ts:272-338 | Running the assignment again on unchanged data gives the same list. |
| Badges.UserStore.AssignBadges | src/controllers/user/user.controller.ts:247-345 | A missing id or an unknown user fails and changes nothing. Otherwise the loop over the rules collects the new badges, and only the caller's badge list is replaced, by the union. |
| EventValidators.NatToDigits | src/validators/events.validators.ts:52-55 | The decimal notation of a natural number is a digit string without leading zeros. |
| EventValidators.DigitsValueOfNotation | src/validators/events.validators.ts:52-55 | The value of the notation of n is n. |
| EventValidators.NotationOfDigitsValue | src/validators/events.validators.ts:52-55 | A digit string without leading zeros is the notation of its value. |
| EventValidators.ParsePrice | src/validators/events.validators.ts:52-57 | A price is accepted exactly when it is a non-empty string of ASCII digits. |
| EventValidators.ParsePriceRoundTrip | src/validators/events.validators.ts:52-57 | Every natural number, written in decimal, is accepted and read back. |
| EventValidators.ParsePriceExamples | src/validators/events.validators.ts:52-57 | "007" reads as 7. The empty string, "-5" and "1.5" are rejected. |
| EventValidators.Split | src/validators/events.validators.ts:60 | Splitting gives one piece more than there are commas, and no piece contains a comma. |
| EventValidators.JoinSplit | src/validators/events.validators.ts:60 | Joining the pieces with commas gives back the string. |
| EventValidators.SplitAppendPlain | src/validators/events.validators.ts:60 | Text without commas extends the last piece. |
| EventValidators.SplitJoin | src/validators/events.validators.ts:60 | Comma-free pieces joined and split again are the same pieces. |
| EventValidators.FirstNonSpace | src/validators/events.validators.ts:60 | The index found is the first non-whitespace position at or after the start, with only whitespace skipped. |
| EventValidators.EndOfText | src/validators/events.validators.ts:60 | The index found is the end of the text: only whitespace follows it, and the character before it is not whitespace. |
| EventValidators.TrimBounds | src/validators/events.validators.ts:60 | The cut points leave only whitespace before and after, and, when something is left, its first and last characters are not whitespace. |
| EventValidators.Trim | src/validators/events.validators.ts:60 | The result is no longer than the string and neither starts nor ends with whitespace. |
| EventValidators.TrimIdempotent | src/validators/events.validators.ts:60 | Trimming twice is trimming once. |
| EventValidators.TrimAllWhitespace | src/validators/events.validators.ts:60 | A string made only of whitespace trims to the empty string. |
| EventValidators.ParseKeywords | src/validators/events.validators.ts:58-62 | There are (commas + 1) keywords, each a trimmed piece. |
| EventValidators.KeywordsWithoutComma | src/validators/events.validators.ts:58-62 | A string without commas gives one trimmed keyword. |
| EventValidators.ParseFilter | src/validators/events.validators.ts:41-63 | The query is accepted exactly when a present name and a present venue are non-empty and a present price is a digit string. The parsed values are the given ones, with the price's decimal value and the trimmed keywords. |
| EventValidators.PlanOf | src/validators/events.validators.ts:3 | An absent plan defaults to BASIC. Otherwise only BASIC, GOLD or PLATINUM are accepted. |
| EventValidators.SeatsIssues | src/validators/events.validators.ts:7-9 | A seat count has no issue exactly when it is an integer in [1, 2^53 - 1]. A fraction reports only the integer check, because that failure stops the positive check. A non-integer is never reported as non-positive. |
| EventValidators.ParseCreate | src/validators/events.validators.ts:5-16 | The body is accepted exactly when all of these hold: name and venue are non-empty strings, maxSeats is a positive safe integer (at most 2^53 - 1), price is positive, and the plan is valid. The parsed data copies the fields. |
| EventValidators.KeywordsOf | src/validators/events.validators.ts:36 | Keywords may be absent or a string array; anything else fails. |
| EventValidators.ParseUpdate | src/validators/events.validators.ts:24-38 | The update schema accepts exactly the bodies the create constraints accept, including the safe-integer bound on maxSeats, provided the keywords are well-typed. |
| EventValidators.UpdateAgreesWithCreate | src/validators/events.validators.ts:24-38 | Update parsing accepts and parses the shared fields exactly as create parsing does. |
| EventValidators.FractionalSeatsStopSeatChecks | src/validators/events.validators.ts:7-15 | -1.5 seats reports only the integer check. 2^53 seats fails the integer check, and -2^53 fails it and then the positive check. A zero price is rejected. A valid body with no plan parses with plan BASIC. |
| Events.FilterConditions | src/controllers/events/events.controller.ts:138-147 | There are four clauses, and a clause is present only for a truthy field: a zero price and an empty keyword list add none. The city slot is always the empty clause `{}`, so a city clause never occurs. |
| Events.VenueIgnored | src/controllers/events/events.controller.ts:138-147 | The parsed venue does not affect the conditions. |
| Events.ZeroPriceFiltersNothing | src/controllers/events/events.controller.ts:144 | A price written only with zeros ("0", "00", ...) reads as 0, which is falsy, so it adds no price clause. |
| Events.KeywordsAlwaysFilter | src/controllers/events/events.controller.ts:145 | A keyword string that is present always adds a keyword clause. |
| Events.ReviewRows | src/controllers/events/events.controller.ts:462-468 | Each submitted entry gives exactly one row, in order, carrying the event, the user, the category, the rating and the comment. |
| Events.EventsDb.Register | src/controllers/events/events.controller.ts:184-220 | An empty event id or user id fails. An existing registration is reported with its status and nothing changes. Otherwise a PENDING registration is added and the event's userId is overwritten with the registrant. The table invariant is kept. |
| Events.EventsDb.CheckRegisteredUser | src/controllers/events/events.controller.ts:227-247 | Empty ids fail. Otherwise the answer is true exactly when the registration exists. |
| Events.EventsDb.CancelRegistration | src/controllers/events/events.controller.ts:253-271 | Exactly the (event, user) registration is removed. A missing row fails and changes nothing. |
| Events.EventsDb.SendInvitation | src/controllers/events/events.controller.ts:278-334 | The call fails unless the receiver is registered. It also fails if any invitation for (event, receiver) exists, whatever its status. On success the invitation is SENT, from the caller, and the receiver's registration becomes PENDING. |
| Events.EventsDb.RejectInvitation | src/controllers/events/events.controller.ts:341-383 | The receiver's registration is required, and a missing invitation fails with nothing changed. Otherwise the invitation becomes DECLINED and the registration REJECTED; nothing else changes. |
| Events.EventsDb.AcceptInvitation | src/controllers/events/events.controller.ts:390-436 | The call requires a SENT invitation to the caller, and marks it ACCEPTED before the registration is looked up. A missing registration then fails, with the invitation left ACCEPTED. Otherwise the registration becomes APPROVED. |
| Events.EventsDb.SubmitReview | src/controllers/events/events.controller.ts:442-474 | A missing event id, a non-array or an empty array fails. An existing review for (event, user) fails. Otherwise exactly one row per entry is appended. |
| Events.RegisterThenCancel | src/controllers/events/events.controller.ts:184-271 | After a fresh registration, the check reports it, and cancelling restores the registration table. |
| Events.InviteThenAccept | src/controllers/events/events.controller.ts:278-436 | Sending and then accepting leaves the registration APPROVED and the invitation ACCEPTED. A second send fails. |
| Events.RejectThenAccept | src/controllers/events/events.controller.ts:341-436 | A rejected invitation can no longer be accepted. |
| Events.ReviewTwice | src/controllers/events/events.controller.ts:442-474 | A second review submission for the same event and user is refused. |

## Left out

- Prisma, Supabase, Express requests and responses, `sendResponse`, and the propagation of `AppError` through `next`: these are I/O. The database is modelled as maps and sequences, and an error as a `Result`. HTTP status codes and response messages are not modelled. `save` and `getSimilarMatches` fail with one error value each; the answer schema's own issues are kept only by `MatcherValidator.SafeParse`.
- The routers, `src/app.ts` and the role middleware: these are wiring.
- The pass-through event handlers `create`, `deleteEvent`, `update`, `all`, `getById`, `search`, `getReviews`, `invitedEvents` and `attendedEvents`: each is a single database call. The `!invitedEvents` checks in the last two can never fire. Every user handler except `assignBadges` is left out for the same reason.
- The user, game and environment validators: these are declarative shapes over library checks. `updateLevelData` and `createNewLevel` therefore take their input already parsed. The level update itself, a store write, is not applied.
- The invitation body schemas: they are imported by the events controller but are not defined in `src/validators/events.validators.ts`. The invitation handlers take the event and receiver ids already parsed.
- `scheduled` in the event schemas: it relies on `Date.parse` / `new Date`, which are foreign date parsing.
- EventValidators.ParseCreate: zod's issue messages and paths are modelled only by which check failed.
- EventValidators.ParseUpdate: the same holds for the update schema's issues.
- EventValidators.ParseFilter: the same holds for the filter schema's issues, which are modelled as one issue per failed key.
- IEEE-754 rounding: scores, averages and ratings are exact reals, and `Number()` on very long digit strings is an exact natural. Infinity never arises, because every division in the core either has a positive denominator or is 0/0.
- Comment lengths are counted in code points, not in UTF-16 code units as JavaScript does.
- `prisma.$transaction`: its atomicity and concurrency are not modelled. The upserts run as a sequential batch, and a valid batch cannot fail in the model.
- Ties between levels with equal minimum scores: the database order of such levels is unspecified. The model uses one fixed order (insertion sort).
- The response of `updateLevelData` at `src/controllers/game/game.controller.ts:52` returns the function reference instead of the updated level. Responses are not modelled, so neither is this defect.
- Referential integrity: the model treats every event id and user id as naming an existing row. Prisma's foreign-key failures are not modelled, nor the failure of `event.update` in `register` for a missing event.
- Review ratings are assumed to be non-null integers.
- The `referrals` statistic is not computed in the source, and THE_PLUS_ONE_MAGNET's case is commented out there. The rule's `minReferrals` threshold is carried but never read.
