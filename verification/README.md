# Ampla: verified model

Ampla is a message hub and task board for agents: a hub routes messages between agents, keeps
shared boards, runs schedules and notifies people, and a daemon beside each agent stores its
messages and answers some of them. This project models the parts of it that decide something and
proves what they promise, for all inputs, all runs and all interleavings.

- **Boards** (`KanbanRank`, `KanbanTable`, `KanbanDeps`, `KanbanMove`, `KanbanRuns`,
  `KanbanService`). Cards are ordered by fractional rank strings. A move is shown to refine plain
  insertion into a list, through collisions, retries and re-spreads. The dependency graph stays
  acyclic in every run, so the gate on done columns never deadlocks. Ranks are sequences of digit
  values over base 62, compared as strings are; the empty sequence stands for an absent bound.
- **Rate limits** (`RateLimit`). Trace bounds of the sliding window, the rolling hour and the token
  bucket; times and tokens are reals.
- **Schedules** (`Calendar`, `Cron`, `Scheduler`). Cron fields denote unions of arithmetic
  progressions; the search is proved against the least match over a concrete Gregorian calendar,
  and the one-year horizon is characterised exactly. An instant counts microseconds from 1 January
  of year 1. The five fields and the rule that either day field suffices when both are restricted
  follow the crontab utility of IEEE Std 1003.1, INPUT FILES; steps are an extension.
- **Messages** (`Messaging`, `MessageStore`, `Delivery`). Threads, delegations and the
  at-least-once protocol as a transition system in which frames and acknowledgements get lost,
  sockets are replaced and agents acknowledge messages that are not theirs.
- **Loop guard** (`LoopGuard`). Automatic replies under every interleaving of arrivals and runs.
- **Notifications** (`Notifications`). Threads per user and subject, gates, mute, cap, reopening.

Code that changes state is a class whose methods are proved to leave exactly the state a
specification function gives; the theorems are about those functions and their runs. Tables are
maps, queries are filters and sorts, clocks and fresh ids are parameters. A service call is one
atomic step, as the code assumes of its serialized writers; collisions come from ranks other cards
already hold. Where awaited calls do interleave (the daemon, the connections) each stretch between
two awaits is a step of its own.

## What the code does that its comments do not say

- `rank_between` asks for lo < hi, but does not end on bounds that differ by trailing lowest digits
  only; `RankBetweenEndsIff` gives the exact condition, which stored ranks always meet.
- `rebalance_ranks` is documented as evenly spaced. It gives the ranks of repeated appends, and
  beyond 288 cards the re-spread itself is longer than the trigger length.
- `_cron_next` is documented as always answering within a year for a valid expression.
  `AlwaysAnsweredIff` gives the exact condition.
- A refused move can leave a re-spread column behind. `RefusalWritesIff` says exactly when;
  `RefusedMoveRespreads` and `LimitRefusalRespreads` are two cases. The last resort fails under a
  lower anchor alone whenever another card follows it (`LastTryUnderOneAnchor`).
- A completion is described as idempotent. A card held by the limit of its done column fails each
  time it is completed, and `CompleteTwice` says exactly when the repeated call writes.
- The lifecycle comment says that done cards always have done dependencies. The gate looks one way
  only; `MoveKeepsDoneClosedIff` says exactly when a move keeps it, and `MoveCanOpenDoneSet` shows
  a move that does not.
- The loop guard is documented as a cap per thread. It is a cap per window of 50 messages: one
  thread can take any number of automatic replies (`AnyNumberOfReplies`), and the sixth becomes
  possible exactly when the conversation reaches 53 messages (`GuardReachesExactly`).
- The rolling hour keeps replies strictly younger than an hour. A closed hour can hold up to twice
  the maximum (`ClosedHourHoldsTwice`, `TwiceIsReached`), and more than the maximum exactly when
  replies stand on both its ends (`ClosedHourHoldsIff`).

## Model

| member | source | states |
|---|---|---|
| KanbanRank.BetweenIsBetween | hub/app/services/kanban_rank.py:29-61 | for all bounds that can be separated the rank lies strictly between them, is never empty, never ends in the lowest digit and is at most one digit longer than the longer bound |
| KanbanRank.RankBetween | hub/app/services/kanban_rank.py:37-61 | the digit loop, with its switch to an open upper bound, ends and returns that rank, for every pair of bounds that can be separated |
| KanbanRank.RankBetweenEndsIff | hub/app/services/kanban_rank.py:41-61 | the loop ends if and only if the upper bound is absent or the bounds differ by more than trailing lowest digits |
| KanbanRank.OrderedBoundsCanDiverge | hub/app/services/kanban_rank.py:30-48 | "A" < "A0", and no number of rounds ends the loop on them: lo < hi alone is not a sufficient contract |
| KanbanRank.StoredBoundsSeparable | hub/app/services/kanban_rank.py:29-35 | ranks the service stores, in the right order, always can be separated, so the loop never hangs on them |
| KanbanRank.WellFormedSeparable | hub/app/services/kanban_rank.py:34-35 | two stored ranks that differ by trailing lowest digits only are equal |
| KanbanRank.AboveIsAbove | hub/app/services/kanban_rank.py:43-61 | with no upper bound the result lies above the lower one and is at most one digit longer |
| KanbanRank.WithinIsWithin | hub/app/services/kanban_rank.py:41-61 | with both bounds the result lies inside them |
| KanbanRank.RebalanceRanks | hub/app/services/kanban_rank.py:64-78 | appending from an empty column count times gives exactly the closed-form ranks: i/6 copies of z, then one of V k s w y z |
| KanbanRank.AboveSpread | hub/app/services/kanban_rank.py:73-77 | appending after the i-th of these ranks yields the next one, which is greater |
| KanbanRank.SpreadAscends | hub/app/services/kanban_rank.py:64-68 | the re-spread ranks strictly ascend |
| KanbanRank.SpreadFitsIff | hub/app/services/kanban_rank.py:24-26 | all ranks of a re-spread column fit the length cap if and only if it has at most 288 cards |
| KanbanRank.BetweenSink | hub/app/services/kanban_rank.py:41-61 | prepending has the mirror closed form, one digit every five cards: 240 prepends fit the cap and the 241st does not |
| KanbanRank.MaxRankLen | hub/app/services/kanban_rank.py:81-83 | the greatest length among the ranks, 0 for none |
| KanbanTable.OrderExists | hub/app/repositories/kanban_repo.py:192-194 | every column has an order by rank |
| KanbanTable.OrderUnique | hub/app/repositories/kanban_repo.py:192-194 | and only one |
| KanbanTable.LastRankIs | hub/app/repositories/kanban_repo.py:200-208 | the last rank is the rank of the card no other card of the column follows |
| KanbanTable.RespreadKeepsLayout | hub/app/repositories/kanban_repo.py:248-261 | a re-spread keeps every card in its column and all relative orders, stores distinct well-formed ranks and raises each affected version by one |
| KanbanTable.SameLayoutSameOrder | hub/app/repositories/kanban_repo.py:248-261 | a re-spread changes no column order, with or without the card about to move |
| KanbanTable.PositionInOrder | hub/app/repositories/kanban_repo.py:257-259 | the i-th card of the order receives the i-th new rank |
| KanbanTable.DecimalRoundTrip | hub/app/repositories/kanban_repo.py:255 | the zero-padded index of a temporary rank can be read back, for indices of any width |
| KanbanTable.TempsDistinct | hub/app/repositories/kanban_repo.py:254-255 | temporary ranks of different cards differ, and none is made of rank digits only |
| KanbanTable.RespreadNeverCollides | hub/app/repositories/kanban_repo.py:248-260 | between any two row updates of either pass, in any order of the rows and for any column size, the unique index on column and rank holds |
| KanbanDeps.WouldCreateCycle | hub/app/services/kanban_service.py:857-873 | the stack search ends and answers true exactly when the card can be reached from the card it would depend on, despite duplicates on the stack |
| KanbanDeps.BuildGraph | hub/app/services/kanban_service.py:860-862 | the adjacency lists hold exactly the dependency rows |
| KanbanDeps.NewEdgeAcyclicIff | hub/app/services/kanban_service.py:857-859 | an edge keeps an acyclic graph acyclic if and only if its target cannot already reach its source |
| KanbanDeps.ReachesWithin | hub/app/repositories/kanban_repo.py:308-314 | restricting the search to edges leaving one board loses nothing when edges stay inside boards |
| KanbanDeps.SomeMemberWaitsForNone | hub/app/services/kanban_service.py:846-855 | in an acyclic graph every path inside a set of cards leads on to one that waits for no card of the set |
| KanbanMove.MoveRefinesInsertion | hub/app/services/kanban_service.py:390-438 | a successful move is list insertion: the destination reads as the other cards in their old order with the card inserted after the lower anchor and before the upper one, or at the end, through any collisions and re-spreads |
| KanbanMove.NeighbourMove | hub/app/services/kanban_service.py:390-438 | with anchors adjacent once the moved card is removed, or none, the move succeeds if and only if the version is the expected one, the column is on the card's board, every existing dependency is done when the column is a done one, and a card from elsewhere finds room; it then stands exactly in that slot |
| KanbanMove.GateErrorsIff | hub/app/services/kanban_service.py:401-409 | a stale version, a foreign column and a blocked card are answered in that order and exactly when they occur; only a done column asks for dependencies |
| KanbanMove.AnchorErrorsIff | hub/app/services/kanban_service.py:470-494 | past those tests, the self and stale anchor errors occur exactly as stated, 0 counting as no anchor and the lower anchor read first |
| KanbanMove.WaitingCardMoves | hub/app/services/kanban_service.py:406-409 | a concrete card that waits for an unfinished one moves between two ordinary columns |
| KanbanMove.MoveShape | hub/app/services/kanban_service.py:411-438 | every outcome is at most a re-spread plus at most one write, at a free well-formed rank strictly inside the bounds re-read at the moment of the write |
| KanbanMove.MoveKeepsTheRest | hub/app/services/kanban_service.py:390-438 | no call, successful or refused, changes cards of other columns, the relative order of other cards or anything of them but rank and version; a refused one changes no order |
| KanbanMove.RefusalWritesIff | hub/app/services/kanban_service.py:401-437 | a refused move has written if and only if its column holds cards, the gates and anchors let it through to a rank, and that rank is too long or the limit did not stop it |
| KanbanMove.RefusalWritesNothing | hub/app/services/kanban_service.py:401-437 | in terms of the error: only a refusal for the limit or for want of a free rank can have written |
| KanbanMove.LimitRefusalRespreads | hub/app/services/kanban_service.py:413-425 | a concrete full column where a move refused at the limit has still rewritten the column |
| KanbanMove.RefusedMoveRespreads | hub/app/services/kanban_service.py:431-437 | a concrete crowded column where the move is refused and every card of the column has still been rewritten with a new version |
| KanbanMove.LastTryUnderOneAnchor | hub/app/services/kanban_service.py:431-437 | with a lower anchor only, the last try after the re-spread succeeds if and only if no other card directly follows the anchor |
| KanbanMove.MoveRespectsLimit | hub/app/repositories/kanban_repo.py:231-234 | a card coming from another column never takes its destination over the limit |
| KanbanMove.BoundsAreSeparable | hub/app/services/kanban_service.py:470-485 | the bounds read from the table are stored ranks in the right order, so a rank between them exists |
| KanbanMove.SqueezeFits | hub/app/services/kanban_service.py:420-429 | a rank found by the retries is free and never above the first one tried nor below the lower bound |
| KanbanMove.FourthTryHolds | hub/app/services/kanban_service.py:420-429 | a concrete column where three tries collide and the fourth gives a free rank |
| KanbanRuns.StepKeepsValid | hub/app/services/kanban_service.py:252-438 | every call keeps ranks stored and unique per column, cards on their board, dependency rows inside one board and acyclic, columns distinctly ranked |
| KanbanRuns.NeverDeadlocks | hub/app/services/kanban_service.py:846-891 | over every run: each card that is not done reaches through its dependencies a card of the same board that is not done and not blocked, possibly itself |
| KanbanRuns.BoardCanBeFinished | hub/app/services/kanban_service.py:403-409 | from every valid table a run of moves takes every card of a board into a done column without a limit, one move for each unfinished card |
| KanbanRuns.AddDependencyRefusesCyclesOnly | hub/app/services/kanban_service.py:875-886 | between two cards of one board a dependency is accepted if and only if the graph stays acyclic |
| KanbanRuns.BoardCheckSuffices | hub/app/repositories/kanban_repo.py:308-314 | the check over one board decides reachability in the whole graph |
| KanbanRuns.ForwardRunKeepsDoneClosed | hub/app/services/kanban_service.py:403-409 | over every run with fixed done flags, no exits from done columns, no deletions and new dependencies of unfinished cards only, the done set stays closed under dependencies |
| KanbanRuns.MoveKeepsDoneClosedIff | hub/app/services/kanban_service.py:403-409 | a successful move keeps the done set closed if and only if it goes to a done column or no done card waits for the moved one |
| KanbanRuns.MoveCanOpenDoneSet | hub/app/services/kanban_service.py:403-409 | a concrete board where moving a card out of the done column succeeds and leaves a done card with a dependency that is not |
| KanbanRuns.DoneChains | hub/app/services/kanban_service.py:846-855 | with the done set closed, everything a done card reaches through dependencies is done |
| KanbanRuns.CompleteTwice | hub/app/services/kanban_service.py:784-834 | completing an event a second time is skipped, or fails as the first time when the limit holds the card; it writes again if and only if the limit holds the card, the appended rank is too long and the done column has at least 288 cards |
| KanbanRuns.FailsOnlyWhenHeld | hub/app/services/kanban_service.py:796-834 | a completion fails if and only if the card is ready, not done, and its done column is at its limit |
| KanbanRuns.DoneStaysDone | hub/app/services/kanban_service.py:802-804 | over every forward run a done card stays done, and completing it again is skipped and writes nothing |
| KanbanRuns.CompleteOutcome | hub/app/services/kanban_service.py:796-834 | a completion is skipped, done, or fails for the limit of the done column and for nothing else; a skipped one writes nothing |
| KanbanRuns.RunRaisesVersions | hub/app/services/kanban_service.py:334 | over every run without its deletion, the version of a card never decreases |
| KanbanRuns.NoLostUpdate | hub/app/services/kanban_service.py:401-402 | of two moves that read the same version, whatever happens between them, at most one succeeds; the other is refused as stale and writes nothing |
| KanbanRuns.OneLandingColumn | hub/app/services/kanban_service.py:208-244 | a board with exactly one landing column has exactly one after every run |
| KanbanRuns.LandingIs | hub/app/services/kanban_service.py:1092-1109 | the column a card lands in, flag by flag: the one asked for, else the leftmost with the landing flag, else the leftmost of the board |
| KanbanRuns.CreatedComesLast | hub/app/services/kanban_service.py:273-300 | a new card stands last in that column, in version 1, and no other card changes |
| KanbanRuns.CardsLandThere | hub/app/services/kanban_service.py:1092-1109 | over every run of a board with one landing column, a card created without a column lands in the column that has the flag then |
| KanbanRuns.ColumnEditLeaves | hub/app/services/kanban_service.py:208-232 | an edited column has its limit set, cleared by 0 or kept, its done flag set or kept, and the landing flag alone on its board if it was asked for; nothing else changes |
| KanbanRuns.NewColumnComesLast | hub/app/services/kanban_service.py:186-206 | a new column stands right of every column of its board, without flags |
| KanbanRuns.ColumnGoesIff | hub/app/services/kanban_service.py:232-241 | a column is deleted if and only if no card stands in it and it is not the landing column |
| KanbanRuns.ReadyCardIsCompleted | hub/app/services/kanban_service.py:796-834 | an unfinished card with every dependency done, whose board has room in its leftmost done column, is moved there by a completion, to the last place |
| KanbanService.Service.ListCardsInColumn | hub/app/repositories/kanban_repo.py:192-194 | returns the order of the column |
| KanbanService.Service.LastRankInColumn | hub/app/repositories/kanban_repo.py:200-208 | returns the greatest rank, none for an empty column |
| KanbanService.Service.DepsForBoard | hub/app/repositories/kanban_repo.py:308-314 | returns exactly the rows that leave the cards of the board |
| KanbanService.Service.CommitMove | hub/app/repositories/kanban_repo.py:214-246 | answers limit, collision or success as the count and the unique index dictate, and writes only on success |
| KanbanService.Service.RebalanceColumn | hub/app/repositories/kanban_repo.py:248-261 | the two passes end in the column re-spread in its order, the unique index holding after every row update |
| KanbanService.Service.WriteTemporaryRanks | hub/app/repositories/kanban_repo.py:254-256 | the first pass, row by row, under the unique index |
| KanbanService.Service.WriteNewRanks | hub/app/repositories/kanban_repo.py:257-259 | the second pass, row by row, under the unique index |
| KanbanService.Service.Rebalance | hub/app/services/kanban_service.py:496-498 | counts the column and re-spreads it |
| KanbanService.Service.MoveBounds | hub/app/services/kanban_service.py:470-494 | the bounds re-read from the anchors, with the self, stale and misordered anchor errors |
| KanbanService.Service.IsBlocked | hub/app/services/kanban_service.py:846-855 | true exactly when some existing dependency is outside the done columns |
| KanbanService.Service.MoveCard | hub/app/services/kanban_service.py:390-438 | the whole move changes the table exactly as specified and keeps it valid |
| KanbanService.Service.Position | hub/app/services/kanban_service.py:411-418 | the move after its gates: an overlong rank re-spreads the column first |
| KanbanService.Service.Attempt | hub/app/services/kanban_service.py:420-438 | the retries and then the last resort |
| KanbanService.Service.TryRanks | hub/app/services/kanban_service.py:420-429 | the tries, as many as it is given, end at the first free rank, at the limit, or with nothing written |
| KanbanService.Service.RespreadAndTry | hub/app/services/kanban_service.py:431-437 | the last resort: one more try on the re-spread column |
| KanbanService.Service.FirstDoneColumn | hub/app/repositories/kanban_repo.py:129-138 | returns the leftmost done column of the board, none if it has none |
| KanbanService.Service.LeftmostColumn | hub/app/repositories/kanban_repo.py:120-138 | returns the column of least rank among some columns of a board |
| KanbanService.Service.MoveCardToDone | hub/app/services/kanban_service.py:796-834 | a lifecycle completion, skipping a done or blocked card and a board without a done column |
| KanbanService.Service.CompleteCardForEvent | hub/app/services/kanban_service.py:784-794 | completes the newest card of the event, and does nothing when there is none |
| KanbanService.Service.ResolveLanding | hub/app/services/kanban_service.py:1092-1109 | the column asked for when it is on the board; otherwise the leftmost landing column, or the leftmost column; an error when there is none |
| KanbanService.Service.InsertCard | hub/app/services/kanban_service.py:273-300 | appends the card to the column it lands in, whatever the limit, or gives the error of the landing |
| KanbanService.Service.UpdateCard | hub/app/services/kanban_service.py:318-344 | refuses a stale version, otherwise edits and raises the version |
| KanbanService.Service.DeleteCard | hub/app/repositories/kanban_repo.py:263-268 | deletes exactly the cards no dependency row refers to |
| KanbanService.Service.AddDependency | hub/app/services/kanban_service.py:875-886 | adds the row or gives the error of the first failing test; an existing row is accepted as it is |
| KanbanService.Service.RemoveDependency | hub/app/services/kanban_service.py:893-901 | removes the row |
| RateLimit.WindowBound | hub/app/core/ratelimit.py:18-33 | in every run with a clock that never goes back, any closed window of the configured length holds at most the maximum of admitted calls of a key |
| RateLimit.AdmittedSpread | hub/app/core/ratelimit.py:25-33 | admitted calls the maximum apart lie more than a window apart |
| RateLimit.AdmittedIff | hub/app/core/ratelimit.py:25-33 | a call is admitted if and only if fewer than the maximum have been for its key or the one the maximum of places back is more than a window old; other keys play no part |
| RateLimit.SlidingWindowLimiter.Allow | hub/app/core/ratelimit.py:25-33 | admits exactly when the log of the key has room, and leaves the queue equal to the full log filtered by the window |
| RateLimit.SlidingWindowLimiter.Decide | hub/app/core/ratelimit.py:26-33 | pruning and counting the front of the queue gives the answer the full log gives |
| RateLimit.RepliesSpread | bridge/src/daemon/auto-responder.ts:577-585 | replies the maximum apart lie at least an hour apart |
| RateLimit.ReplyAdmittedIff | bridge/src/daemon/auto-responder.ts:577-585 | a reply is let through if and only if the one the maximum of places back, if any, left at least 3600000 milliseconds before the cutoff was read |
| RateLimit.HourBound | bridge/src/daemon/auto-responder.ts:577-585 | any hour open at its start holds at most the maximum of replies, under a fixed maximum |
| RateLimit.ClosedHourHoldsIff | bridge/src/daemon/auto-responder.ts:577-585 | a closed hour holds more than the maximum if and only if a reply stands on each of its ends with the maximum of places between them |
| RateLimit.ClosedHourHoldsTwice | bridge/src/daemon/auto-responder.ts:577-585 | no closed hour ever holds more than twice the maximum |
| RateLimit.TwiceIsReached | bridge/src/daemon/auto-responder.ts:578-579 | for every maximum a run with a burst at each end of an hour reaches twice the maximum |
| RateLimit.KeptIsEnough | bridge/src/daemon/auto-responder.ts:579 | forgetting replies older than one cutoff never changes a later answer |
| RateLimit.AutoResponder.AllowByRate | bridge/src/daemon/auto-responder.ts:577-585 | keeps the replies of the last 3600000 milliseconds, admits below the maximum and records the admission |
| RateLimit.BucketBound | hub/app/core/ratelimit.py:36-53 | over any stretch of any run the admitted calls are at most capacity + rate * elapsed time |
| RateLimit.TokensConserved | hub/app/core/ratelimit.py:46-53 | calls admitted plus tokens left never exceed the first level plus the inflow |
| RateLimit.LevelKept | hub/app/core/ratelimit.py:46-53 | tokens stay between 0 and the capacity in every run |
| RateLimit.SteadyClientNeverRefused | hub/app/core/ratelimit.py:46-53 | a client no faster than the rate is never refused |
| RateLimit.RestedBurst | hub/app/core/ratelimit.py:46-53 | a bucket left alone until full grants, at one moment, exactly as many calls as its capacity has whole tokens |
| RateLimit.TokenBucket.constructor | hub/app/core/ratelimit.py:37-44 | starts full, with a quarter of the minute rate, at least five, unless a burst is given |
| RateLimit.TokenBucket.Allow | hub/app/core/ratelimit.py:46-53 | one call refills, caps and takes at most one token |
| Calendar.DateOfCounts | hub/app/services/scheduler.py:107-119 | counting day by day agrees with the closed form of the proleptic Gregorian calendar |
| Calendar.DateIsReached | hub/app/services/scheduler.py:107-119 | every date is reached, on the day the closed form gives |
| Calendar.DaysBeforeInjective | hub/app/services/scheduler.py:107-119 | two dates with as many days before them are the same |
| Calendar.EveryYearComesRound | hub/app/services/scheduler.py:17-19 | any 366 consecutive days contain every month and day that every year has |
| Calendar.WeekdayOfMonthComesRound | hub/app/services/scheduler.py:17-19 | any 366 consecutive days contain every weekday of every month |
| Calendar.WeekdayIsAnchored | hub/app/services/scheduler.py:110 | the weekday counted from a Monday on 1 January of year 1 agrees, for every day, with the closed form of the calendar and Sunday 4 January 1970 |
| Cron.SplitJoins | hub/app/services/scheduler.py:82 | splitting loses nothing and leaves no separator in a piece |
| Cron.ParseField | hub/app/services/scheduler.py:80-99 | accepts exactly the well-formed fields and returns exactly the union of their bounded arithmetic progressions, never empty and within the field bounds |
| Cron.WordsKeepText | hub/app/services/scheduler.py:74 | the words of a text hold no blank and, put together, are the text without its blanks |
| Cron.WordsOfJoined | hub/app/services/scheduler.py:74 | words joined by single spaces are read back |
| Cron.ParseCron | hub/app/services/scheduler.py:73-77 | accepts exactly the texts of five words that are well-formed fields within the bounds of their positions, and gives what they denote |
| Cron.NumberDenotesItself | hub/app/services/scheduler.py:91-92 | a plain number within the bounds denotes itself and nothing else |
| Cron.StarIsEverything | hub/app/services/scheduler.py:87-88 | a star denotes the whole range of its field |
| Cron.RangeDenotesSteps | hub/app/services/scheduler.py:83-97 | "a-b/n" is valid exactly when a to b lies within the bounds and n is positive, and denotes exactly a, a + n and so on up to b |
| Cron.StarDenotesSteps | hub/app/services/scheduler.py:83-97 | "*/n" denotes exactly every n-th value of the field, from its first on |
| Cron.ListDenotesUnion | hub/app/services/scheduler.py:82-98 | a list is valid when both halves are and denotes exactly what either does |
| Cron.DecimalReadsBack | hub/app/services/scheduler.py:91-95 | the decimal text of every number reads back as that number |
| Cron.MatchesIsPermits | hub/app/services/scheduler.py:109-117 | a minute matches if and only if its minute, hour and month are in their sets and its date satisfies the day fields that are restricted, either of them when both are; weekdays are those of WeekdayIsAnchored |
| Cron.CronNext | hub/app/services/scheduler.py:102-120 | returns the least whole minute strictly after the instant that the expression permits, rule by rule, and nothing exactly when it permits no minute of the next 366 days |
| Cron.LeastMatch | hub/app/services/scheduler.py:107-119 | if any minute of the horizon matches there is a least one |
| Cron.OneFieldSuffices | hub/app/services/scheduler.py:114-116 | of seven midnights "0 0 1 * 1" permits exactly 1 February of year 1, a Thursday, by its date and 5 February, a Monday, by its weekday |
| Cron.EitherDayAnswer | hub/app/services/scheduler.py:102-120 | that text is valid, and searched from 29 January of year 1 it answers 1 February |
| Cron.AlwaysAnsweredIff | hub/app/services/scheduler.py:17-19 | the search answers from every start instant if and only if the weekday field is restricted or some permitted month and day exists in every year |
| Cron.NeverMatchesIff | hub/app/services/scheduler.py:17-19 | an expression never matches if and only if the weekday field is * and every permitted month and day is missing from the calendar |
| Cron.LeapDayParses | hub/app/services/scheduler.py:73-99 | the text "0 0 29 2 *" is valid and parses to midnight of 29 February |
| Cron.LeapDayExpressionUnanswered | hub/app/services/scheduler.py:17-19 | that valid text is left unanswered by the search that starts on 2 March of year 1 |
| Cron.LeapDayIsTheLast | hub/app/services/scheduler.py:102-120 | searched from any moment of a leap day it has no next match |
| Scheduler.NextRun | hub/app/services/scheduler.py:57-67 | the next run lies strictly after the instant and is an occurrence of the schedule |
| Scheduler.SchedulerEngine.ComputeNextRun | hub/app/services/scheduler.py:57-67 | computes it for intervals, one-time instants and cron expressions |
| Scheduler.SchedulerEngine.DuePage | hub/app/repositories/schedule_repo.py:43-56 | the first 100 due schedules in order of their next run |
| Scheduler.SchedulerEngine.RunDueSchedules | hub/app/services/scheduler_engine.py:63-91 | every schedule of the page is re-armed from now and gets the status of its fire; the others stay as they are |
| Scheduler.TickLeaves | hub/app/services/scheduler_engine.py:63-91 | a tick leaves exactly max(0, due - 100) schedules due |
| Scheduler.ConsecutiveFires | hub/app/services/scheduler_engine.py:73-77 | between two consecutive fires of a schedule in any run lies one of its occurrences: missed runs collapse into one fire |
| Scheduler.IntervalFiresApart | hub/app/services/scheduler.py:60-61 | two fires of an interval schedule are at least the interval apart |
| Scheduler.OnceFiresOnce | hub/app/services/scheduler.py:62-64 | a one-time schedule fires at most once in any run |
| Scheduler.DisabledNeverFires | hub/app/repositories/schedule_repo.py:43-56 | a disabled schedule never fires in any run |
| Scheduler.ArmedFires | hub/app/repositories/schedule_repo.py:43-56 | an enabled schedule fires in the first tick at or after the instant it is armed for and in none before, while at most 100 are due |
| Scheduler.OnceFiresExactlyOnce | hub/app/services/scheduler.py:62-64 | a one-time schedule armed for its instant fires in the first tick at or after it and in no other |
| Scheduler.IntervalFiresAgain | hub/app/services/scheduler.py:60-61 | after a fire an interval schedule fires again in the first tick at least the interval later |
| Scheduler.CronRearmsIff | hub/app/services/scheduler.py:57-67 | a cron schedule gets a next run from every instant if and only if its weekday field is restricted or some permitted month and day exists in every year |
| Scheduler.CronStaysArmed | hub/app/services/scheduler_engine.py:73-77 | such a schedule, once armed, stays armed over every run of ticks |
| Scheduler.LeapDayScheduleFiresOnce | hub/app/services/scheduler_engine.py:73-77 | a schedule for "0 0 29 2 *" that fires on a leap day is on no later page of any run |
| Scheduler.PassedOver | hub/app/repositories/schedule_repo.py:53-54 | a tick that passes a due schedule over takes 100 schedules from ahead of it and puts none back |
| Scheduler.NoStarvation | hub/app/repositories/schedule_repo.py:53-54 | a due schedule with at most 100 n schedules ahead of it fires within n ticks |
| Messaging.RunKeepsValid | hub/app/services/message_service.py:50-110 | over every run, allowlists changing in between: each message is in a thread whose root starts it and joins the same two agents, open delegations per delegator stay within the cap, and each result is a delegate-to-delegator message in the thread rooted at its task |
| Messaging.StepKeepsValid | hub/app/services/delegation_service.py:69-115 | each send, acknowledgement and delegation keeps that |
| Messaging.SettledForever | hub/app/repositories/delegation_repo.py:31-42 | a delegation completes at most once: no run changes a row that is not open |
| Messaging.CompletedExactlyByAnswer | hub/app/services/message_service.py:128-146 | an open delegation is completed by a send exactly when it is accepted, answers something, and goes from delegate to delegator in the thread the delegation started |
| Messaging.AnswerIsUnique | hub/app/repositories/delegation_repo.py:31-42 | a message answers at most one open delegation, so the row completed is determined |
| Messaging.SendErrorsIff | hub/app/services/message_service.py:60-90 | each error of a send occurs exactly under the written-out condition, in the order of the tests |
| Messaging.AllowTakesEffect | hub/app/services/message_service.py:74-81 | a changed allowlist takes effect at once: a message that starts a thread is accepted from the agents it names, or from all without one, and refused to the others |
| Messaging.ReplyInheritsThread | hub/app/services/message_service.py:83-90 | in a valid hub an accepted reply is stored in the thread of the message it answers, and a message that answers nothing starts its own |
| Messaging.AnswerCompletes | hub/app/services/message_service.py:128-146 | an accepted reply of the delegate to the delegator in the thread of an open delegation completes it with that reply as result |
| Messaging.DelegatedTaskCompletes | hub/app/services/delegation_service.py:69-115 | a task handed to an agent that accepts it, then any run: a reply of the delegate to the delegator that answers any message of the thread leaves the row completed, with that reply as result if it was still open |
| Messaging.DelegateReplyComplete | hub/app/services/message_service.py:128-146 | one such run, from an empty hub: task 1, row 7, reply 2 in thread 1, row completed with result 2 |
| Messaging.MessageService.SendMessage | hub/app/services/message_service.py:50-110 | succeeds exactly under the written-out conditions; stores the message in the thread of its parent, or in its own, and completes exactly the delegations it answers; an error writes nothing |
| Messaging.MessageService.MaybeCompleteDelegation | hub/app/services/message_service.py:128-146 | closes the open delegation the reply answers and no other |
| Messaging.MessageService.AckDelivery | hub/app/services/message_service.py:323-335 | only the recipient is answered, and only its first acknowledgement sets the delivery time |
| Messaging.MessageService.DelegateTask | hub/app/services/delegation_service.py:69-115 | a vanished delegator, self-delegation, the open cap and the errors of the send write nothing; a refused sender leaves a declined row; otherwise the task is sent and its row opened |
| MessageStore.AppendIsIdempotent | bridge/src/daemon/message-store.ts:50-57 | a redelivered message is kept once, with what was stored before it untouched |
| MessageStore.Store.constructor | bridge/src/daemon/message-store.ts:34-48 | reads back every line that parses and skips the others |
| MessageStore.Store.Append | bridge/src/daemon/message-store.ts:50-57 | appends unless the hub id is known, to memory and file alike |
| MessageStore.Store.MarkRead | bridge/src/daemon/message-store.ts:72-84 | marks exactly the records with the given ids, and a restart reads back the same |
| MessageStore.InboxAfterRead | bridge/src/daemon/message-store.ts:64-84 | marking messages as read takes exactly those out of the unread inbox |
| MessageStore.InboxHolds | bridge/src/daemon/message-store.ts:64-66 | the inbox holds exactly the incoming messages that have not been read |
| MessageStore.ParsedRecords | bridge/src/daemon/message-store.ts:94-97 | a rewritten file reads back as the records it was written from |
| Delivery.DeliveredMeansOneCopy | bridge/src/daemon/index.ts:98-118 | over every run with lost pushes, lost acknowledgements, redelivery and replaced sockets, a recorded delivery means exactly one copy, with the content sent, in the store of the recipient |
| Delivery.NothingIsLost | hub/app/repositories/message_repo.py:53-64 | at every later moment a message sent is stored once by its recipient, or has expired, or is in the pending snapshot of a hello made then |
| Delivery.OnlyTheRecipientDelivers | hub/app/api/routes/ws.py:328-346 | a delivery is recorded only by an acknowledgement from a socket authenticated as the recipient, at the time the hub handles it |
| Delivery.DeliveryTimeIsFinal | hub/app/services/message_service.py:332-334 | no run rewrites a message, and a delivery time once set never changes |
| Delivery.HelloRoundDrains | hub/app/api/routes/ws.py:128-157 | a hello round without losses is a possible run and leaves the agent with nothing pending |
| Delivery.AcksAreHandled | hub/app/api/routes/ws.py:204-212 | the hub works through the acknowledgements of a socket in order |
| Delivery.RunKeepsValid | hub/app/api/routes/ws.py:121-157 | over every run frames in flight, snapshots, stores and acknowledgements stay faithful to the hub table |
| Delivery.StepKeepsValid | hub/app/api/routes/ws.py:121-157 | each send, hello, registration, greeting, receipt, loss, acknowledgement, forged acknowledgement, disconnection and kick keeps that |
| Delivery.KeptStores | bridge/src/daemon/index.ts:98-116 | storing a frame keeps one copy of each of its messages and everything stored before |
| Delivery.PendingFor | hub/app/repositories/message_repo.py:53-64 | returns exactly the messages to the agent without delivery time and without an expiry that has come, oldest first |
| Delivery.PendingUnique | hub/app/repositories/message_repo.py:53-64 | that list is determined |
| Delivery.HelloFrame | hub/app/api/routes/ws.py:128-157 | the frame of a hello holds exactly the messages to its agent that are neither delivered nor expired at that moment |
| Delivery.ExpiredNeverReturns | hub/app/repositories/message_repo.py:53-64 | a message that has expired is in no snapshot taken then or at any later moment of any run |
| Delivery.SendIsPushed | hub/app/ws/connection_manager.py:67-71 | an accepted send to an agent whose socket is up puts the message on that socket, last in line, and on no other |
| Delivery.OnlineDelivery | hub/app/api/routes/ws.py:204-212 | a message to an agent that is online and idle is delivered by the push, the receipt and the acknowledgement |
| Delivery.ConnectionManager.ConnectAgent | hub/app/ws/connection_manager.py:32-39 | the newest connection replaces and closes the one before |
| Delivery.ConnectionManager.DisconnectAgent | hub/app/ws/connection_manager.py:41-47 | removes the connection only while it is still the current one |
| Delivery.ConnectionManager.KickAgent | hub/app/ws/connection_manager.py:49-59 | drops and closes the connection, if there is one |
| Delivery.ConnectionManager.Target | hub/app/ws/connection_manager.py:67-71 | a push never goes to a replaced or kicked socket |
| Delivery.RegistryStaysLive | hub/app/ws/connection_manager.py:32-75 | over every run each agent has at most one registered socket, its own, open and under no other name |
| Delivery.ConnectFollowsManager | hub/app/ws/connection_manager.py:32-39 | a registration in the protocol is the one the manager makes, within its terms |
| Delivery.LeaveFollowsManager | hub/app/ws/connection_manager.py:41-47 | so is the end of a connection |
| Delivery.KickFollowsManager | hub/app/ws/connection_manager.py:49-59 | so is a kick |
| Delivery.PushFollowsManager | hub/app/ws/connection_manager.py:67-71 | a push goes to the socket the manager names and to none other |
| LoopGuard.EveryInterleavingIsSafe | bridge/src/daemon/index.ts:142-172 | under every interleaving of arrivals, replies and run completions: per partner and thread, automatic replies among the last 50 stored messages plus admitted runs yet to reply never exceed 5; reservations equal the running count and are all released in the end |
| LoopGuard.StepIsSafe | bridge/src/daemon/index.ts:98-172 | each arrival, reply, end of a run, local message, reading and restart keeps that |
| LoopGuard.PersistedAfterPush | bridge/src/daemon/message-store.ts:60-62 | a stored message raises a recent count by at most itself, whatever slides out of the window |
| LoopGuard.ShortConversationTotal | bridge/src/daemon/index.ts:148-154 | while the conversation fits the window, replies ever stored in a thread stay within 5 |
| LoopGuard.QuietArrivals | bridge/src/daemon/index.ts:121-141 | a run of messages that are automatic replies, ask for nothing or arrive while the switch is off starts no run and takes no reservation |
| LoopGuard.OneMoreReply | bridge/src/daemon/index.ts:142-172 | from every idle state, for every partner and thread and for a request and a task alike, some run stores one more automatic reply in that thread and ends idle, no other kind but one that asks for nothing arriving |
| LoopGuard.AnyNumberOfReplies | bridge/src/daemon/index.ts:142-172 | from a fresh daemon some run stores any given number of automatic replies in one thread: the cap holds per window, not per thread |
| LoopGuard.GuardReachesExactly | bridge/src/daemon/index.ts:142-154 | some run of a fresh daemon stores more than five replies of a thread within a conversation of n messages if and only if n is at least 53 |
| LoopGuard.SixReplies | bridge/src/daemon/index.ts:142-172 | a run that stores six automatic replies of one thread in a conversation of 53 messages |
| LoopGuard.Daemon.OnMessage | bridge/src/daemon/index.ts:98-161 | stores, acknowledges after storing, and starts a run if and only if the switch is on, the body has no automatic prefix, the kind is request or task, and the message has no thread or the stored replies of the thread among the last 50 messages plus its reservations are fewer than 5 |
| LoopGuard.Daemon.OnReply | bridge/src/daemon/index.ts:221-239 | a sent reply is stored, with its prefix, in the thread of its trigger; no reservation changes |
| LoopGuard.Daemon.OnFinished | bridge/src/daemon/index.ts:165-171 | one reservation of the thread is given back however the run ends, and the entry goes with the last one |
| LoopGuard.Daemon.constructor | bridge/src/daemon/index.ts:91-94 | a restarted daemon begins without reservations on the history it reads back, the cap intact |
| Notifications.OneRowPerSubject | hub/app/repositories/notification_repo.py:27-34 | over every run there is one row per user and subject, so the lookup never finds two |
| Notifications.RelevanceOfReasons | hub/app/services/notification_service.py:27-43 | the reasons from the most to the least relevant, security alerts first, system last, an unknown reason just above it |
| Notifications.PriorityNeverDrops | hub/app/services/notification_service.py:180-182 | over every run the reason of a living row never loses priority |
| Notifications.DoneIsLeftOnlyBy | hub/app/services/notification_service.py:171-184 | a done row comes back if and only if its owner triages it so or a notice on its subject gets through |
| Notifications.DeliveredIff | hub/app/services/notification_service.py:110-188 | a notice gets through if and only if its reason is among those the level of the user lets in, its subject is not muted or the reason passes mutes, and it finds a row that is not done or that it may reopen, or starts one within the cap: reasons, levels and the hour written out |
| Notifications.RowShowsNotice | hub/app/services/notification_service.py:143-188 | the row of such a notice, field by field: a new one, or the old one with the latest title, actor and link, unread, not done, with the more relevant reason |
| Notifications.NoticeUnmutes | hub/app/services/notification_service.py:132-141 | an always-delivered notice lifts the mute of its subject and nothing else about preferences changes |
| Notifications.LevelTakesEffect | hub/app/services/notification_service.py:67-76 | a changed level takes effect at once: which reasons can get through at each level, and an unknown level is refused |
| Notifications.AlwaysDeliveredStays | hub/app/services/notification_service.py:124-188 | a mention, approval request or security alert reaches its user whatever the level, mute and cap, and over every later run its row stays unread, not done, not muted and at least as relevant, until its owner triages it, reads everything or mutes the subject |
| Notifications.PressingStays | hub/app/services/notification_service.py:110-188 | over every run in which its owner does not deal with it a row that demands attention lives on and keeps demanding it, sweeps and other users included |
| Notifications.LatestNoticeShown | hub/app/services/notification_service.py:124-188 | a notice that passes the gates, and starts a row within the cap or finds one it may touch, shows its title, actor and link in its row over every later run without another notice on the subject |
| Notifications.ShownUntilNext | hub/app/services/notification_service.py:174-188 | until the next notice on its subject a living row shows what it showed, over every run |
| Notifications.InboxesAreSeparate | hub/app/services/notification_service.py:248-271 | a run without calls for a user changes nothing that user has, but for done rows that sweeps remove |
| Notifications.NewThreadsPerHour | hub/app/services/notification_service.py:91-98 | over every run any max + 1 new threads of a user for capped reasons span more than an hour, prunes included |
| Notifications.StepKeepsValid | hub/app/services/notification_service.py:110-188 | each call keeps one row per subject and dates in order |
| Notifications.NotificationService.GetBySubject | hub/app/repositories/notification_repo.py:27-34 | finds the row of the subject, or none exactly when there is none |
| Notifications.NotificationService.Notify | hub/app/services/notification_service.py:110-188 | both gates, the re-subscription, the cap, creation and collapse, exactly as specified |
| Notifications.NotificationService.TriageRow | hub/app/services/notification_service.py:248-271 | only the owner triages; a row of another user is not found |
| Notifications.NotificationService.SetSubscription | hub/app/repositories/notification_repo.py:124-139 | sets the state and keeps the reason, refusing unknown states |
| Notifications.NotificationService.MarkEverythingRead | hub/app/repositories/notification_repo.py:102-109 | clears the unread rows of one user and no other |
| Notifications.PrunedIs | hub/app/repositories/notification_repo.py:91-100 | pruning keeps every row as it is but the done ones untouched for the given days, and all of them when the number of days is not positive |
| Notifications.NotificationService.PruneDone | hub/app/repositories/notification_repo.py:91-100 | removes exactly the done rows untouched for the given days and counts them |

## Left out

- The web panel, HTTP routes, schemas, migrations, sessions, audit records, logging, observer fan-out and presence: plumbing with no effect on the modelled state.
- Process spawning, the model runner, the unix-socket API, key checks, secret filters and prompt building: foreign calls and opaque text.
- Roles, capabilities, grants, board sharing, approvals and profile updates: short case splits.
- Instants given as ISO text, time zones and datetime overflow: instants are numbers here.
- Cron.ParseField: reads ASCII digits only, because which other digits `int` accepts is a table of the Unicode library.
- Deleting boards, comments and the fields of a card other than its position, version and origin: `text` stands for what an edit changes.
- The schedule edits, run-now calls, daemon reports and maintenance sweeps: a run of ticks contains fires only, so the bounds are about runs without them.
- The size and blank tests of a message body: one flag says whether both pass.
- The notification and the event card a send or a completed delegation may also produce: both are modelled on their own.
- The frame that tells a sender of a delivery, and the error frames, limits and heartbeat of a connection.
- `mark_delivered` of the message service, which no caller uses.
- Several daemons of one agent with separate stores: each agent has one store, whatever number of sockets it opens.
- An agent that acknowledges a message of its own that it never received: the daemon acknowledges only what it has stored.
- A daemon that stops between sending a reply and storing it: a restart keeps the stored history and drops the runs, so such a reply is not counted, as in the code.
- Automatic notices that are sent without being stored (a blocked reply, an escalation): the guard does not count them and neither does the model.
- Records with a thread and the automatic prefix that arrive as incoming: the guard counts outgoing ones only, as the code does.
- Reuse of row ids after a deletion: a new row takes an id no living row has.
- `_move` is one method in the code and `MoveCard`, `Position`, `Attempt`, `TryRanks` and `RespreadAndTry` here, with the same branches in the same order.
- KanbanRuns.ForwardRunKeepsDoneClosed: states the invariant for forward runs only, because moves out of done columns, late dependencies and flag changes break it.
- LoopGuard.GuardReachesExactly: is about runs in which a message that arrives under a known hub id is the one stored under it, because hub ids are primary keys.
- RateLimit.HourBound: is stated for a maximum that stays fixed, because the setting can be changed between calls.
- Notifications.NewThreadsPerHour: does not bound always-delivered reasons, because the code exempts them.
