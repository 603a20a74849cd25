# Verified model of the order, finance and session services

A Dafny model of the parts of the service that carry state, count or search, with proofs of what they
keep true. `dafny verify dfyconfig.toml` checks all of it.

| modules | what they model |
|---|---|
| `Orders`, `OrderRuns`, `OrderIdempotence`, `StalePercentage`, `OrderEffects`, `UpdateEffects`, `OrderService` | orders and their finance attempts: create, update, delete, the copy of a rejected order |
| `MigrationReport`, `UpdateReport`, `ReportGroups`, `Transitions` | the finance report that finds original and copy again, its grouping and summary, transitions between companies |
| `WorkTime`, `Calendar`, `DateText`, `Periods`, `PeriodsAsked`, `Dashboard` | working time, civil dates, comparison windows, working days and counters of the dashboard |
| `Worksheet`, `Quadrants`, `Tally` | the credit worksheet's buckets, the quadrant summary, and the counting both rest on |
| `Sessions`, `SessionService` | login sessions in three expiring indexes |
| `RateLimiter`, `RateLimitMiddleware`, `LoginLimiter` | request and login limits with clocks |
| `ExportJob`, `ExportService` | one export job shared by its runner and any number of downloaders |
| `RequestCache`, `RequestCacheService`, `StableSort`, `CacheKey`, `CacheKeyReading` | the front end's request cache and its keys |
| `Menus`, `MenuAccess` | which menus a user may see, computed in two ways |
| `Settings`, `Scheduler` | scraper settings, the ledger of their changes, and the loops that obey them |
| `Areas`, `NetIncomes` | net incomes per job and area |
| `Text`, `Finite` | strings, finite sets and sums |

State that the source updates in place is held in classes. Each of their methods is proved equal to a
function of the state before it, and the lemmas speak about those functions, over every run of them. When
a call is accepted and what every field is afterwards is also stated outright, in terms of request and
rows, where `OrderEffects`, `UpdateEffects`, `PeriodsAsked` and the services' contracts say so.
Protocols with interleavings are state machines with one step per access to the shared store; the classes
beside them show that the handlers are runs of those machines. Database transactions are atomic and change nothing
when they fail. Identifiers drawn at random, clock readings, lookups and failures of the store are
parameters. Instants are integers at a fixed offset; amounts are real numbers.

Where the code does less than its promise, the model keeps the code and the lemma says exactly when the
promise is met:

- the report lists the original of a copied pair if and only if it is stamped first; on equal clock readings the two random identifiers decide (`RejectedCreateIsReported`);
- an update that newly rejects an order is reported if and only if its status is "reject" without blanks around it, the order has a first attempt and it was created before its copy; a padded status makes the copy and no row of the report (`RejectedUpdateIsReported`);
- an update of an order stored without a price fills the price in after computing the percentage, so a second identical update still changes the row (`UpdateTwice`, `StaleRun`); requests must name a price, but one below half a cent is stored as zero in `NUMERIC(18,2)`, and zero is the column's default;
- a counter whose EXPIRE fails, or whose opening INCR was applied with its reply lost, never expires again and soon admits nothing (`GetsStuck`, `StuckForGood`);
- creating a session keeps the indexes in agreement if and only if it expires no earlier than the user's other live sessions and its token is unused (`CreateAgrees`);
- custom windows are equally long up to 106751 days, where `time.Duration` saturates (`CustomWindows`);
- after a cache clear, one request per key is in flight if and only if none was in flight at the clear (`OneInFlightIffQuietClear`), and fields whose names tie under the locale's order do show in the key (`ContentDecidesIff`);
- a value requested before a clear can be served after it if and only if its request was unsettled at the clear, with time to live left (`OldServedIffUnsettled`);
- two sets of request parameters can share a key, but only if a leaf or name holds one of the characters that keys are put together with, a leaf reads as `null` or `undefined`, or an array holds just an empty text (`KeyIffSame`, `TextsMeet`);
- the news ledger starts from the seeded five minutes and not from the default (`SeededLedgers`), and a deleted setting can never be created again under the unique index on its key (`DeletedForGood`);
- the dashboard's monthly series sums to all rows if and only if at most twelve months have rows (`MonthlySeries`);
- the quadrant summary lists exactly the rows with a regency if and only if rows that share a key agree on having one (`ListedIffAgree`); the query drops regencies that are empty or spaces, so this takes a regency made of other blanks, such as a tab, and a bar in a province (`RegencyLost`), and rows that all have a regency are all counted (`AllHaveRegency`);
- net income areas with blank codes are never compared, so a job can have two rows for the same named areas (`NamesAloneAreNotGuarded`, `NamedTwice`); requests must give codes (`internal/dto/reference_data.go:46-51`), which a code of blanks does.

## Model

| member | source | states |
|---|---|---|
| OrderRuns.ReachableInv | internal/services/order/service.go:43-529 | in every state that runs of create, update and delete reach: at most two live orders per pooling number, attempts numbered 1 or 2 without repetition, the first in step with the order, a second only on rejected orders; with positive prices every down-payment percentage is right |
| OrderRuns.CreateKeepsInv | internal/services/order/service.go:122-178 | creating, with the copy it may make, keeps that invariant |
| OrderRuns.UpdateKeepsInv | internal/services/order/service.go:184-457 | updating, with rewriting attempts and copying, keeps it for any request |
| OrderRuns.DeleteKeepsInv | internal/services/order/service.go:459-470 | deleting keeps it |
| OrderRuns.DuplicateKeepsInv | internal/services/order/service.go:472-529 | the copy is made only while there is room and starts in step with its own attempt |
| OrderRuns.UpdatedInStep | internal/services/order/service.go:350-418 | after the loop over attempts and the added second one, the attempts agree with the changed order |
| OrderIdempotence.UpdateTwice | internal/services/order/service.go:184-457 | a second equal update changes nothing if and only if no price was filled in behind the percentage, or the caller may no longer change the order; else it is accepted, passes the pooling check and copies nothing |
| StalePercentage.StaleRun | internal/services/order/service.go:299-325 | a run of one create and twice the same update, between which a price appears, leaves other tables than without the second update |
| OrderIdempotence.PricedUpdateTwice | internal/services/order/service.go:227-456 | with positive prices throughout, an update is idempotent in every state with the invariant |
| OrderIdempotence.AfterUpdateTwice | internal/services/order/service.go:337-456 | saving the same row and attempts again leaves both tables equal: no second copy, no further attempt |
| OrderIdempotence.AttemptsSettle | internal/services/order/service.go:350-418 | the attempts an update leaves are a fixed point of the loop, and a second attempt is never added twice |
| OrderIdempotence.ChangeTwice | internal/services/order/service.go:230-336 | overwriting the fields twice is overwriting them once, except exactly for a filled-in price |
| OrderIdempotence.RoomAgain | internal/services/order/service.go:338-344 | after an update, copy included, the pooling number still has room for the order itself |
| OrderIdempotence.RefusedTwice | internal/services/order/service.go:184-345 | a refused update changes nothing and is refused for the same reason again |
| OrderService.Service.CreateOrder | internal/services/order/service.go:43-178 | accepted if and only if the request can be read, dealer and motor fit, and no two live orders have its pooling number; else refused for a reason that holds, changing nothing; every field of the new row is as asked for, with its attempts, the copy if there is one, and all older rows as they were; the invariant is kept |
| OrderService.Service.UpdateOrder | internal/services/order/service.go:184-457 | accepted if and only if the caller may, the request fits the row, and no two other live orders have the pooling number asked for; else refused for a reason that holds, changing nothing; every field of the row is the request's value where it gives one and the old one otherwise; attempts, copy and all other rows are accounted for; the invariant is kept |
| OrderService.Service.DeleteOrder | internal/services/order/service.go:459-470 | the live row is marked deleted, for callers who may, and nothing else changes; refused if and only if it is not live or the caller may not |
| OrderEffects.MayChangeIff | internal/authscope/context.go:70-116 | who may change an order: the superadmin, holders of the permission, its creator and those who have its dealer |
| OrderEffects.NewOrderIff | internal/services/order/service.go:43-82 | a create passes the checks before its transaction if and only if nothing is wrong with it, and else names something that is |
| OrderEffects.NewOrderRow | internal/services/order/service.go:84-120 | every field of a built row |
| OrderEffects.FullIff | internal/services/order/service.go:123-129 | a pooling number is full if and only if two different live orders have it |
| OrderEffects.CreateEffects | internal/services/order/service.go:43-178 | when a create is accepted and what it leaves in the tables |
| UpdateEffects.UpdateAcceptedIff | internal/services/order/service.go:184-345 | when an update is accepted, when it is refused for a full pooling number, and why else |
| UpdateEffects.UpdateAcceptedLeaves | internal/services/order/service.go:227-456 | every field, attempt and row after an accepted update |
| UpdateEffects.ChangedRow | internal/services/order/service.go:230-325 | every field of a changed row, price and percentage included |
| UpdateEffects.AttemptsUpdated | internal/services/order/service.go:350-418 | exactly the attempts that are kept, as the request changes them, and the one added |
| UpdateEffects.CopyMadeAs | internal/services/order/service.go:420-449 | the copy of a newly rejected order takes status, notes and company from the request, else from the stored second attempt, else from the order |
| OrderService.Service.DuplicateOrderRow | internal/services/order/service.go:472-529 | the copy with its attempt, or nothing when two orders are live |
| OrderService.Service.InsertOrder | internal/services/order/service.go:122-172 | the transaction of create: row, one or two attempts, and the copy of a rejected order |
| OrderService.Service.ApplyChanges | internal/services/order/service.go:230-336 | an accepted change sets status and notes as asked, leaves a positively priced row with the right percentage and never revives a deleted row; else the first error is returned |
| OrderService.Service.RewriteAttempts | internal/services/order/service.go:350-396 | the loop saves or deletes each fetched attempt as the request asks, one after the other |
| OrderService.Service.SaveUpdate | internal/services/order/service.go:337-456 | the transaction of update: row, attempts, and the copy read from the attempts in memory |
| Orders.FirstFound | internal/services/order/helper.go:10-26 | the attempt found is the first with the number, whenever there is one |
| MigrationReport.RejectedCreateIsReported | internal/repositories/finance/finance.go:708-830 | a rejecting create on a free pooling number leaves one report row, the original with the requested second company, if and only if the original is stamped first; else the copy's row or none |
| UpdateReport.RejectedUpdateIsReported | internal/services/order/service.go:337-449 | of an update that newly rejects the only live order of its pooling number and names a second company, the report lists exactly that order with that company if and only if the status has no blanks around it, the order has a first attempt and it was created before its copy |
| UpdateReport.RejectingRequestIsReported | internal/services/order/service.go:184-457 | the same of a request as the service receives it |
| UpdateReport.SettledReads | internal/repositories/finance/finance.go:712-738 | of the attempts an update leaves, the report reads the order's own status first and the company asked for second |
| MigrationReport.OneRowPerPoolingAndDealer | internal/repositories/finance/finance.go:817-830 | the filter on earlier orders leaves at most one row per pooling number and dealer |
| MigrationReport.PairReport | internal/repositories/finance/finance.go:708-830 | of two live orders of one dealer the report lists the earlier, reading the second company from its second attempt or else from the other's first |
| MigrationReport.AloneReport | internal/repositories/finance/finance.go:708-830 | an order without a peer is listed if and only if it is live, was rejected first and has a second attempt |
| MigrationReport.FirstPeerExists | internal/repositories/finance/finance.go:740-754 | the lateral join on peers finds the earliest whenever there is one |
| MigrationReport.Latest | internal/repositories/finance/finance.go:712-738 | the lateral join on attempts picks the attempt with a number that was created last, of equal times that of the largest identifier, if there is any |
| MigrationReport.RejectedPair | internal/services/order/service.go:122-178 | exactly the two orders and attempts that a rejecting create writes |
| ReportGroups.GroupsConserve | internal/repositories/finance/finance.go:494-511 | a windowed count summed over rank-one rows is the count over all rows |
| ReportGroups.HeadsPerCompany | internal/repositories/finance/finance.go:507-513 | every company with rows has exactly one rank-one row |
| ReportGroups.StatusShown | internal/repositories/finance/finance.go:470-490 | the status shown is that of the order's second attempt, else of the first peer's first attempt, else of the peer, else a dash |
| ReportGroups.RejectedCreateShows | internal/repositories/finance/finance.go:708-830 | of a rejecting create the report shows the second company's status, or reject if none was given |
| ReportGroups.SummaryConserves | internal/repositories/finance/finance.go:560-592 | the summary counts every row once, approvals and rejections by the status shown, and both together never exceed the total |
| ReportGroups.ReportSummaryConserves | internal/repositories/finance/finance.go:560-592 | on the order tables, under any filter, the grouped total is the number of listed orders |
| Transitions.MergeByPair | internal/repositories/finance/finance.go:340-392 | merging both queries per pair of companies preserves every sum over chosen pairs, one row per pair |
| Transitions.RowCounts | internal/repositories/finance/finance.go:349-378 | a row counts exactly for the pair it names, and only if both are named |
| Transitions.AddTransition | internal/repositories/finance/finance.go:349-378 | adding one row changes the sums by that row only |
| Transitions.SummariseByFirst | internal/services/finance/service.go:142-191 | per first company, the counters are the sums over its rows |
| Transitions.TransitionSummary | internal/services/finance/service.go:142-191 | merging per pair and then per first company is grouping the raw rows by first company |
| WorkTime.WorkingTimeWithinDailyWindow | internal/services/order/dashboard.go:65-98 | the day-by-day loop counts exactly the instants in the interval whose time of day is in the window |
| WorkTime.InstantsAreTheSet | internal/services/order/dashboard.go:65-98 | that count is the size of the set of such instants |
| WorkTime.Additive | internal/services/order/dashboard.go:65-98 | the count is additive at every split point |
| WorkTime.Monotone | internal/services/order/dashboard.go:65-98 | a larger interval never counts less |
| WorkTime.Bounded | internal/services/order/dashboard.go:65-98 | the count never exceeds the length of the interval |
| WorkTime.ClosedForm | internal/services/order/dashboard.go:65-98 | the count is a difference of a closed form by whole days |
| WorkTime.DayOverlap | internal/services/order/dashboard.go:82-94 | one day's overlap is the count within that day |
| Calendar.NextDay | internal/services/order/dashboard.go:152-161 | consecutive dates have consecutive day numbers, across months and leap years |
| Calendar.NumberOrders | internal/services/order/dashboard.go:163-247 | day numbers order dates and name each once |
| Calendar.LastDayIsLength | internal/services/order/dashboard.go:50-50 | day zero of the next month is the month's last day |
| Calendar.WeekdayAgrees | internal/services/order/dashboard.go:53-56 | the weekday of a day number is that of RFC 3339, Appendix B |
| DateText.FormatThenParse | internal/services/order/dashboard.go:115-121 | a printed date parses back if and only if its year has four digits |
| DateText.ParseThenFormat | internal/services/order/dashboard.go:115-121 | a text that parses is the printed form of its date |
| DateText.FormatShape | internal/services/order/dashboard.go:115-121 | a printed date is its year, month and day in four, two and two digits |
| Periods.WindowsInOrder | internal/services/order/dashboard.go:163-247 | for every request and reference date the previous window ends before the current one starts and neither is empty |
| PeriodsAsked.MonthlyAsAsked | internal/services/order/dashboard.go:191-208 | a monthly request gets the month meant, from its first to the anchor's day or its last, and the month before it likewise |
| PeriodsAsked.MonthBeforeEnds | internal/services/order/dashboard.go:108-113 | which is the month whose last day is the day before |
| PeriodsAsked.YearlyAsAsked | internal/services/order/dashboard.go:176-190 | a yearly request gets the year meant and the one before, each from its first of January to the anchor's day |
| PeriodsAsked.CustomAsAsked | internal/services/order/dashboard.go:209-231 | a custom request gets the two dates given, the earlier first, and as many days right before them |
| PeriodsAsked.DailyAsAsked | internal/services/order/dashboard.go:232-243 | any other request gets the anchor and the day before it |
| Periods.CustomWindows | internal/services/order/dashboard.go:209-231 | custom windows touch, and are equally long if and only if at most 106751 days lie between the ends |
| Periods.YearlyWindows | internal/services/order/dashboard.go:176-189 | year-to-date windows differ by at most a day, and only if exactly one of the years is leap |
| Periods.WindowSurvivesPrinting | internal/services/order/dashboard.go:115-121 | for every request and reference date, all four ends of the windows survive being printed and parsed again if and only if the years from the first to the last have four digits |
| Periods.WorkingDaysInMonth | internal/services/order/dashboard.go:46-63 | month length less Sundays less holidays that are not Sundays; zero for an impossible month |
| Periods.HolidaysTakeADayEach | internal/services/order/dashboard.go:46-63 | each holiday text removes at most one working day |
| Periods.WorkingDayRange | internal/services/order/dashboard.go:46-63 | without holidays there are 24 to 27 working days |
| Periods.SundayCount | internal/services/order/dashboard.go:52-56 | Sundays counted in closed form |
| Periods.ClampInMonth | internal/services/order/dashboard.go:152-161 | a clamped day is always a day of its month |
| Dashboard.CountAll | internal/services/order/dashboard_body.go:39-112 | the one loop leaves every counter map with the months, names and ranges of the rows, each with the number of its rows, blank names under a dash, and the number approved |
| Dashboard.CountRow | internal/services/order/dashboard_body.go:56-112 | one turn keeps all counters equal to the counts of the rows so far |
| Dashboard.CountersConserve | internal/services/order/dashboard_body.go:39-112 | month, job, product, finance and down-payment breakdowns each sum to the number of rows; approvals never exceed it |
| Dashboard.MonthConserves | internal/services/order/dashboard_body.go:71-74 | the motors of a month sum to the month |
| Dashboard.MonthlySeries | internal/services/order/dashboard_body.go:242-270 | the series shows the last twelve months with rows in ascending order, each with the number of its rows, and sums to all rows if and only if at most twelve months have rows |
| Dashboard.DpRangeEncloses | internal/services/order/dashboard_body.go:93-111 | a percentage is in the one range whose bounds enclose it |
| Dashboard.BuildProportions | internal/services/order/dashboard_body.go:299-322 | each label with rows is there once with its count, no other is, and totals and percentages are those of the counter |
| Dashboard.JobProportions | internal/services/order/dashboard_body.go:299-322 | each job once with its number of rows; they total the rows and add up to a hundred percent |
| Worksheet.Build | internal/services/credit/service.go:542-656 | each line counts exactly the orders whose installment lies in its range, those approved and those rejected among them, and its products; lines' ranges do not meet, every order has a line, each down-payment range counts its orders, and both add up to all of them |
| Worksheet.CountOrders | internal/services/credit/service.go:570-597 | the loop counts each order once per bucket and once per range, with its decision |
| Worksheet.AmountInRange | internal/services/credit/service.go:575-635 | an amount lies in its bucket's range if and only if it is not negative, as installments are |
| Worksheet.BucketKeys | internal/services/credit/service.go:606-622 | the series has each bucket of orders or products once |
| Worksheet.InstallmentSeries | internal/services/credit/service.go:624-645 | each line has its bucket's range and counter, and the lines keep the sums |
| Quadrants.Summary | internal/services/quadrant/service.go:96-241 | each group named with a regency is reported once; its totals are the sums over the rows of its key of the month and of the month right before it, across new year too; current totals add up to the listed rows, and to all rows of the month if every row has a regency |
| Quadrants.TotalsAreOfMonths | internal/services/quadrant/service.go:73-135 | both totals are sums over rows whose month is the reference month, or the one numbered right before it |
| Quadrants.FirstStands | internal/services/quadrant/service.go:119-129 | the row that names a group is the first of its key of these two months |
| Quadrants.KeyMeans | internal/services/quadrant/service.go:86-107 | without bars in the names, rows share a key if and only if they are of one province, regency and job, blanks and case aside |
| Quadrants.ListedIffAgree | internal/services/quadrant/service.go:96-201 | exactly the rows with a regency are listed if and only if rows sharing a key agree on having one |
| Quadrants.AllHaveRegency | internal/services/quadrant/service.go:96-201 | when every row has a regency, no order of the month is lost, whatever the keys |
| Quadrants.RegencyLost | internal/services/quadrant/service.go:89-94 | two rows that the query returns, one with a tab for a regency, share a key, and the other's orders are lost from the results |
| Quadrants.GroupRows | internal/services/quadrant/service.go:96-135 | the loop leaves each key's group with the names of its first row and both months' totals |
| Quadrants.Reference | internal/services/quadrant/service.go:37-71 | the month asked for, or else the latest month of a dated row of the year selected, or none if there is no such row |
| Quadrants.QuadrantSays | internal/services/quadrant/service.go:204-223 | the quadrant tells by itself whether orders held up and whether credit suffices |
| Quadrants.ResultSays | internal/services/quadrant/service.go:204-223 | so it does for every reported area, of rows as the query returns them |
| Quadrants.GrowthSays | internal/services/quadrant/service.go:336-344 | growth is the change in percent of the month before, and a hundred where that had nothing |
| Quadrants.GrowthMeansNoFewer | internal/services/quadrant/service.go:336-344 | growth is not negative if and only if there are at least as many orders as before |
| Sessions.RunAgrees | internal/repositories/session/session_repo.go:30-164 | over every run of the service with fresh ids and tokens the three indexes agree |
| Sessions.CreateAgrees | internal/repositories/session/session_repo.go:30-58 | creation keeps them in agreement if and only if the new session expires last and its token is unused |
| Sessions.LivesUntilExpiry | internal/repositories/session/session_repo.go:30-58 | a session and its token live exactly until it expires |
| Sessions.RemoveAgrees | internal/repositories/session/session_repo.go:142-164 | deletion keeps them and ends exactly that session |
| Sessions.TouchAgrees | internal/repositories/session/session_repo.go:115-140 | recording activity keeps them and ends no session |
| Sessions.PruneAgrees | internal/repositories/session/session_repo.go:79-99 | pruning dead ids from a user's set keeps them |
| Sessions.AdvanceAgrees | internal/repositories/session/session_repo.go:30-58 | they stay in agreement as keys expire |
| Sessions.MembersAreLive | internal/repositories/session/session_repo.go:79-99 | the live ids in a user's set are all the user's live sessions |
| Sessions.DestroyOthersLeavesCurrent | internal/services/session/session_service.go:121-136 | destroying the others leaves at most the current session and touches no other user |
| SessionService.Repository.Create | internal/repositories/session/session_repo.go:30-58 | the three writes, or none for a session already expired |
| SessionService.Repository.GetByUserId | internal/repositories/session/session_repo.go:79-99 | lists exactly the user's live sessions, each once, and leaves exactly these in the user's set |
| SessionService.Repository.GetByToken | internal/repositories/session/session_repo.go:101-113 | a live token entry leads to the live session with that token |
| SessionService.Repository.UpdateActivity | internal/repositories/session/session_repo.go:115-140 | only the activity time of a live session changes, never its expiry |
| SessionService.Repository.Delete | internal/repositories/session/session_repo.go:142-164 | session, set member and token go together |
| SessionService.Repository.CreateSession | internal/services/session/session_service.go:26-55 | with one lifetime for all, a fresh session of that lifetime keeps the indexes in agreement |
| SessionService.Repository.ValidateSession | internal/services/session/session_service.go:57-73 | a token is valid if and only if a live session has it; then only its activity time changes, else nothing |
| SessionService.Repository.DestroyOtherSessions | internal/services/session/session_service.go:121-136 | the loop over the listed sessions leaves at most the current one and touches no other user |
| RateLimiter.WindowBound | middlewares/rate_limiter.go:36-64 | over every run, with delayed, failed and lost calls, any interval of one window's length lets through fewer than twice the limit of requests and those that a failing INCR let through |
| RateLimiter.WindowBoundIsTight | middlewares/rate_limiter.go:36-64 | for every limit and every window longer than an instant a run without failures reaches that bound |
| RateLimiter.LifetimeBound | middlewares/rate_limiter.go:36-64 | each lifetime of the key admits at most the limit |
| RateLimiter.RunInvariant | middlewares/rate_limiter.go:86-114 | lifetimes start a window apart, hold their own admissions in order, and the counter is that of the current one |
| RateLimiter.GetsStuck | middlewares/rate_limiter.go:36-48 | after an opening INCR whose reply is lost, or a failed EXPIRE, no lifetime begins any more and over all that follows at most one limit is admitted |
| RateLimiter.StuckForGood | middlewares/rate_limiter.go:36-64 | a counter without expiry and with none to come stays so, and admits only what is left of its limit |
| RateLimitMiddleware.Middleware.Incr | middlewares/rate_limiter.go:86-114 | the increment counts on or opens a lifetime, and is within the limit exactly when it is admitted |
| RateLimitMiddleware.Middleware.Handle | middlewares/rate_limiter.go:21-65 | the handler's effect is a run of one request and at most one EXPIRE; it passes what is admitted and whatever it cannot count, and keeps the limiter's invariant |
| RateLimitMiddleware.RunKeepsInv | middlewares/rate_limiter.go:69-116 | whatever handlers do, in any number, keeps the limiter's invariant, so its bounds hold |
| LoginLimiter.Limiter.RegisterFailure | pkg/security/login_limiter.go:64-92 | the stored counter stays the failures of the log's open window, and the answer is whether this failure fills one |
| LoginLimiter.Limiter.IsBlocked | pkg/security/login_limiter.go:47-62 | blocked if and only if the log says so, for exactly as long as the answer says |
| LoginLimiter.Limiter.Reset | pkg/security/login_limiter.go:94-106 | after a reset nothing is counted and nothing blocked |
| LoginLimiter.Limiter.Attempts | pkg/security/login_limiter.go:64-92 | the stored counter equals the failures since window start, last block and last reset, and is below the limit |
| LoginLimiter.CompletedWindow | pkg/security/login_limiter.go:64-92 | a filled window is exactly the limit of failures in a row, within a window of the first |
| LoginLimiter.BlockedMeans | pkg/security/login_limiter.go:47-92 | a block comes from that many close failures less than a block's duration ago, with no reset since |
| LoginLimiter.FillingBlocks | pkg/security/login_limiter.go:64-92 | that many close failures from a window's start fill it, fewer do not |
| LoginLimiter.FilledBlocks | pkg/security/login_limiter.go:47-92 | then the key is blocked for the whole duration, whatever else fails |
| LoginLimiter.FailureStep | pkg/security/login_limiter.go:64-92 | the keys after a failure mean what the longer log says, at every later instant |
| ExportJob.ExportSafety | internal/services/order/export.go:135-270 | under all interleavings progress never falls, a finished job stays finished, finish time, full progress and file path go with the status, and delivered bytes are those the runner wrote |
| ExportJob.RunKeeps | internal/services/order/export.go:57-72 | every interleaving keeps the invariant and undoes nothing |
| ExportService.Export.RunOrderExport | internal/services/order/export.go:135-201 | the runner is a run of the machine; it completes if and only if collecting, preparing and writing work, and then the file holds what it wrote and the record names and counts it; else the record tells the first error |
| ExportService.Export.DownloadExport | internal/services/order/export.go:218-270 | a download is a run of the machine; it delivers the file's bytes if and only if the job is completed and the file can be read and removed; each other answer has its condition and its effect on the record |
| RequestCache.ServedFresh | songket-fe/src/services/requestCache.ts:45-81 | a value served from the cache comes from a request for its key started less than the time to live before |
| RequestCache.OneInFlightIffQuietClear | songket-fe/src/services/requestCache.ts:40-81 | until the next clear one request per key is in flight, if and only if none was in flight at the last one |
| RequestCache.OneInFlightBeforeClear | songket-fe/src/services/requestCache.ts:58-80 | before any clear one request per key is in flight |
| RequestCache.OvertakeDoubles | songket-fe/src/services/requestCache.ts:75-79 | an old request that ends after a clear lets two new ones run side by side |
| RequestCache.OldServedIffUnsettled | songket-fe/src/services/requestCache.ts:40-70 | after a clear a value from before it can still be served, the clock not going back, if and only if at the clear a request for the key was unsettled with time to live left |
| RequestCacheService.Cache.WithAuthScopedRequestCache | songket-fe/src/services/requestCache.ts:45-81 | a value from a request for the key started within its time to live if and only if one is stored, else the promise in flight if there is one, else a new request, and all stored values stay such |
| RequestCacheService.Cache.OnResolve | songket-fe/src/services/requestCache.ts:64-70 | the result is a hit for its key until a time to live after its call, and all stored values stay fresh ones of their keys |
| RequestCacheService.Cache.OnReject | songket-fe/src/services/requestCache.ts:71-74 | after an error its key has no hit, and all stored values stay fresh ones of their keys |
| RequestCacheService.Cache.OnFinally | songket-fe/src/services/requestCache.ts:75-77 | a settled request is no longer in flight, and nothing can be joined under its key |
| RequestCacheService.Cache.Clear | songket-fe/src/services/requestCache.ts:40-43 | nothing is a hit and nothing can be joined, while requests run on |
| CacheKey.SameKey | songket-fe/src/services/requestCache.ts:29-31 | equal parts, whatever the order of fields and undefined ones aside, make equal keys |
| CacheKey.SameText | songket-fe/src/services/requestCache.ts:16-27 | at any nesting, the text depends on content only, if the locale's order tells the names apart |
| CacheKey.TiedNamesShow | songket-fe/src/services/requestCache.ts:23-24 | names that the order ties do show in the text |
| CacheKey.ContentDecidesIff | songket-fe/src/services/requestCache.ts:16-27 | over any set of names, the text depends on content only if and only if the locale's order ties no two of them |
| CacheKeyReading.ReadBack | songket-fe/src/services/requestCache.ts:16-27 | values with the same text have the same content, at any nesting, when no leaf or name holds a separator, no leaf reads as null or undefined, and no array holds just an empty text |
| CacheKeyReading.KeyIffSame | songket-fe/src/services/requestCache.ts:29-31 | so keys of such parts are equal if and only if the parts are the same |
| CacheKeyReading.TextsMeet | songket-fe/src/services/requestCache.ts:16-27 | without those conditions different values can share a text |
| StableSort.SortIgnoresOrder | songket-fe/src/services/requestCache.ts:21-23 | a stable sort by names that are told apart gives one result for all orders |
| MenuAccess.ResolveAccessibleMenus | internal/services/shared/menu_access.go:5-45 | the walk gives, in input order, the menus named by a resource and their active ancestors: every active parent of a menu it has, and nothing else |
| MenuAccess.GetUserMenus | internal/repositories/menu/menu.go:66-117 | the frontier search ends, cycles or not, with exactly the menus reached from the named active ones, each once, and every active parent of these |
| MenuAccess.WalkAndSearchAgree | internal/services/shared/menu_access.go:5-45 | with unique ids and names both ways give the same menus |
| MenuAccess.Walk | internal/services/shared/menu_access.go:17-35 | one walk adds a menu and all its active ancestors |
| MenuAccess.Expand | internal/repositories/menu/menu.go:85-117 | a round keeps what is found reached and every parent found or pending, and finds something or is the last |
| MenuAccess.FirstFrontier | internal/repositories/menu/menu.go:74-83 | the first frontier asks for every active parent not yet met |
| Menus.WalkEndsIff | internal/services/shared/menu_access.go:25-35 | a walk ends, within as many steps as there are menus, if and only if it meets no menu twice |
| Menus.AcyclicEnds | internal/services/shared/menu_access.go:25-35 | without parent cycles every walk ends |
| Menus.ReachedIsClosed | internal/services/shared/menu_access.go:5-45 | the computed set is closed under active parents |
| Menus.ReachedIsLeast | internal/services/shared/menu_access.go:5-45 | every closed set with the named menus in it contains it |
| Settings.LedgerOfRun | internal/services/mastersetting/service.go:45-166 | over any run on both keys, through refused, failed, no-change and re-creating calls, each key's entries continue one another and replay to its setting; they start from the default if and only if that was in force |
| Settings.ApplyAdds | internal/services/mastersetting/service.go:88-132 | a call touches one row and adds one entry exactly when that row comes, goes or shows another value |
| Settings.SeededLedgers | migrations/000005_seed_songket_access.up.sql:151-167 | from the seed, the ledger of prices starts from the default and that of news does not |
| Settings.DeletedForGood | migrations/000004_create_songket_schema.up.sql:220-229 | while the unique key covers deleted rows, no run brings a deleted setting back |
| Settings.ShownWithinLimits | internal/services/mastersetting/helper.go:9-43 | what a reader sees is within the limits, in whole days for prices |
| Settings.DaysRoundTrip | internal/services/mastersetting/helper.go:19-43 | days stored as minutes read back as the days asked for, within the limits |
| Settings.FewestDays | internal/services/mastersetting/helper.go:29-39 | minutes become the fewest days that hold them |
| Settings.Service.GetSetting | internal/services/mastersetting/service.go:33-43 | reads a live setting with its switch, and its interval brought into the limits, in whole days for prices |
| Settings.Service.CreateSetting | internal/services/mastersetting/service.go:45-86 | refused if and only if there is a setting, failed if and only if the database does; else stores switch and interval as asked for within the limits, with one entry from the default |
| Settings.Service.UpdateSetting | internal/services/mastersetting/service.go:223-266 | refused if and only if there is no setting; else stores switch and interval as asked for within the limits, and an entry only for a changed value |
| Settings.Service.DeleteSetting | internal/services/mastersetting/service.go:278-300 | refused if and only if there is no setting; else marks the row deleted and writes the entry back to the default |
| Scheduler.RunsAreSpaced | internal/scheduler/autoscrape.go:109-150 | amid any setting changes and read errors each run starts at least as long after the last as the interval then in force |
| Scheduler.PriceRunsAreDaysApart | internal/scheduler/autoscrape.go:177-226 | price runs are at least as many days apart as there are runs between them |
| Scheduler.LoopWaitsTheDaysAsked | internal/scheduler/autoscrape.go:188-194 | the loop waits the days asked for, within 1 to 31, through the minutes stored |
| Scheduler.Loop.RunCycle | internal/scheduler/autoscrape.go:177-226 | a round starts a run exactly when the setting can be read, is switched on, and the minutes a reader sees have passed since the last start, which it remembers |
| Areas.NormalizeAreaNetIncomeItems | internal/services/shared/reference_helpers.go:121-163 | the loop with its seen map gives the normal form |
| Areas.NormalFormIff | internal/services/shared/reference_helpers.go:121-163 | a list is its own normal form if and only if its areas are trimmed, named, usable and have different texts |
| Areas.NormalizedIdempotent | internal/services/shared/reference_helpers.go:121-163 | normalising twice is normalising once |
| Areas.NormalizedKeepsTexts | internal/services/shared/reference_helpers.go:129-161 | normalising loses no usable area's text and adds none |
| Areas.NormalizedFrom | internal/services/shared/reference_helpers.go:129-161 | nothing is in a normal form but areas of the list with a regency, trimmed and with codes for missing names |
| Areas.CaseMakesNoText | internal/services/shared/reference_helpers.go:147-156 | areas that differ in case only count as one |
| Areas.NamesAreRead | internal/services/shared/reference_helpers.go:190-204 | of an older list of names each is read as a regency, blank ones aside |
| Areas.NormalizeAreaNetIncome | internal/services/shared/reference_helpers.go:104-119 | trimming a request's areas first changes nothing of that |
| Areas.DecodeAfterEncode | internal/services/shared/reference_helpers.go:165-207 | what is read back is the normal form of what was stored, and storing it again changes nothing |
| Areas.DecodedIsNormal | internal/services/shared/reference_helpers.go:178-207 | whatever is stored, older lists of names included, is read in normal form |
| Areas.DecodeAreaNetIncome | internal/services/shared/reference_helpers.go:178-207 | reads areas, a list of names, or nothing |
| NetIncomes.RunKeepsDisjoint | internal/services/netincome/service.go:104-206 | every run keeps the identity keys of distinct rows of one job disjoint |
| NetIncomes.CommonAreaHasNoCodes | internal/services/netincome/service.go:70-102 | so an area that two rows of a job share has neither code |
| NetIncomes.NamesAloneAreNotGuarded | internal/services/netincome/service.go:80-86 | a create whose areas name regencies under blank codes is stored whatever other rows have |
| NetIncomes.NamedTwice | internal/services/netincome/service.go:104-146 | so the same request made twice leaves its job with two rows for the same areas |
| NetIncomes.KeyMeansCodes | internal/services/netincome/service.go:70-72 | equal keys mean equal codes but for case and outer blanks, unless a province code has a bar in it |
| NetIncomes.EnsureNoOverlappingAreas | internal/services/netincome/service.go:74-102 | the loops accept if and only if no existing row claims a key of the areas |
| NetIncomes.Service.CreateRow | internal/services/netincome/service.go:104-146 | accepted if and only if the request is complete and no row of its job has one of its coded areas; then job, income and areas are as asked for; else a reason that holds, changing nothing |
| NetIncomes.Service.UpdateRow | internal/services/netincome/service.go:148-202 | accepted if and only if the request is complete, the row is there, and no other row of the job asked for has one of its coded areas; then job, income and areas are as asked for; else a reason that holds, changing nothing |
| NetIncomes.UpdateDecides | internal/services/netincome/service.go:148-202 | when an update is accepted, overlaps or is refused otherwise, told of the rows before |
| NetIncomes.SelfIsNoRival | internal/services/netincome/service.go:178-184 | in a disjoint store an update that keeps job and areas is never refused for overlap |
| Text.TrimIdempotent | internal/services/order/helper.go:28-38 | trimming twice is trimming once |
| Text.TrimIs | internal/services/order/helper.go:28-38 | trimming cuts off exactly the blanks at both ends |
| Text.TrimLowerCommute | internal/services/order/helper.go:28-38 | trimming and lower-casing commute |

## Left out

- Handlers, routing, middleware around the limiters, logging, object storage, tokens and password rules: input and output, or wrappers of libraries.
- Scrapers, geocoding and location lookups: foreign processes and the network.
- The user interface, translations, and sort orders made for display only.
- Concurrent transactions: each transaction is one step, so two creates that count at the same time are not modelled.
- Database errors inside order transactions, foreign keys and UUID columns: they roll back and change nothing.
- NUMERIC rounding of stored amounts and percentages; floating point is modelled by real numbers.
- Text: lower-casing covers the letters A to Z only, and texts are sequences of characters without normalisation.
- `UpdatedAt` columns and the report's fallback to them, which is never reached while either attempt has a creation time.
- The report's filters, search and scope appear as one arbitrary filter; its other joins add at most one row each and only columns for display.
- Names of companies in transition rows: the first one met wins. The query of approval transitions itself is input.
- ReportGroups.GroupsConserve: says nothing about the order or paging of the grouped rows.
- The lead-time averages of dashboard and finance metrics, and the dashboard's daily series and totals of its two periods; parsing of the holiday list is a parameter.
- Transitions of daylight saving time: days have 24 hours at the fixed offset of the start.
- Store errors of the session repository, and the rounding of its times to live to whole seconds; each repository call is one step in time. `SetExpiration` touches one index only and no service calls it.
- Sessions.RunAgrees: an id or token that is in use is not drawn; the lemma on creation says what a reused token does.
- Export: several jobs are independent of each other; the unlocked copy that starting an export returns, and the search of locations for its columns, are not modelled. A file that is only partly written is never published.
- Request cache: factories that call the cache again before returning, and keys of different tokens, which are different keys. A leaf is the text that it prints as, so a number and a text that print alike are one leaf.
- MenuAccess.ResolveAccessibleMenus: needs walks that end; `WalkEndsIff` says when they do. Super administrators and users without a role bypass the search.
- The descriptions and actors of settings, and listing of their history.
- Scheduler.Loop.RunCycle: the scrape itself is instantaneous and its failure changes nothing; rounds never overlap because one loop runs them.
- Areas: JSON is modelled by what it decodes to, so invalid UTF-8 is not.
- The capability table that the quadrant summary reads from the worksheet is a parameter, and so are the worksheet's areas, jobs, motors and matrix.
