# Verified models of the Kodi backend kernels

The backend is mostly plumbing around a few stateful or algorithmic kernels. This project models
those kernels in Dafny and proves what they promise over every input and every run. Database tables
are maps by primary key (an unordered query may return its rows in any order), Redis is a map of
entries with expiry times, the clock is explicit, and calls to other services are parameters.

| file | what it models |
|---|---|
| `CityHierarchy.dfy` | the city forest: recursion over active children, the walk to the root, the managed closure |
| `Permissions.dfy` | role and scope decisions and the positive-only cache |
| `PermissionRuns.dfy`, `PermissionReads.dfy`, `PermissionStaleness.dfy`, `OneState.dfy`, `Descent.dfy` | whole runs of overlapping permission queries, which read one row set, one city's children and one role's rights at a time: what each has read, how stale an answer can be, and when it is that of one state of the database |
| `UserContext.dfy` | the list forms of those decisions |
| `Translations.dfy` | single and batch reads of translations, and the jobs that reads emit |
| `Limiter.dfy`, `AutoTranslate.dfy` | the FIFO semaphore, and concurrent auto-translation that converges |
| `RetryLoop.dfy` | the provider's retry loop with backoff and jitter |
| `RefreshTokens.dfy` | the refresh-token store: login, guest login, conversion, refresh, logout, revocation |
| `Saga.dfy` | the saga orchestrator over every sequence of calls |
| `SubServices.dfy` | the batch loader and the reorder of sub-service items |
| `Alerts.dfy`, `ErrorHistory.dfy` | alert cooldown, and the bounded error history with its aggregates |
| `AcceptLanguage.dfy`, `Slugs.dfy`, `Interpolation.dfy` | language negotiation, slugs, placeholder replacement |
| `Collections.dfy`, `Keys.dfy`, `Text.dfy`, `StableSort.dfy`, `Redis.dfy` | shared vocabulary |

Where the source changes state step by step, a method does the same steps and is proved against a
function of the old state; the promises are then lemmas about that function and about runs of it.

## What the code does differently from what one might expect

- A permission key is ambiguous when a user, resource or action contains a colon. Two questions can
  be taken for one another exactly when they are different and share a key (`ConfusedIff`), and the
  staleness bound holds for a set of questions exactly when it has no such pair (`AlwaysBoundedIff`).
  This is a property of the public method: the resources and actions that the repository itself
  passes, and those of `scripts/seed-permissions.ts`, contain no colon (`ColonFreeKeysApart`). For the
  same reason the list of effective permissions can lose a permission (`ListAgreesIff` says exactly
  when, `ListLosesARight` gives the databases).
- A permission query reads the assignments, the children of one city after another and the rights of
  one role after another, so changes in between can make it answer what no state of the database
  answers. A yes is always that of one state exactly when assignments or rights stand still while
  queries read, and so do the cities for a question with a city (`YesOneStateIff`); a no exactly when
  the rights do, and so do the cities for a question with a city (`NoOneStateIff`). Both give a run
  for every other choice of tables, `FirstAssignment`, `MovedCity`, `SwappedRoles` and `MovedScope`.
- A guest login may carry an empty device id (the request type only asks for a string). Its token is
  stored under a key that no refresh looks up: it is accepted exactly when the device id is not empty,
  or the refresh gets to the user's legacy entry and finds an equal token there
  (`GuestTokenAcceptedIff`; `GuestWithoutDeviceId` is a run in which it is refused).
- A logout that falls between the check and the write of a refresh does not stop the refresh
  (`LogoutDuringRefreshIff`; `LogoutDuringRefreshHappens` is such a run).
- A read whose source text consists of white space emits a translation job every time, and the job
  never does anything (`ReadRepairIff`).
- One header element named `constructor` or `__proto__` makes language detection fall back to the
  default whatever the other elements say (`DetectLanguage`; `UnreadableElement` covers headers such
  as "de,constructor"): the lookup of language codes finds inherited members of the literal object,
  and the following conversion throws.
- An interpolated value is copied as it is exactly when it holds no replacement pattern (`CopiedIff`):
  "$5" is copied, "$&" is not. A placeholder in one value, or formed between two copies of it as from
  "}{" in `{a}b{a}`, is filled by a later parameter (`BraceInValue`); replacing two parameters in turn
  is replacing them at once on every flat template exactly when the first value forms no placeholder
  of the second, or that one is filled by itself (`SimultaneousIff`), and the order is immaterial
  exactly when this holds both ways (`OrderMattersIff`).
- A reorder can apply its moves and still fail, when some active record of the category refers to a
  tile or category that does not exist (`ReorderSubServices`).
- `compensate` crashes exactly when more steps have been executed than the saga has (`CompensateCrashesIff`).

## Model

| member | source | states |
|---|---|---|
| CityHierarchy.GetChildCities | libs/rbac/src/city-hierarchy.service.ts:23-52 | lists each city strictly below the start through active cities exactly once (or its active children when not recursive), whenever the recursion ends |
| CityHierarchy.ChildRecursionUnbounded | libs/rbac/src/city-hierarchy.service.ts:27-46 | the recursion runs to every depth if and only if the start is its own active descendant, so that is the exact termination condition |
| CityHierarchy.GetCityPath | libs/rbac/src/city-hierarchy.service.ts:90-120 | returns the rows of the cities met on the way up, root first, whenever the walk ends |
| CityHierarchy.PathStops | libs/rbac/src/city-hierarchy.service.ts:97-113 | a path is empty exactly for an empty id or a missing city, and ends below a parent without a row |
| CityHierarchy.WalkEndsIff | libs/rbac/src/city-hierarchy.service.ts:97-113 | the walk up ends if and only if it is over after as many turns as there are cities, if and only if it meets no city twice |
| CityHierarchy.UpDownDuality | libs/rbac/src/city-hierarchy.service.ts:23-120 | a city is listed below another exactly when that one stands earlier on its path and every later city of the path is active |
| CityHierarchy.GetAllManagedCities | libs/rbac/src/city-hierarchy.service.ts:59-73 | returns the managed closure of the given ids without duplicates |
| CityHierarchy.ManagedIsLeastClosedSet | libs/rbac/src/city-hierarchy.service.ts:59-73 | the closure contains the ids, is closed under active children, and is the least such set |
| CityHierarchy.ManagedIsAClosure | libs/rbac/src/city-hierarchy.service.ts:59-73 | the closure is monotone, idempotent and distributes over union |
| CityHierarchy.GetHierarchicalCities | libs/rbac/src/city-hierarchy.service.ts:128-145 | returns the city, its path and its descendants, each once |
| CityHierarchy.HierarchicalIsSymmetric | libs/rbac/src/city-hierarchy.service.ts:128-145 | while all cities are active, one city is viewed with another exactly when the other is viewed with it |
| Permissions.PermissionService.HasPermission | libs/rbac/src/permission.service.ts:29-74 | answers yes exactly on a live cache entry or when the tables say yes, with each role's rights as they are when the role is looked up; writes its key only on a miss with assignments and a positive answer |
| Permissions.OutcomeOfComposed | libs/rbac/src/permission.service.ts:29-74 | when all roles are looked up in one state, the call answers and leaves the cache as if asked of the tables it read, whatever the order of the rows |
| Permissions.SuperAdminPermits | libs/rbac/src/permission.service.ts:44-87 | a super admin is permitted everything, but with a city only in the closure of the assigned cities |
| Permissions.RightsOfRoles | libs/rbac/src/permission.service.ts:79-105 | super admins have every right, other roles exactly those linked to them |
| Permissions.CacheKeyInjective | libs/rbac/src/permission.service.ts:37 | with colon-free user, resource and action (any city id), two queries share a key exactly when they ask the same question |
| Permissions.ConfusedIff | libs/rbac/src/permission.service.ts:29-74 | some database, unchanged, makes two calls in a row answer the second one wrongly if and only if the two questions differ and share a key |
| Permissions.CanManageCityAdmins | libs/rbac/src/permission.service.ts:145-167 | yes exactly for super admins and for the closure of the cities where the user may delegate |
| Permissions.ManageAdminsIff | libs/rbac/src/permission.service.ts:145-167 | its admins are managed by super admins and by the active city admins of it or of a city it lies below who may manage admins |
| Permissions.ManagingAdminsIsInherited | libs/rbac/src/permission.service.ts:145-167 | who may manage the admins of a city may manage those of every city below it |
| PermissionRuns.DescentEnds | libs/rbac/src/city-hierarchy.service.ts:23-73 | read by read, the descent from cities that are not below themselves ends while nothing else happens, having found exactly what lies below them |
| PermissionRuns.InterruptedQuery | libs/rbac/src/permission.service.ts:29-74 | a query whose reads of assignments, cities and rights fall into three states of the database answers, and leaves the cache, as if asked of the tables it saw |
| PermissionRuns.AskAlone | libs/rbac/src/permission.service.ts:29-74 | a query that nothing overlaps, in steps, answers and leaves the cache as the database and the cache decide |
| PermissionReads.WasRead | libs/rbac/src/permission.service.ts:29-74 | in every run, a query was answered from the cache or stands where its reads put it: a yes by a chain of parent links each read after the one above it and by the rights at its last lookup, a no by a set of cities closed under children as read or by every role's lookup |
| PermissionStaleness.BoundedStaleness | libs/rbac/src/permission.service.ts:29-74 | in every run of overlapping queries, each in its separate reads, with any database changes, every yes was the answer of rows, links and rights read in turn, the first less than 300 seconds plus the time a query takes before |
| PermissionStaleness.AlwaysBoundedIff | libs/rbac/src/permission.service.ts:37-66 | all runs over a set of questions keep that bound if and only if no two different questions of the set share a key |
| OneState.YesOneStateIff | libs/rbac/src/permission.service.ts:44-66 | for every question and every set of tables: in all runs in which these stand still while queries read, every yes is the database's own answer at one moment of the window, if and only if assignments or rights are among them, and the cities too when the question is scoped |
| OneState.NoOneStateIff | libs/rbac/src/permission.service.ts:44-69 | likewise every no is the database's own answer at one moment while its query ran, if and only if the rights are among them, and the cities too when the question is scoped |
| PermissionStaleness.YesIsExact | libs/rbac/src/permission.service.ts:29-74 | when nothing that the question depends on has changed for 300 seconds plus the time a query takes, a yes is exact |
| PermissionStaleness.NoIsExact | libs/rbac/src/permission.service.ts:44-69 | a no, in any run, is exact when nothing that the question depends on has changed for the time a query takes |
| PermissionStaleness.BoundIsTight | libs/rbac/src/permission.service.ts:62-66 | for every question and delay, a permission withdrawn while a query is on its way to the cache is still granted 299.999 seconds after the write and no longer at 300 |
| UserContext.GetUserEffectivePermissions | libs/rbac/src/user-context.service.ts:59-125 | lists the citizen permissions, all permissions, nothing, or one granted right per key, by assignments and scope |
| UserContext.SuperAdminList | libs/rbac/src/user-context.service.ts:76-86 | for a super admin the list holds exactly the rows of the permissions table |
| UserContext.ListAgreesIff | libs/rbac/src/user-context.service.ts:99-120 | for users who are not super admins, the list names exactly the permitted pairs if and only if no two granted rights share a key |
| UserContext.ListLosesARight | libs/rbac/src/user-context.service.ts:99-120 | for any two rights that share a key, some database permits both while every list names at most one |
| UserContext.ColonFreeResourcesAreDistinct | libs/rbac/src/user-context.service.ts:109 | colon-free resources keep all keys apart |
| UserContext.GetUserManagedCities | libs/rbac/src/user-context.service.ts:27-52 | returns the closure of the city-admin assignments, and nothing for super admins |
| UserContext.CanManageCity | libs/rbac/src/user-context.service.ts:168-192 | yes exactly for super admins and for the closure of existing city-admin assignments |
| UserContext.CanAccessCity | libs/rbac/src/user-context.service.ts:132-161 | as managing, but everybody without a city-admin assignment may access |
| UserContext.ManageIff | libs/rbac/src/user-context.service.ts:168-192 | a city is managed by super admins and by the active city admins of it or of a city it lies below |
| UserContext.AccessIff | libs/rbac/src/user-context.service.ts:132-161 | it is accessible to these, and to everybody who is no city admin |
| UserContext.ManagedListAgrees | libs/rbac/src/user-context.service.ts:27-192 | for users who are not super admins, the managed list holds exactly the manageable cities; they are accessible, in permission scope, and so are all cities below them |
| Redis.PrefixPattern | libs/redis/src/redis.service.ts:128-137 | a prefix followed by a star matches exactly the keys that begin with the prefix |
| Translations.TranslationService.GetTranslation | libs/translations/src/translation.service.ts:134-215 | returns the row's text when there is no source text, the row has no hash, or its hash is the source text's, else the source text; emits the one job exactly when reads may, the locale is another, and the translation is missing or outdated |
| Translations.TranslationService.PrefetchTranslations | libs/translations/src/translation.service.ts:229-241 | the map holds, under its key, every named row of a listed entity and nothing else |
| Translations.FindByEntitiesAndLocale | libs/translations/src/providers/database.provider.ts:15-43 | the grouped query finds exactly the rows that point lookups for the listed entities could find |
| Translations.TranslationService.GetTranslationFromMap | libs/translations/src/translation.service.ts:247-312 | the same text and job for the row found in the map |
| Translations.BatchAgreesIff | libs/translations/src/translation.service.ts:220-312 | every prefetched map, whatever the row order, agrees with single lookups if and only if no wanted row has an empty component or the key of another asked slot |
| Translations.BatchReadIsSingleRead | libs/translations/src/translation.service.ts:247-312 | then a read through the map returns the same text and emits the same jobs |
| Translations.MapKeyInjective | libs/translations/src/translation.service.ts:220-222 | keys are injective when types and fields are colon-free, although ids contain colons |
| Translations.ColonFreeSeparates | libs/translations/src/translation.service.ts:220-241 | colon-free types and fields and non-empty components are enough for agreement |
| Limiter.ConcurrencyLimiter.Acquire | libs/translations/src/translation.service.ts:29-38 | takes a free slot or joins the end of the queue |
| Limiter.ConcurrencyLimiter.Release | libs/translations/src/translation.service.ts:40-49 | hands the slot to the head of the queue or frees it |
| Limiter.LimiterIsSafe | libs/translations/src/translation.service.ts:23-50 | over every run: grants follow arrival order, the running count is the number of slots held and within the limit, and somebody waits only when all slots are taken |
| Limiter.GrantedAfter | libs/translations/src/translation.service.ts:29-49 | a waiter at position p has its slot exactly when p + 1 slots have been given back |
| Limiter.AllReleasedIsIdle | libs/translations/src/translation.service.ts:23-50 | when every task has given its slot back, all slots are free and nobody waits |
| Limiter.WaitersProgressIff | libs/translations/src/translation.service.ts:29-49 | while somebody waits, some slot can be given back if and only if the limit is at least one |
| AutoTranslate.LocalesToTranslate | libs/translations/src/translation.service.ts:352-381 | the filter keeps, in order, the target locales that differ from the source's and had no row with the current hash when each was looked up; none for blank text |
| AutoTranslate.RunTask | libs/translations/src/translation.service.ts:385-424 | writes the row exactly when the provider translates and no key component is empty, passes on exactly rate limits, and always releases its slot |
| AutoTranslate.EveryLocaleAccountedFor | libs/translations/src/translation.service.ts:343-447 | in every interleaving of calls, lookups and tasks with unchanged text, each target locale has a current row or the call's own task for it is pending or failed |
| AutoTranslate.OutstandingNeverGrows | libs/translations/src/translation.service.ts:359-377 | the set of locales a call would contact the provider for never grows |
| AutoTranslate.RepeatContactsOnlyFailures | libs/translations/src/translation.service.ts:343-447 | repeating a settled call contacts the provider only for its failed locales, and for none when none failed |
| AutoTranslate.SettledCallSilencesReads | libs/translations/src/translation.service.ts:134-447 | once a call has settled without a failure, a read of each of its target locales returns the translation and emits no job, when the call's hash is the text's |
| AutoTranslate.NewTextUntilTranslated | libs/translations/src/translation.service.ts:134-447 | in every run, after the source text has changed, reads return the new text until a task has written a translation made from it, and then that translation |
| AutoTranslate.CurrentRowIsQuietIff | libs/translations/src/translation.service.ts:154-182 | a read of the row a call left emits nothing if and only if the call's hash is the text's, or reads emit nothing there anyway |
| AutoTranslate.ReadRepairIff | libs/translations/src/translation.service.ts:134-447 | serving the job a read emitted makes the next read return the translation silently if and only if the text is not blank and the key has no empty component |
| AutoTranslate.SettledRunFreesLimiter | libs/translations/src/translation.service.ts:385-428 | once all tasks of all calls have settled, no slot is lost |
| RetryLoop.Translate | libs/translations/src/providers/deepl.provider.ts:142-222 | no call without an API key, else at most maxRetries + 1; a rate limit error exactly when all of them were rate limited; the last throw exactly for negative maxRetries; the time slept is the sum of the delays, which lies between the sums without and with full jitter |
| RetryLoop.BackoffIs | libs/translations/src/providers/deepl.provider.ts:126-137 | a delay is Retry-After plus up to a tenth, or else the base doubled with every retry plus up to three tenths, by the random draw |
| RetryLoop.GeometricBounds | libs/translations/src/providers/deepl.provider.ts:126-137 | without Retry-After those sums are base * (2^r - 1) and 1.3 times that |
| RefreshTokens.AuthService.Login | apps/auth/src/modules/auth/auth.service.ts:382-404 | stores the new token under the user's device key for 30 or 7 days |
| RefreshTokens.AuthService.CreateGuestSession | apps/auth/src/modules/auth/auth.service.ts:918-936 | stores the guest token, for any text as device id, under its device key for 30 days |
| RefreshTokens.GuestTokenAcceptedIff | apps/auth/src/modules/auth/auth.service.ts:513-936 | in every reachable state, the token a guest login issues is accepted if and only if the device id is not empty, save for an equal token under the legacy key |
| RefreshTokens.AuthService.ConvertGuestToRegistered | apps/auth/src/modules/auth/auth.service.ts:1064-1084 | stores a device-less token under the legacy key for 7 days |
| RefreshTokens.AuthService.RefreshTokens | apps/auth/src/modules/auth/auth.service.ts:513-618 | renews exactly the stored token of an existing active user; the new one names the first known device, is a guest's when token or user is, and lives 30 or 7 days under its own key; nothing is stored otherwise |
| RefreshTokens.RefreshIssuesIff | apps/auth/src/modules/auth/auth.service.ts:513-618 | in every reachable state, a device-bound token is renewed if and only if it is the one last issued for its device since the last logout, within its lifetime, and its user is active |
| RefreshTokens.CheckedAreActive | apps/auth/src/modules/auth/auth.service.ts:536-546 | over all runs, only refreshes of active users pass the check |
| RefreshTokens.OneWritePerCheck | apps/auth/src/modules/auth/auth.service.ts:530-618 | over all runs, every passed check allows exactly one write |
| RefreshTokens.AuthService.Logout | apps/auth/src/modules/auth/auth.service.ts:468-479 | removes one device entry, or all entries the pattern matches and the legacy entry |
| RefreshTokens.LogoutMatches | apps/auth/src/modules/auth/auth.service.ts:475-478 | the logout pattern matches exactly the user's device keys |
| RefreshTokens.AcceptedIffLastIssued | apps/auth/src/modules/auth/auth.service.ts:513-532 | in every reachable state, with refreshes overlapping other operations, a device-bound token passes exactly when it is the one last issued for its user and device since they last logged out, and is within its lifetime |
| RefreshTokens.AlwaysExactIffApart | apps/auth/src/modules/auth/auth.service.ts:382-1084 | that holds in all runs over a set of user ids without pattern characters if and only if no id of the set is another followed by a colon and more |
| RefreshTokens.ColonFreeAreApart | libs/prisma/src/schemas/users/schema.prisma:15 | ids without colons, such as generated ones, are such a set |
| RefreshTokens.LegacyHoldsDeviceless | apps/auth/src/modules/auth/auth.service.ts:526-529 | the legacy key only ever holds tokens without a device id |
| RefreshTokens.RefreshRotates | apps/auth/src/modules/auth/auth.service.ts:513-618 | after a refresh the new token is accepted and the old one is not, unless signing produced the same token |
| RefreshTokens.TokenLasts | apps/auth/src/modules/auth/auth.service.ts:382-936 | in every reachable state, a new device-bound token is accepted for exactly 30 days after a remembered or guest login or a guest's refresh, and 7 days after any other |
| RefreshTokens.OtherDevicesUnchanged | apps/auth/src/modules/auth/auth.service.ts:468-618 | an operation leaves the device entries of other users and of other devices unchanged |
| RefreshTokens.OtherLegacyUnchanged | apps/auth/src/modules/auth/auth.service.ts:468-618 | a user's legacy entry changes only by a logout of all devices, a revocation, or a token issued without a device |
| RefreshTokens.LogoutDuringRefreshIff | apps/auth/src/modules/auth/auth.service.ts:530-618 | in every reachable state, after a logout that covers the device, the write of a refresh issues an accepted token if and only if its check was passed before the logout |
| RefreshTokens.LogoutDuringRefreshHappens | apps/auth/src/modules/auth/auth.service.ts:530-618 | a run from the empty store in which that happens |
| Saga.SagaOrchestrator.ExecuteStep | libs/saga/src/saga-orchestrator.service.ts:39-73 | completes the current step, moves on, and reports the next step or completion |
| Saga.SagaOrchestrator.FailStep | libs/saga/src/saga-orchestrator.service.ts:78-96 | marks the current step failed and starts compensation |
| Saga.SagaOrchestrator.Compensate | libs/saga/src/saga-orchestrator.service.ts:101-122 | returns exactly the completed steps with a compensation, in strictly decreasing index, and marks them |
| Saga.SagaOrchestrator.MarkCompensated | libs/saga/src/saga-orchestrator.service.ts:127-144 | turns exactly the compensating steps into compensated ones |
| Saga.CallsKeepOrder | libs/saga/src/saga-orchestrator.service.ts:39-144 | every call sequence determines the status of every step: pending or failed before its execution, completed from then on until a compensate covers it, compensating until it is marked, compensated from then on |
| Saga.CallsDetermineOutputs | libs/saga/src/saga-orchestrator.service.ts:39-144 | it also determines the result and error of every step, and the status of the saga |
| Saga.CompensateCrashesIff | libs/saga/src/saga-orchestrator.service.ts:110-116 | a compensate crashes exactly when more steps were executed than there are |
| Saga.ReturnedIffFirst | libs/saga/src/saga-orchestrator.service.ts:101-122 | a call returns a step exactly when the step has a compensation and the call is the first successful compensate after its execution |
| Saga.ReturnedAtMostOnce | libs/saga/src/saga-orchestrator.service.ts:101-122 | no step is returned by two compensate calls |
| SubServices.LoadSubServicesForCategories | apps/core/src/modules/categories/sub-services.service.ts:34-124 | for each category with something to show, and no other, the list of its shown records in (displayOrder, id) order |
| SubServices.ShownIff | apps/core/src/modules/categories/sub-services.service.ts:40-79 | a record is shown exactly when it is active and refers to an active tile of the city, published and not expired, or to an active category |
| SubServices.ListedItems | apps/core/src/modules/categories/sub-services.service.ts:81-124 | the list holds exactly the items of such records of the category, each once |
| SubServices.SingleIsItemOf | apps/core/src/modules/categories/sub-services.service.ts:253-288 | the item of a record carries the record's own order and name, or else those of the tile or category; the per-record loader fails exactly when the record or its reference is missing |
| SubServices.SubServicesService.ReorderSubServices | apps/core/src/modules/categories/sub-services.service.ts:218-251 | an unknown id changes nothing; otherwise the moves are applied and the ordered items returned, unless a reference is missing |
| SubServices.MovedTouchesOnlyListed | apps/core/src/modules/categories/sub-services.service.ts:234-241 | only listed records change, only in their order, to the order last given |
| StableSort.SortIsStable | apps/core/src/modules/categories/sub-services.service.ts:119-121 | sorting by key keeps the incoming order among equal keys |
| Alerts.MonitoringService.VisitRule | libs/monitoring/src/monitoring.service.ts:429-445 | raises an alert exactly when the rule is enabled, was never triggered or its cooldown is over, and its condition holds; records it in the active map, the history and the rule, and changes nothing otherwise |
| Alerts.NextAlertIff | libs/monitoring/src/monitoring.service.ts:422-512 | over all runs, after an alert of a rule, a visit before the next one raises it if and only if the condition holds and the cooldown since the alert is over |
| Alerts.FirstAlertIff | libs/monitoring/src/monitoring.service.ts:422-445 | a rule that was never triggered raises its first alert at the first visit with a true condition if and only if it is enabled |
| Alerts.DisabledIsSilent | libs/monitoring/src/monitoring.service.ts:430 | a disabled rule raises nothing until it is updated |
| Alerts.MonitoringService.ResolveAlert | libs/monitoring/src/monitoring.service.ts:585-599 | resolves exactly an unresolved active alert, in the map and the history at once |
| Alerts.AlertsAreSpaced | libs/monitoring/src/monitoring.service.ts:422-512 | two alerts of a rule that is not updated in between are at least its cooldown apart, however runs overlap and whatever the clock does between visits |
| Alerts.WindowBound | libs/monitoring/src/monitoring.service.ts:422-512 | a window of width W holds at most W / cooldown + 1 alerts of a rule |
| Alerts.IdTextInjective | libs/monitoring/src/monitoring.service.ts:482 | the text of an alert's id determines the rule and the clock reading it is made of |
| Alerts.HistoryIsReached | libs/monitoring/src/monitoring.service.ts:482-512 | with positive cooldowns, every alert of the history is reached through the active map, and every active alert is in the history |
| Alerts.ResolvedIff | libs/monitoring/src/monitoring.service.ts:482-599 | then, over all runs, an alert of the history is resolved if and only if its id was resolved after it was raised |
| ErrorHistory.ErrorReportingService.StoreError | libs/errors/src/error-reporting.service.ts:193-200 | appends the report and drops the oldest beyond a thousand; after any reports and clears the history is the last thousand, or all, of the reports since the last clear |
| ErrorHistory.SinceClearIs | libs/errors/src/error-reporting.service.ts:193-200 | those are the reports after the last clear, in order |
| ErrorHistory.ErrorReportingService.GetErrorMetrics | libs/errors/src/error-reporting.service.ts:82-112 | aggregates the reports of the window, with the rate per minute: counts by code, severity and service that are exact and each sum to the total, the recent and the top errors |
| ErrorHistory.AggregatesAre | libs/errors/src/error-reporting.service.ts:82-112 | what is counted occurs in the reports, the recent errors are the last twenty with the latest first, and a top error carries the message of the first report of its code |
| ErrorHistory.GroupBy | libs/errors/src/error-reporting.service.ts:297-307 | each group holds exactly the reports with its key, in order |
| ErrorHistory.KeyCountsSum | libs/errors/src/error-reporting.service.ts:297-317 | whatever the key, its counts sum to the number of reports |
| ErrorHistory.HourlyErrors | libs/errors/src/error-reporting.service.ts:131-137 | the hourly counts are exact and sum to the total |
| ErrorHistory.TopErrors | libs/errors/src/error-reporting.service.ts:92-99 | at most ten distinct codes in descending count; a code left out is no more frequent than any kept |
| AcceptLanguage.DetectLanguage | libs/i18n/src/language-detector.service.ts:46-65 | the language of the earliest element of highest quality among the supported ones; the default when there is none, for a blank header, or when an element cannot be read |
| AcceptLanguage.WeightedElement | libs/i18n/src/language-detector.service.ts:77-98 | the element `tag;q=v`, with spaces around its parts, means the internal code of the tag with the number v cut to 0..1, or 1 when v is no number |
| AcceptLanguage.CodeOfTag | libs/i18n/src/language-detector.service.ts:103-110 | the code of a tag is its part before the first hyphen, in lower case, or the whole tag when that part is empty |
| AcceptLanguage.HigherWeightWins | libs/i18n/src/language-detector.service.ts:46-136 | of two supported languages the one with the higher weight is detected, whichever comes first; with equal weights the first |
| AcceptLanguage.UnreadableElement | libs/i18n/src/language-detector.service.ts:46-65 | a header of a supported language and `constructor` has a supported first element and an unreadable second |
| AcceptLanguage.FirstSupportedOfSort | libs/i18n/src/language-detector.service.ts:93-136 | sorting and taking the first supported entry is one scan for the best, ties going to the earlier entry |
| Slugs.SlugifyIsWords | scripts/seed-kodier-verwaltung-listings.ts:66-76 | the slug of a text are its maximal runs of a-z and digits, after lower-casing and transliteration, in order with one hyphen between them |
| Slugs.TransliterateEach | scripts/seed-kodier-verwaltung-listings.ts:70-73 | umlauts and sharp s become two letters wherever they stand, every other character stays |
| Slugs.SlugifyIsSlug | scripts/seed-kodier-verwaltung-listings.ts:66-76 | the result has only a-z, digits and hyphens, none leading, trailing or doubled |
| Slugs.SlugifyFixesExactlySlugs | scripts/seed-kodier-verwaltung-listings.ts:66-76 | slugify leaves a text as it is exactly when it is a slug |
| Slugs.SlugifyIdempotent | scripts/seed-kodier-verwaltung-listings.ts:66-76 | slugify is idempotent |
| Slugs.EnsureUniqueSlug | scripts/seed-kodier-verwaltung-listings.ts:237-253 | ends after at most one lookup more than there are listings, with the first free or own name among base, base-1, base-2, ... |
| Slugs.CandidateInjective | scripts/seed-kodier-verwaltung-listings.ts:251 | the names tried are all different |
| Interpolation.Interpolate | libs/i18n/src/i18n.service.ts:139-151 | one global replacement per parameter, in order |
| Interpolation.SequentialIsSimultaneous | libs/translations/src/translation.service.ts:452-459 | for flat placeholders and values without opening braces or replacement patterns, that is replacing all placeholders at once |
| Interpolation.OrderDoesNotMatter | libs/i18n/src/i18n.service.ts:139-151 | so the order of the parameters does not matter |
| Interpolation.CopiedIff | libs/i18n/src/i18n.service.ts:147 | a value is copied as it is, whatever stands around the placeholder, if and only if it holds no replacement pattern; one template tells |
| Interpolation.ExpandParts | libs/i18n/src/i18n.service.ts:147 | in a value made of patterns and text, every pattern is replaced by what it stands for and the text between is kept |
| Interpolation.ReplacementChangesIff | libs/i18n/src/i18n.service.ts:145-147 | replacing a placeholder changes a text if and only if it occurs there and its value is not itself |
| Interpolation.SimultaneousIff | libs/i18n/src/i18n.service.ts:144-148 | for pattern-free values, replacing two parameters in turn is replacing them at once on every flat template if and only if the first value forms no placeholder of the second, by itself or between two copies, or the second is filled by its own placeholder |
| Interpolation.OrderMattersIff | libs/i18n/src/i18n.service.ts:144-148 | the order of the two is immaterial on every flat template if and only if that holds in both directions |

## Left out

- HasPermission: the closure of the cities is read from one state of the database, and the cache changes only by its own write; the runs of `PermissionRuns.dfy` read each city's children at a moment of their own and let other queries write in between.
- GetUserEffectivePermissions: the agreement with permission queries is stated for users without a SUPER_ADMIN assignment, because scoped queries check the scope before the role.
- GetCityPath: fields of a city other than name and parent are not modelled.
- RunTask: the provider's outcome is a parameter; its retry loop is modelled by itself in `RetryLoop.dfy`.
- RefreshTokens: signature checks, the session table and the audit log are not modelled; user ids are taken to be free of the pattern characters `*`, `?`, `[` and the backslash, as generated ids are.
- Logout: the KEYS and the two DEL commands of a logout of all devices are one step; a login that falls between them is not modelled.
- PrefixPattern: bracket classes of Redis patterns are not modelled.
- FailStep: a saga whose entry expired after an hour is the not-found case; concurrent calls on one saga are not modelled.
- LoadSubServicesForCategories: items carry the tile or category they show instead of every response field; record ids are ordered keys.
- HourlyErrors: the final sort of the trends by text is not modelled.
- Parse: `parseFloat` is a parameter, and lower-casing covers the letters A to Z.
- Interpolate: parameter names are taken to contain no characters that are special in regular expressions; the exact conditions on values with braces are given for two parameters, the sufficient one for any number.
- Acquire: a configured limit that is not a number behaves like a limit of zero, which the model covers as such.
- Slugify: `toLowerCase` is a parameter that leaves slugs alone.
- The fallback chain of translation keys and the key walk in `libs/i18n/src/i18n.service.ts` are not modelled, being one-branch decisions; `translateBatch` runs the same loop with another success test.
- The rethrow of the first rate limit error after all tasks have settled, the creation and update of sub-services, and the effective-role computation would only add easy members.
- Branches that turn a database error into a default answer are not modelled, nor are controllers, guards, logging, health checks, images and seed data.
