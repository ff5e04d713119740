# Traffic incident services, modelled in Dafny

The model covers the service layer of a traffic-news application. Users report road incidents (accidents, construction, closures, hazards) with a severity, a location, optional coordinates and a description. The services do the following:

- **ValidationService** checks a report against seven rules and collects one message per broken rule. It also sanitises strings and checks the shape of an e-mail address.
- **RateLimiterService** admits a fixed number of submissions per user in each time window.
- **OfflineSubmissionQueue** keeps submissions made while offline. Each one moves from pending to sent or failed.
- **RefreshScheduler** switches a periodic refresh on and off. Its interval has a 5000 ms floor.
- **IncidentService** sorts incident lists by time, severity rank or type, and creates and patches incidents in the incident store.
- **FilterService** and **SearchService**, on the server, narrow an incident list. FilterService uses exact filters that accumulate across calls. SearchService does a keyword search and keeps a ten-entry history.
- The browser has its own copies of both, and the web controller has a third filter. They differ from the server versions in case sensitivity, wildcards and which fields are searched.
- The incident servlet chains filter, search and sort to list incidents.

Each service with fields is a Dafny `class` with those fields. Its methods carry `modifies` clauses, and their postconditions tie the new state to value-level functions. Properties are proved about those functions as lemmas. Pure stream filters are `Keep(xs, p)`, an order-preserving filter whose meaning is proved once in `Seqs.KeepSpec`. Sorts are a stable insertion sort, `Sorting.Sort`, proved to permute, order and keep ties in input order.

The clock, fresh ids, whether a store save succeeds and how many pending rows are read before a database error are all method arguments: `now`, `freshId`, `saveOk` and `failAfter`. Null is `None`, and timestamps are integers.

| file | module | models |
|---|---|---|
| common.dfy | Common | `Option` |
| text.dfy | Text | ASCII `toLowerCase`, Java and JavaScript `trim`, `contains`, `String.compareTo` |
| seqs.dfy | Seqs | order-preserving filtering |
| sorting.dfy | Sorting | the stable sort behind `List.sort` and `ORDER BY` |
| incident.dfy | Incidents | the incident record and `new Incident()` |
| validation.dfy | Validation | ValidationService |
| rate_limiter.dfy | RateLimiter | RateLimiterService |
| submission_queue.dfy | SubmissionQueue | OfflineSubmissionQueue over the submission table |
| refresh_scheduler.dfy | Scheduler | RefreshScheduler |
| incident_service.dfy | IncidentService | IncidentService over the incident store |
| filter_service.dfy | Filter | FilterService (server) |
| search_service.dfy | Search | SearchService (server) |
| client_filter.dfy | ClientFilter | filter-service.js |
| client_search.dfy | ClientSearch | search-service.js |
| controller_filter.dfy | ControllerFilter | `filterIncidents` of the web controller |
| pipeline.dfy | Pipeline | the filter → search → sort listing of the incident servlet |

## Model

| member | source | states |
|---|---|---|
| Validation.ValidateIncident | java/incident-service/src/main/java/com/trafficnewsapp/incident/services/ValidationService.java:23-62 | the errors are exactly the messages of the failing rules, in rule order, and the result is valid iff there are none |
| Validation.CheckType | java/incident-service/src/main/java/com/trafficnewsapp/incident/services/ValidationService.java:27-29 | adds the type message exactly when the type is null or its lowercase form is not one of the four types |
| Validation.CheckSeverity | java/incident-service/src/main/java/com/trafficnewsapp/incident/services/ValidationService.java:32-34 | adds the severity message exactly when the severity is null or its lowercase form is not one of the four levels |
| Validation.CheckLocation | java/incident-service/src/main/java/com/trafficnewsapp/incident/services/ValidationService.java:37-41 | a null or Java-blank location adds "Location is required"; otherwise an untrimmed length over 200, counted in UTF-16 units as `length()` counts, adds the length message |
| Validation.CheckDescription | java/incident-service/src/main/java/com/trafficnewsapp/incident/services/ValidationService.java:44-46 | a present description longer than 1000 UTF-16 units adds one message |
| Validation.SupplementaryCharactersCountTwice | java/incident-service/src/main/java/com/trafficnewsapp/incident/services/ValidationService.java:39-44 | a character outside the Basic Multilingual Plane counts twice: 101 of them exceed the location limit and 501 the description limit |
| Validation.CheckLatitude | java/incident-service/src/main/java/com/trafficnewsapp/incident/services/ValidationService.java:49-53 | a present latitude outside [-90, 90] adds one message; null never does |
| Validation.CheckLongitude | java/incident-service/src/main/java/com/trafficnewsapp/incident/services/ValidationService.java:55-59 | a present longitude outside [-180, 180] adds one message; null never does |
| Validation.ErrorsForRules | java/incident-service/src/main/java/com/trafficnewsapp/incident/services/ValidationService.java:23-62 | the rule-by-rule report equals the messages of the failing rules, filtered from the rule list |
| Validation.ErrorsForMembership | java/incident-service/src/main/java/com/trafficnewsapp/incident/services/ValidationService.java:26-59 | each rule's message is reported iff that rule fails, whatever the other rules do |
| Validation.NoErrorsIffNoRuleFails | java/incident-service/src/main/java/com/trafficnewsapp/incident/services/ValidationService.java:61 | the error list is empty iff no rule fails |
| Validation.LocationMessagesExclusive | java/incident-service/src/main/java/com/trafficnewsapp/incident/services/ValidationService.java:37-41 | the two location messages never occur together |
| Validation.ErrorsForOrdered | java/incident-service/src/main/java/com/trafficnewsapp/incident/services/ValidationService.java:23-62 | the failing rules are reported each at most once, in the order the checks run |
| Validation.MessagesNameAllowedValues | java/incident-service/src/main/java/com/trafficnewsapp/incident/services/ValidationService.java:14-15 | the type and severity messages name every allowed value |
| Validation.MessageInjective | java/incident-service/src/main/java/com/trafficnewsapp/incident/services/ValidationService.java:28-58 | no two rules share a message |
| Validation.MessagesDistinct | java/incident-service/src/main/java/com/trafficnewsapp/incident/services/ValidationService.java:28-58 | the seven messages are pairwise different |
| Validation.MessagesMember | java/incident-service/src/main/java/com/trafficnewsapp/incident/services/ValidationService.java:28-58 | a message is in a rule list's messages iff its rule is in the list |
| Validation.CaseInsensitiveDomains | java/incident-service/src/main/java/com/trafficnewsapp/incident/services/ValidationService.java:27-34 | type and severity acceptance ignore case |
| Validation.ValidateCoordinates | java/incident-service/src/main/java/com/trafficnewsapp/incident/services/ValidationService.java:70-82 | valid iff both coordinates are null or within bounds, bounds included; each bad coordinate adds its message, latitude first |
| Validation.CoordinateVerdictsAgree | java/incident-service/src/main/java/com/trafficnewsapp/incident/services/ValidationService.java:49-82 | `validateCoordinates` reports a coordinate message iff `validateIncident` does |
| Validation.SanitizeString | java/incident-service/src/main/java/com/trafficnewsapp/incident/services/ValidationService.java:89-94 | null gives ""; the result holds no angle bracket and is no longer than the input |
| Validation.SanitizeKeepsText | java/incident-service/src/main/java/com/trafficnewsapp/incident/services/ValidationService.java:89-94 | the result is the trimmed input with brackets deleted: an ordered subsequence holding every other character as often |
| Validation.SanitizeBracketThenBlank | java/incident-service/src/main/java/com/trafficnewsapp/incident/services/ValidationService.java:93 | brackets are removed after trimming, so `"< c"` sanitises to `" c"` |
| Validation.SanitizeLeadingBlank | java/incident-service/src/main/java/com/trafficnewsapp/incident/services/ValidationService.java:93 | a leading blank is trimmed away |
| Validation.SanitizeNotIdempotent | java/incident-service/src/main/java/com/trafficnewsapp/incident/services/ValidationService.java:89-94 | sanitising twice can differ from sanitising once |
| Validation.LocalPartLength | java/incident-service/src/main/java/com/trafficnewsapp/incident/services/ValidationService.java:16 | the greedy `[A-Za-z0-9+_.-]+` prefix: all its characters are in the class and the next one is not |
| Validation.ValidateEmailSpec | java/incident-service/src/main/java/com/trafficnewsapp/incident/services/ValidationService.java:101-106 | valid iff non-null, non-blank and splitting at its first '@' into a non-empty class-only prefix and a non-empty rest without line terminators |
| RateLimiter.RateLimiterService.constructor | java/user-service/src/main/java/com/trafficnewsapp/user/services/RateLimiterService.java:20-24 | keeps the limit and window, with no records |
| RateLimiter.RateLimiterService.Default | java/user-service/src/main/java/com/trafficnewsapp/user/services/RateLimiterService.java:26-28 | 5 calls per 3,600,000 ms |
| RateLimiter.RateLimiterService.CanSubmit | java/user-service/src/main/java/com/trafficnewsapp/user/services/RateLimiterService.java:35-62 | the answer and the user's new record are the decision on that user's record alone; no other record changes; counts stay in 1..Cap(limit) |
| RateLimiter.RateLimiterService.ResetUser | java/user-service/src/main/java/com/trafficnewsapp/user/services/RateLimiterService.java:68-70 | removes that user's record and nothing else |
| RateLimiter.FirstCallAdmitted | java/user-service/src/main/java/com/trafficnewsapp/user/services/RateLimiterService.java:39-45 | a first call is admitted and records (now, 1) |
| RateLimiter.WindowExpiryIsStrict | java/user-service/src/main/java/com/trafficnewsapp/user/services/RateLimiterService.java:48-53 | the window resets only when strictly more than `windowMs` has passed |
| RateLimiter.ActiveWindow | java/user-service/src/main/java/com/trafficnewsapp/user/services/RateLimiterService.java:56-61 | inside the window a call is admitted iff count < limit; admission adds exactly one; a refusal leaves the record unchanged |
| RateLimiter.DecideKeepsCountInRange | java/user-service/src/main/java/com/trafficnewsapp/user/services/RateLimiterService.java:39-61 | every stored count lies in 1..Cap(limit) |
| RateLimiter.AdmissionsWithinWindow | java/user-service/src/main/java/com/trafficnewsapp/user/services/RateLimiterService.java:48-61 | calls inside an open window admit no more than the room left in it |
| RateLimiter.AtMostCapPerWindow | java/user-service/src/main/java/com/trafficnewsapp/user/services/RateLimiterService.java:39-61 | a window admits at most Cap(limit) calls (the limit, when it is at least 1) |
| RateLimiter.ResetMakesFirstCall | java/user-service/src/main/java/com/trafficnewsapp/user/services/RateLimiterService.java:68-70 | after a reset the next call is treated as a first call |
| RateLimiter.Lookup | java/user-service/src/main/java/com/trafficnewsapp/user/services/RateLimiterService.java:37 | `requests.get`: the record iff the user has one |
| SubmissionQueue.Find | java/scheduler-service/src/main/java/com/trafficnewsapp/scheduler/dao/SubmissionDAO.java:84-101 | finds a row with the id, or reports that no row has it |
| SubmissionQueue.FindUpsert | java/scheduler-service/src/main/java/com/trafficnewsapp/scheduler/dao/SubmissionDAO.java:34-46 | after a save, the saved submission is the row for its id and every other id finds what it found before |
| SubmissionQueue.UpsertMembers | java/scheduler-service/src/main/java/com/trafficnewsapp/scheduler/dao/SubmissionDAO.java:34-46 | after a save the table holds the saved row and every old row with another id |
| SubmissionQueue.UpsertKeepsIdsDistinct | java/scheduler-service/src/main/java/com/trafficnewsapp/scheduler/dao/SubmissionDAO.java:34-46 | saving keeps ids unique |
| SubmissionQueue.UpsertOverwrite | java/scheduler-service/src/main/java/com/trafficnewsapp/scheduler/dao/SubmissionDAO.java:34-46 | a second save under the same id replaces the first |
| SubmissionQueue.PendingOfSpec | java/scheduler-service/src/main/java/com/trafficnewsapp/scheduler/dao/SubmissionDAO.java:16-32 | the pending list holds exactly the pending rows, each as often as in the table, by timestamp ascending |
| SubmissionQueue.SetStatusEffect | java/scheduler-service/src/main/java/com/trafficnewsapp/scheduler/services/OfflineSubmissionQueue.java:50-71 | succeeds iff the id exists and the save succeeds; then only that row changes, and only in status; otherwise nothing changes |
| SubmissionQueue.SetStatusPending | java/scheduler-service/src/main/java/com/trafficnewsapp/scheduler/services/OfflineSubmissionQueue.java:50-71 | a row marked sent or failed leaves the pending list, and every other pending row stays |
| SubmissionQueue.SetStatusOverwrites | java/scheduler-service/src/main/java/com/trafficnewsapp/scheduler/services/OfflineSubmissionQueue.java:50-71 | the current status is not inspected: repeating a transition changes nothing more, and the later transition wins |
| SubmissionQueue.AddedIsPending | java/scheduler-service/src/main/java/com/trafficnewsapp/scheduler/services/OfflineSubmissionQueue.java:26-43 | a saved new submission is on the pending list |
| SubmissionQueue.OfflineSubmissionQueue.constructor | java/scheduler-service/src/main/java/com/trafficnewsapp/scheduler/services/OfflineSubmissionQueue.java:16-19 | a new queue is online |
| SubmissionQueue.OfflineSubmissionQueue.AddSubmission | java/scheduler-service/src/main/java/com/trafficnewsapp/scheduler/services/OfflineSubmissionQueue.java:26-35 | a pending submission with the payload and time, online or not; returned iff the save succeeds, and the table changes only then |
| SubmissionQueue.OfflineSubmissionQueue.GetPendingSubmissions | java/scheduler-service/src/main/java/com/trafficnewsapp/scheduler/services/OfflineSubmissionQueue.java:41-43 | without a database error, exactly the pending rows ordered by timestamp; after one, the rows read before it, a prefix of that list |
| SubmissionQueue.OfflineSubmissionQueue.ProcessSubmission | java/scheduler-service/src/main/java/com/trafficnewsapp/scheduler/services/OfflineSubmissionQueue.java:50-57 | the status change to sent, as `SetStatus` states it |
| SubmissionQueue.OfflineSubmissionQueue.MarkAsFailed | java/scheduler-service/src/main/java/com/trafficnewsapp/scheduler/services/OfflineSubmissionQueue.java:64-71 | the status change to failed, as `SetStatus` states it |
| SubmissionQueue.OfflineSubmissionQueue.SetOnline | java/scheduler-service/src/main/java/com/trafficnewsapp/scheduler/services/OfflineSubmissionQueue.java:73-75 | sets the online flag, the only method that changes it |
| SubmissionQueue.OfflineSubmissionQueue.IsOnline | java/scheduler-service/src/main/java/com/trafficnewsapp/scheduler/services/OfflineSubmissionQueue.java:77-79 | reads the flag |
| Scheduler.RefreshScheduler.constructor | java/scheduler-service/src/main/java/com/trafficnewsapp/scheduler/services/RefreshScheduler.java:16-20 | not running, no timer, the interval as given (no 5000 floor) |
| Scheduler.RefreshScheduler.Default | java/scheduler-service/src/main/java/com/trafficnewsapp/scheduler/services/RefreshScheduler.java:22-24 | the 30000 ms default |
| Scheduler.RefreshScheduler.Start | java/scheduler-service/src/main/java/com/trafficnewsapp/scheduler/services/RefreshScheduler.java:30-47 | refuses while running; otherwise arms the timer and runs; keeps the timer armed iff running (corrected, see Findings) |
| Scheduler.RefreshScheduler.Stop | java/scheduler-service/src/main/java/com/trafficnewsapp/scheduler/services/RefreshScheduler.java:53-65 | refuses when stopped; otherwise disarms and stops |
| Scheduler.RefreshScheduler.SetInterval | java/scheduler-service/src/main/java/com/trafficnewsapp/scheduler/services/RefreshScheduler.java:72-87 | under 5000 refuses and changes nothing; otherwise stores the interval and restarts if running |
| Scheduler.RefreshScheduler.GetInterval | java/scheduler-service/src/main/java/com/trafficnewsapp/scheduler/services/RefreshScheduler.java:89-91 | reads the interval |
| Scheduler.RefreshScheduler.IsRunning | java/scheduler-service/src/main/java/com/trafficnewsapp/scheduler/services/RefreshScheduler.java:93-95 | reads the running flag |
| Scheduler.StartSpec | java/scheduler-service/src/main/java/com/trafficnewsapp/scheduler/services/RefreshScheduler.java:30-47 | refuses while running; with a positive interval it starts with the timer armed and the interval unchanged |
| Scheduler.SetIntervalSpec | java/scheduler-service/src/main/java/com/trafficnewsapp/scheduler/services/RefreshScheduler.java:72-87 | under 5000 nothing changes; otherwise the interval is stored and the running flag is as before |
| Scheduler.OperationsKeepConsistent | java/scheduler-service/src/main/java/com/trafficnewsapp/scheduler/services/RefreshScheduler.java:35-63 | start, stop and setInterval keep "timer set iff running" |
| Scheduler.StartAsWrittenLeaksTimer | java/scheduler-service/src/main/java/com/trafficnewsapp/scheduler/services/RefreshScheduler.java:35-43 | as written, a zero interval leaves a timer set on a stopped scheduler that `stop` will not cancel |
| Scheduler.StartAgreesOnPositiveIntervals | java/scheduler-service/src/main/java/com/trafficnewsapp/scheduler/services/RefreshScheduler.java:30-47 | the corrected start is the original on every positive interval |
| IncidentService.SeverityOrder | java/incident-service/src/main/java/com/trafficnewsapp/incident/services/IncidentService.java:123-131 | the rank lies in 0..4 |
| IncidentService.SeverityOrderSpec | java/incident-service/src/main/java/com/trafficnewsapp/incident/services/IncidentService.java:123-131 | critical 4, high 3, medium 2, low 1, null 0; case is ignored |
| IncidentService.ComparatorIsComparator | java/incident-service/src/main/java/com/trafficnewsapp/incident/services/IncidentService.java:95-115 | every key and direction gives a proper comparator |
| IncidentService.CompareTypesIsComparator | java/incident-service/src/main/java/com/trafficnewsapp/incident/services/IncidentService.java:108 | comparing types is antisymmetric and transitive |
| IncidentService.SortIncidents | java/incident-service/src/main/java/com/trafficnewsapp/incident/services/IncidentService.java:92-118 | fails (NullPointerException) iff sorting two or more incidents by type with a null type; otherwise a permutation of the input |
| IncidentService.SortIncidentsOrdered | java/incident-service/src/main/java/com/trafficnewsapp/incident/services/IncidentService.java:98-114 | the result is ascending by key for "asc" in any case, descending otherwise |
| IncidentService.CompareByMeaning | java/incident-service/src/main/java/com/trafficnewsapp/incident/services/IncidentService.java:98-111 | the keys are timestamp, severity rank and lexicographic type; an unknown key compares everything equal |
| IncidentService.SortIncidentsStable | java/incident-service/src/main/java/com/trafficnewsapp/incident/services/IncidentService.java:95 | incidents with equal keys keep their input order, in both directions |
| IncidentService.UnknownSortKeyKeepsOrder | java/incident-service/src/main/java/com/trafficnewsapp/incident/services/IncidentService.java:110-111 | an unrecognised `sortBy` returns the input unchanged |
| IncidentService.PatchIdempotent | java/incident-service/src/main/java/com/trafficnewsapp/incident/services/IncidentService.java:64-70 | applying the same updates twice is applying them once |
| IncidentService.PatchKeepsIdentity | java/incident-service/src/main/java/com/trafficnewsapp/incident/services/IncidentService.java:64-70 | id, timestamp, reporter and submission never change; updates without fields change nothing |
| IncidentService.FreshPatchResetsStatus | java/incident-service/src/main/java/com/trafficnewsapp/incident/models/Incident.java:24-27 | updates built by `new Incident()` always reset the status to "pending" |
| IncidentService.IncidentService.constructor | java/incident-service/src/main/java/com/trafficnewsapp/incident/services/IncidentService.java:16-18 | the service over the given incident store |
| IncidentService.IncidentService.CreateIncident | java/incident-service/src/main/java/com/trafficnewsapp/incident/services/IncidentService.java:42-49 | keeps an existing id, assigns one only when null; returned iff saved, and the store changes only then |
| IncidentService.IncidentService.UpdateIncident | java/incident-service/src/main/java/com/trafficnewsapp/incident/services/IncidentService.java:57-74 | unknown id: null and no save; otherwise the non-null fields are copied over the stored incident, and it is returned iff saved |
| Incidents.NewIncident | java/incident-service/src/main/java/com/trafficnewsapp/incident/models/Incident.java:24-27 | a new incident has only its timestamp and the "pending" status set |
| Filter.FilterService.constructor | java/incident-service/src/main/java/com/trafficnewsapp/incident/services/FilterService.java:16-18 | no active filters |
| Filter.FilterService.FilterIncidents | java/incident-service/src/main/java/com/trafficnewsapp/incident/services/FilterService.java:26-57 | the active filters become the old ones overridden by the criteria; the result keeps the incidents the merged filters accept |
| Filter.FilterService.ApplyFilters | java/incident-service/src/main/java/com/trafficnewsapp/incident/services/FilterService.java:64-66 | filters with the active filters, which stay as they were |
| Filter.FilterService.ClearFilters | java/incident-service/src/main/java/com/trafficnewsapp/incident/services/FilterService.java:71-73 | empties the active filters |
| Filter.FilterService.GetActiveFilters | java/incident-service/src/main/java/com/trafficnewsapp/incident/services/FilterService.java:79-81 | returns the active filters, changing nothing |
| Filter.FilterService.SetFilter | java/incident-service/src/main/java/com/trafficnewsapp/incident/services/FilterService.java:88-92 | sets only the named filter, and only for type, severity or status |
| Filter.FilterService.RemoveFilter | java/incident-service/src/main/java/com/trafficnewsapp/incident/services/FilterService.java:98-100 | deletes only that name |
| Filter.MatchesSpec | java/incident-service/src/main/java/com/trafficnewsapp/incident/services/FilterService.java:34-52 | kept iff every non-null filter among type, severity and status exactly equals its field; a null field never matches |
| Filter.FilterResultSpec | java/incident-service/src/main/java/com/trafficnewsapp/incident/services/FilterService.java:31-57 | the result is an order-preserving subsequence holding exactly the matching incidents |
| Filter.NoActiveFilterKeepsAll | java/incident-service/src/main/java/com/trafficnewsapp/incident/services/FilterService.java:34-55 | with no non-null filter the output equals the input |
| Filter.NullOrForeignEntryIgnored | java/incident-service/src/main/java/com/trafficnewsapp/incident/services/FilterService.java:34-52 | a null filter, or one under another name, filters like no filter |
| Filter.MergeKeepsOlderFilters | java/incident-service/src/main/java/com/trafficnewsapp/incident/services/FilterService.java:27-29 | a filter the new criteria leave out stays in force |
| Search.SearchService.constructor | java/incident-service/src/main/java/com/trafficnewsapp/incident/services/SearchService.java:17-19 | an empty history |
| Search.SearchService.SearchIncidents | java/incident-service/src/main/java/com/trafficnewsapp/incident/services/SearchService.java:27-58 | a null or blank keyword returns the input and keeps the history; otherwise the lowercased, trimmed term is remembered and the matching incidents are returned in order |
| Search.SearchService.AddToHistory | java/incident-service/src/main/java/com/trafficnewsapp/incident/services/SearchService.java:64-72 | the history update `Remember`, keeping it bounded and duplicate-free |
| Search.SearchService.GetSearchHistory | java/incident-service/src/main/java/com/trafficnewsapp/incident/services/SearchService.java:78-80 | returns the history, changing nothing |
| Search.SearchService.ClearSearchHistory | java/incident-service/src/main/java/com/trafficnewsapp/incident/services/SearchService.java:85-87 | empties the history |
| Search.RememberSpec | java/incident-service/src/main/java/com/trafficnewsapp/incident/services/SearchService.java:64-72 | at most 10 entries and no duplicates; a known term leaves the history unchanged; a new term becomes the head, followed by the older entries, with the oldest dropped only past 10 |
| Search.RememberMembers | java/incident-service/src/main/java/com/trafficnewsapp/incident/services/SearchService.java:64-72 | only the searched term can enter the history |
| Search.SearchTermNonEmpty | java/incident-service/src/main/java/com/trafficnewsapp/incident/services/SearchService.java:28-33 | the search term is empty iff the keyword is blank |
| Search.SearchTermIgnoresCase | java/incident-service/src/main/java/com/trafficnewsapp/incident/services/SearchService.java:32 | the keyword's case does not matter |
| Search.SearchResultSpec | java/incident-service/src/main/java/com/trafficnewsapp/incident/services/SearchService.java:35-57 | an order-preserving subsequence of exactly the incidents whose location, description or type contains the term; null fields never match |
| ClientFilter.FilterService.constructor | java/web-app/src/main/webapp/resources/js/filter-service.js:6-12 | all three filters null |
| ClientFilter.FilterService.FilterIncidents | java/web-app/src/main/webapp/resources/js/filter-service.js:20-41 | spreads the criteria over the active filters, so absent names keep their values; keeps the matching incidents in order |
| ClientFilter.FilterService.ClearFilters | java/web-app/src/main/webapp/resources/js/filter-service.js:46-52 | all three filters back to null |
| ClientFilter.FilterService.GetActiveFilters | java/web-app/src/main/webapp/resources/js/filter-service.js:58-60 | returns the filters, changing nothing |
| ClientFilter.FilterService.SetFilter | java/web-app/src/main/webapp/resources/js/filter-service.js:67-71 | sets only one of the three names, a falsy value as null; other names are ignored |
| ClientFilter.MatchesSpec | java/web-app/src/main/webapp/resources/js/filter-service.js:25-37 | kept iff every truthy filter strictly equals its field |
| ClientFilter.EmptyStringIsWildcard | java/web-app/src/main/webapp/resources/js/filter-service.js:25-37 | an empty-string filter acts like null |
| ClientFilter.FilterResultSpec | java/web-app/src/main/webapp/resources/js/filter-service.js:23-40 | an order-preserving subsequence holding exactly the matching incidents |
| ClientFilter.NoTruthyFilterKeepsAll | java/web-app/src/main/webapp/resources/js/filter-service.js:23-40 | with no truthy filter the output is the input |
| ClientFilter.AgreesWithServerFilter | java/web-app/src/main/webapp/resources/js/filter-service.js:25-37 | without empty-string values, browser and server filters keep the same incidents |
| ClientFilter.EmptyTypeFilterDiffers | java/web-app/src/main/webapp/resources/js/filter-service.js:25 | an empty type filter keeps everything in the browser but only empty-typed incidents on the server |
| ClientFilter.SetFilterNormalises | java/web-app/src/main/webapp/resources/js/filter-service.js:67-71 | `setFilter` and `clearFilters` never store an empty string |
| ClientSearch.SearchService.constructor | java/web-app/target/web-app-1.0.0/resources/js/search-service.js:6-8 | an empty history |
| ClientSearch.SearchService.SearchIncidents | java/web-app/target/web-app-1.0.0/resources/js/search-service.js:16-42 | a falsy or JavaScript-blank keyword returns the input and keeps the history; otherwise the term is remembered and the matches are returned in order |
| ClientSearch.SearchService.AddToHistory | java/web-app/target/web-app-1.0.0/resources/js/search-service.js:48-56 | the `unshift`-and-`slice` update, keeping the history bounded and duplicate-free |
| ClientSearch.RememberSpec | java/web-app/target/web-app-1.0.0/resources/js/search-service.js:48-56 | at most 10 entries, no duplicates; a known term changes nothing; a new term becomes the head |
| ClientSearch.RememberAgreesWithServer | java/web-app/target/web-app-1.0.0/resources/js/search-service.js:50-54 | on histories of at most 10 entries, browser and server remember alike |
| ClientSearch.SearchTermNonEmpty | java/web-app/target/web-app-1.0.0/resources/js/search-service.js:17-21 | the term is empty iff the keyword is falsy or blank |
| ClientSearch.MatchesAgreeWithServer | java/web-app/target/web-app-1.0.0/resources/js/search-service.js:24-41 | for a non-empty term, browser and server searches keep the same incidents |
| ClientSearch.ControlCharacterKeyword | java/web-app/target/web-app-1.0.0/resources/js/search-service.js:17 | a one-character control keyword is blank for the server but a search term for the browser |
| ControllerFilter.FilterIncidents | java/web-app/src/main/java/com/trafficnewsapp/web/servlets/IncidentControllerServlet.java:99-138 | the loop returns exactly the incidents passing all three conditions, in input order |
| ControllerFilter.FilterResultSpec | java/web-app/src/main/java/com/trafficnewsapp/web/servlets/IncidentControllerServlet.java:101-137 | an order-preserving subsequence; kept iff the type and severity match ignoring case (when given) and the keyword occurs in "location description" (when given) |
| ControllerFilter.NoConditionKeepsAll | java/web-app/src/main/java/com/trafficnewsapp/web/servlets/IncidentControllerServlet.java:107-130 | null or empty parameters are wildcards |
| ControllerFilter.NullTypeExcluded | java/web-app/src/main/java/com/trafficnewsapp/web/servlets/IncidentControllerServlet.java:107-112 | a given type filter never keeps an incident with a null type |
| ControllerFilter.TypeFilterIgnoresCase | java/web-app/src/main/java/com/trafficnewsapp/web/servlets/IncidentControllerServlet.java:109 | the controller's type filter ignores case, where the server FilterService's does not |
| ControllerFilter.TypeNotSearched | java/web-app/src/main/java/com/trafficnewsapp/web/servlets/IncidentControllerServlet.java:123-130 | the keyword is not looked for in the type, unlike SearchService |
| ControllerFilter.SpaceKeywordMatchesAll | java/web-app/src/main/java/com/trafficnewsapp/web/servlets/IncidentControllerServlet.java:126-127 | the keyword is not trimmed, so a single-space keyword matches every incident |
| ControllerFilter.NullLocationSearchedAsNull | java/web-app/src/main/java/com/trafficnewsapp/web/servlets/IncidentControllerServlet.java:126 | a null location is searched as the text "null" |
| Pipeline.RequestFilters | java/incident-service/src/main/java/com/trafficnewsapp/incident/servlets/IncidentServlet.java:86-89 | holds exactly the non-empty type, severity and status parameters |
| Pipeline.RequestFiltersMatch | java/incident-service/src/main/java/com/trafficnewsapp/incident/servlets/IncidentServlet.java:86-92 | the request's criteria keep exactly the incidents whose fields equal every given parameter |
| Pipeline.RequestFilterPasses | java/incident-service/src/main/java/com/trafficnewsapp/incident/servlets/IncidentServlet.java:86-89 | one criterion passes iff its parameter is absent or empty, or equals the field |
| Pipeline.FreshFilterIsRequestFilter | java/incident-service/src/main/java/com/trafficnewsapp/incident/servlets/IncidentServlet.java:86-93 | with no earlier filters, the filter step keeps exactly what the request selects |
| Pipeline.RespondDrawsFromInput | java/incident-service/src/main/java/com/trafficnewsapp/incident/servlets/IncidentServlet.java:79-106 | a listing holds only incidents of the input, each at most as often |
| Pipeline.FreshRespondSpec | java/incident-service/src/main/java/com/trafficnewsapp/incident/servlets/IncidentServlet.java:81-106 | with a fresh filter service, an incident is listed iff it is in the input, matches the request's filters and matches the keyword |
| Pipeline.StickyFiltersDropRequestedIncident | java/incident-service/src/main/java/com/trafficnewsapp/incident/servlets/IncidentServlet.java:40-93 | as written, an earlier request's type filter drops an incident that a later request for severity alone asked for |
| Pipeline.ListIncidentsAsWritten | java/incident-service/src/main/java/com/trafficnewsapp/incident/servlets/IncidentServlet.java:81-106 | the listing under the shared filter service's previous filters, which accumulate the request's criteria |
| Pipeline.ListIncidents | java/incident-service/src/main/java/com/trafficnewsapp/incident/servlets/IncidentServlet.java:81-106 | the corrected listing: it depends on the request alone |
| Sorting.SortPermutes | java/incident-service/src/main/java/com/trafficnewsapp/incident/services/IncidentService.java:95 | the sort only reorders |
| Sorting.SortSorted | java/incident-service/src/main/java/com/trafficnewsapp/incident/services/IncidentService.java:95 | the sort's result is in comparator order |
| Sorting.SortStable | java/incident-service/src/main/java/com/trafficnewsapp/incident/services/IncidentService.java:95 | elements the comparator ties keep their input order |
| Seqs.KeepSpec | java/incident-service/src/main/java/com/trafficnewsapp/incident/services/FilterService.java:32-57 | a stream filter gives an ordered subsequence holding each passing element as often as the input does |

## Left out

- The clock, id generation and database failures are arguments: `now`, `freshId`, `saveOk` for a failed save, and `failAfter` for a failed read of the pending submissions. A failed `getSubmissionById` in `processSubmission` and `markAsFailed` returns false and changes nothing, which is what `saveOk = false` gives. Other reads of the incident store (`getAllIncidents`, `getIncidentById`) do not fail in this model. The JDBC DAOs are in-memory: the incident store is a map from id to incident, and the submission store is a table of rows in insertion order with distinct ids. The table form is what lets `ORDER BY timestamp` be modelled. Rows with equal timestamps come out in table order; the database leaves that order open.
- Scheduler.RefreshScheduler: the `Timer` thread and the callback it runs are not modelled. The timer is a flag saying whether a timer is set.
- Concurrency: unsynchronised access to the rate limiter's and the filter service's maps from several request threads is not modelled. Everything is single-threaded.
- RateLimiter.RateLimiterService.CanSubmit: `now - firstRequestTime` is unbounded, so Java's `long` overflow is not modelled. The count's `int` overflow cannot occur, because counts stay at or below the limit.
- Validation: latitude and longitude are `real`, so NaN and the rounding of `Double` are not modelled.
- Validation.ValidateEmailSpec: Java's regular expression is stated as its meaning, not run by a regex engine.
- Text: `toLowerCase`, `equalsIgnoreCase` and `compareTo` fold only ASCII letters, and `compareTo` orders code points instead of UTF-16 units (the two orders differ only between a supplementary character and one from U+E000 to U+FFFF). `length()` is modelled in UTF-16 units by `Text.Utf16Length`. Locale-sensitive and non-ASCII case folding is not modelled.
- SubmissionQueue: the three statuses are a datatype. Rows the queue did not write, with other status strings, are not modelled. The payload is an opaque string.
- IncidentService.SortIncidents: modelled on values, as the stable sort's result. The in-place sort of the list copy is not modelled. The comparator's exact magnitudes (`compareTo` differences) are reduced to their sign. Timestamps are never null, so the NullPointerException of a null timestamp is not modelled.
- Filter: a HashMap's null key is not modelled; filter names are strings.
- ClientFilter and ClientSearch: values that are neither strings nor null/undefined (numbers, objects) are not modelled.
- ControllerFilter.FilterIncidents: the controller reads each field with a `(String)` cast from a JSON map. A field holding a number or an object throws `ClassCastException`; the model takes typed incidents, so that exception is not modelled.
- IncidentService.IncidentService.CreateIncident: `createIncident` writes the fresh id into the caller's object before saving, so that object keeps the new id even when the save fails. The model passes incidents by value and does not capture this aliasing.
- Search.SearchService.AddToHistory: the `term != null` test is not modelled; the method's only caller never passes null.
- Pipeline: request parsing, JSON output and status codes are not modelled. A sort that throws is `None`, the servlet's 500 response. The servlet's other routes (get by id, create, update, delete) are also not modelled.
- IncidentService: deleting incidents and the status query are not part of this model.

## Findings

| source | as written | input that shows it | evidently intended | confidence | as-written member | corrected member |
|---|---|---|---|---|---|---|
| java/scheduler-service/src/main/java/com/trafficnewsapp/scheduler/services/RefreshScheduler.java:35-45 | `timer` is assigned a new `Timer` before `scheduleAtFixedRate`, which throws `IllegalArgumentException` for a period that is not positive. The constructor accepts any interval. | `new RefreshScheduler(cb, 0).start()` throws, leaving `timer` set while `isRunning` is false. `stop()` then returns false, so that timer is never cancelled. | a failed start leaves no timer behind, so the timer is set exactly while running | high (not executed) | Scheduler.StartAsWrittenLeaksTimer | Scheduler.RefreshScheduler.Start |
| java/incident-service/src/main/java/com/trafficnewsapp/incident/servlets/IncidentServlet.java:40-93 | One FilterService serves every request, and `filterIncidents` merges each request's criteria into its active filters with `putAll` (FilterService.java:27-29). | A request `?type=accident`, then a request `?severity=high`: the second filters on type "accident" too, and drops a high-severity closure it asked for. | a listing is filtered by its own request's parameters only | high (not executed) | Pipeline.StickyFiltersDropRequestedIncident | Pipeline.ListIncidents |
