# TrafegoFlow: a Dafny model of its calculations, formats, caches and state machines

TrafegoFlow is a NestJS backend that reports on Meta campaigns, uploads media, answers Instagram
messages and keeps the contracts of an agency's clients. This project models the parts of it that
compute, print, remember or change state, and proves what they are for. `dafny verify dfyconfig.toml`
checks everything.

| module | what it models |
|---|---|
| `Prelude`, `Sorting` | options and results; `split`, `join`; sorting by any order and what every sort returns; the order of strings |
| `Calendar` | the date arithmetic of ECMA-262 (section 21.4.1) on whole days, derived from the leap-year rule |
| `IsoWeek` | the ISO week number, the last complete week and the reported window |
| `Installments` | the monthly due dates of a contract |
| `Csv` | the CSV of an export, and a reader of the grammar of section 2 of RFC 4180 |
| `FileNamer` | the names of uploaded media, and a reader of them |
| `CacheKey` | the keys of the insight cache, and a reader of them |
| `InsightsExport` | single insight pages and the paginated export over one shared cache |
| `AuthState` | the WhatsApp session keys: a write-through memory before a table |
| `WhatsAppGroups`, `Integrations` | services whose caches hold rows, derived lists, and one row under two keys |
| `Billing` | contracts and installments, and the response that lists them |
| `ConversationRules` | the auto-reply rules and the icebreaker buttons of a remote Instagram page |
| `MediaLibrary`, `ChunkedUpload` | upload logs against queued jobs; the chunk loop driven by the server's offsets |
| `Webhook` | from webhook events to jobs, and from jobs over their attempts to replies |
| `CampaignSplitter` | insight rows split by campaign name and summed |
| `AdLibrary` | keeping the latest ad of each page, filtering and slicing |

Code that works by changing things is a class or a method with loops, proved against a specification
(`…Step` and `…Run` functions, or a relation), and the lemmas are about that specification. Services
with a cache are proved against the same service without one: each answer, and the table after each
call, is what the uncached service gives, for every sequence of calls. What a specification function
says is in turn stated in the terms of its inputs (`…Stores`, `…AcceptedIff`, `…Are`): which requests are
accepted and which error they get, which fields change and which stay.

## Assumptions

- Each service call is one step; calls on the same row do not overlap. The code does not lock.
- A cache entry may vanish at any moment (`Expire`, `Lookup`, `Restart`). Writes to the database
  succeed unless a unique index or constraint of the table forbids them; where a remote call or the queue can fail, a parameter says whether it does (`online`,
  `added`, `decrypts`, `uploaded`, `accepts`).
- Decrypting and parsing undo encrypting and serializing. Encryption of session values takes a fresh
  nonce, so two encryptions of a value need not be equal.
- Rows that are softly deleted are not returned. The page of an integration stays taken after its row
  is deleted (src/database/migrations/1779922436820-Migration.ts:12); the trigger of a rule is free
  again (src/database/migrations/1783000000000-CreateConversationRulesTable.ts:27-29).
- Row ids are generated and new; they are numbered in order here. The payload of an icebreaker is a
  new UUID (the `uuid` parameter); creation checks it like any other trigger.
- Each client has at most one fixed Instagram page; a failed call to Meta leaves it as it was.
- Optional fields of an update are present or absent; absent means unchanged.
- Dates are whole days. `Date` reads the years 0 to 99 as 1900 to 1999 where it builds a date from
  parts, and the model does so too.
- `toLowerCase` on rule texts, Unicode decomposition (`nfd`) and number formatting are parameters;
  a formatted number is never empty. Spend and rates are exact reals.

## Where the code does not do what one expects

Each of these is a lemma that says exactly when it happens.

- A date rebuilt in one of the years 0 to 99 lands 1900 years later, so week numbers
  (`IsoWeek.RightOnTheWholeWeek`), schedules (`Installments.ScheduleIff`) and the order of due dates
  (`Installments.IncreasingIff`) are wrong there and right everywhere else.
- A start given for the weekly report is not checked to be a Monday (`IsoWeek.WindowIsOneWeek`).
- The request checks leave breakdowns and accounts free, and one that holds a colon may read like the
  rest of another request's key, so that the two share a key: exactly when it blurs into it
  (`CacheKey.KeysMeetIff`; `CacheKey.FreeTextBreakdownsMeet` is such a pair). The shared page is then
  wrong for one of them (`InsightsExport.SharedKeyMisleads`).
- An update of a rule does not repeat the check for an existing trigger, and creation takes a missing
  trigger and an empty one for different. The unique index of the table then refuses the row, as an
  error of the database instead of the conflict that the check reports
  (`ConversationRules.UpdateIsDuplicateIff`, `ConversationRules.CreateIsDuplicateIff`); triggers stay
  unique in every run (`ConversationRules.EveryRunKeepsInv`).
- A name generated with start version k is generated again by an upload that counts k - 1 names
  (`FileNamer.StartVersionRepeatsIff`; `FileNamer.NamesMeetIff` is the general condition and
  `FileNamer.StartVersionRepeats` a case).
- An upload whose job the queue refuses, or whose token the worker cannot decrypt, stays PROCESSING
  for ever: no job is left and a retry needs FAILED (`MediaLibrary.EveryRunFollows`,
  `MediaLibrary.ProcessingMeansOneJobIff`).
- An answer of the upload server beyond the end of the chunk skips bytes for good, and one that is not
  a number ends the upload as finished (`ChunkedUpload.CompleteIff`, `ChunkedUpload.ForwardCompleteIff`).
  The loop does not end when an offset is asked for twice (`ChunkedUpload.EndsIff`, for servers whose
  answers depend on the offset alone; `ChunkedUpload.Stalls` is a case).
- An EXPIRED contract may still be cancelled; `Billing.EveryRunFollows` gives all changes of status.
- Two session keys that share a row are one key to the store (`AuthState.KeysCollideIff`,
  `AuthState.CollisionShows`), and one call that deletes and then sets such a row leaves the memory
  ahead of the rows (`AuthState.DbAuthState.Set`).
- A comment whose public reply is rate-limited is tried again as a whole, so its private reply may be
  delivered again (`Webhook.PrivateReplyRepeatsIff`).
- The public reply of the page is a comment itself, whose author is not looked at: if it contains the
  keyword of its rule, it is answered again (`Webhook.OwnReplyAnsweredIff`).
- A page whose latest ad fails the filters is not shown even if an older ad passes
  (`AdLibrary.ShownIff`).

## Model

| member | source | states |
|---|---|---|
| Calendar.DayFromYearClosed | src/modules/report-dispatches/report-dispatches.service.ts:459-468 | The first days of the years, laid end to end by the leap-year rule, are the closed form that ECMA-262 gives for `Date`, for all years, also negative ones. |
| Calendar.CivilOfMakeDay | src/modules/report-dispatches/report-dispatches.service.ts:459-468 | Year, month and day of month of a day built from parts are these parts, for all dates. |
| Calendar.CivilRoundTrip | src/modules/report-dispatches/report-dispatches.service.ts:459-468 | Building a day from its own year, month and day of month gives it back. |
| IsoWeek.WeekNumberIsIso | src/modules/report-dispatches/report-dispatches.service.ts:459-468 | The number computed through the Thursday of the week is the one of section 2.2.10 of ISO 8601:2004, and no other number is, for all days. |
| IsoWeek.WeeksAdvance | src/modules/report-dispatches/report-dispatches.service.ts:459-468 | The number is in 1..53, the same from Monday to Sunday, and a week later one more, or 1 after 52 or 53. |
| IsoWeek.GetIsoWeekNumber | src/modules/report-dispatches/report-dispatches.service.ts:459-468 | The steps of the service give the standard's number in all years that `Date.UTC` takes as they are, and in the others that of the rebuilt date. |
| IsoWeek.RightOnTheWholeWeek | src/modules/report-dispatches/report-dispatches.service.ts:459-468 | The service numbers all days of a week right exactly when the week does not touch the years 0..99. |
| IsoWeek.GetLastMonday | src/modules/report-dispatches/report-dispatches.service.ts:530-538 | The result is the Monday of the week before the current one. |
| IsoWeek.DefaultWindow | src/modules/report-dispatches/report-dispatches.service.ts:160-163 | The default window is exactly the week before that of today: it starts on a Monday, is past, and has one number. |
| IsoWeek.WindowIsOneWeek | src/modules/report-dispatches/report-dispatches.service.ts:52-54 | The seven days of a report share one week number exactly when the window starts on a Monday. |
| Installments.FirstIsLeastAfterStart | src/modules/clients/billing/installment-dates.helper.ts:6-18 | The first due date is the least clamped due day after the start, 1 to 31 days later. |
| Installments.MonthlyGap | src/modules/clients/billing/installment-dates.helper.ts:30-33 | Due dates of consecutive months are 28 to 31 days apart, over leap years and year ends. |
| Installments.ScheduleIsMonthly | src/modules/clients/billing/installment-dates.helper.ts:20-28 | One date in each consecutive month, on the least of due day, 30 and the length of the month. |
| Installments.DateForMonthIs | src/modules/clients/billing/installment-dates.helper.ts:30-33 | A date made through day 0 of the next month is the clamped due day of the month, of the month 1900 years later in the years 0..99. |
| Installments.GenerateInstallmentDates | src/modules/clients/billing/installment-dates.helper.ts:1-28 | The loop returns the dates the helper's arithmetic stands for, for all starts, due days from 1 and lengths, and in plain years the schedule that is meant. |
| Installments.ScheduleIff | src/modules/clients/billing/installment-dates.helper.ts:1-33 | The helper returns the meant schedule exactly when no date involved is built in the years 0..99. |
| Installments.IncreasingIff | src/modules/clients/billing/installment-dates.helper.ts:1-33 | Its dates increase strictly unless the contract runs from December 99 into January 100. |
| Csv.FormatReadsBack | src/common/csv/csv-formatter.service.ts:35-43 | After the BOM, reading the output as RFC 4180 gives the labels and then, row by row and column by column, the shown values, whatever commas, quotes or line breaks they hold. |
| Csv.ShownIsNotEmpty | src/common/csv/csv-formatter.service.ts:45-50 | A cell shows something, "-" for a missing value, and its text is an RFC 4180 field that stands for what is shown. |
| Csv.ValueIs | src/common/csv/csv-formatter.service.ts:52-80 | The value of a column is that of its field, of the first action of its type, or the sum of its list, and missing exactly when that is. |
| Csv.ShownIs | src/common/csv/csv-formatter.service.ts:45-50 | A missing or empty value is shown as a dash, a text as it is, a date turned round, the rest as a number. |
| Csv.DateIs | src/common/csv/csv-formatter.service.ts:138-142 | Year-month-day is shown as day/month/year; what is not made of three parts stays. |
| Csv.TableIs | src/common/csv/csv-formatter.service.ts:35-43 | The table holds the titles, and then for each row what each column shows of it. |
| Csv.FieldReadsBack | src/common/csv/csv-formatter.service.ts:144-154 | A field, bare or escaped, reads back as its value and ends where it should. |
| Csv.FileReadsBack | src/common/csv/csv-formatter.service.ts:35-43 | Records joined by line ends read back as these records, none more and none less. |
| CacheKey.KeyReadsBack | src/modules/campaign-reports/campaign-reports.service.ts:68-88 | With documented accounts and breakdowns every part of a request, breakdowns in sorted order, can be read back from its key. |
| CacheKey.HeadReadsBack | src/modules/campaign-reports/campaign-reports.service.ts:188-198 | Level, period and increment can be read back from what follows the account, whatever account, breakdowns and cursor hold, and with times in the dates. |
| CacheKey.KeysMeetIff | src/modules/campaign-reports/campaign-reports.service.ts:68-88 | Whatever accounts, breakdowns and cursors hold, two requests have one key exactly when they agree on every field, up to order and spacing of the breakdowns, or the breakdown text or account of one goes on like the rest of the other's key. |
| CacheKey.PlainKeysMeetIff | src/modules/campaign-reports/campaign-reports.service.ts:68-88 | With documented accounts and breakdowns they have one key exactly when they agree; with and without thumbnails never meet. |
| CacheKey.SortedTokensIff | src/modules/campaign-reports/campaign-reports.service.ts:78-84 | Sorted breakdowns are equal exactly when the lists hold the same trimmed entries equally often. |
| CacheKey.TokensAre | src/modules/campaign-reports/campaign-reports.service.ts:78-82 | An entry of the breakdowns is what stands between two commas without the white space around it. |
| CacheKey.FreeTextBreakdownsMeet | src/modules/campaign-reports/campaign-reports.service.ts:68-88 | An input for the other case: "age:thumbs" without thumbnails and "age" with them. |
| Sorting.SortedUnique | src/modules/campaign-reports/campaign-reports.service.ts:78-84 | A sorted arrangement is unique, so the key does not depend on the sorting algorithm. |
| Sorting.LexLeIff | src/modules/campaign-reports/campaign-reports.service.ts:78-84 | Strings are ordered by their first different character, and a beginning comes first. |
| InsightsExport.CampaignReports.Lookup | src/modules/campaign-reports/campaign-reports.service.ts:200-202 | A hit returns the stored page, and entries vanishing keeps the cache truthful. |
| InsightsExport.CampaignReports.GetInsights | src/modules/campaign-reports/campaign-reports.service.ts:169-232 | A page served is the one Meta gives for the account, level, period, increment, breakdowns and cursor of the query (creatives apart), whatever was cached. A page in the cache is served whatever the account; else an unknown or inactive account or a failing Meta is the error, each exactly then, and otherwise the page is served and stored. |
| InsightsExport.CampaignReports.ExportPage | src/modules/campaign-reports/campaign-reports.service.ts:331-360 | A page of an export is Meta's page for its cursor, and fails exactly when it is neither cached nor to be fetched. |
| InsightsExport.CampaignReports.ExportInsights | src/modules/campaign-reports/campaign-reports.service.ts:290-375 | The loop ends, also on cyclic cursors, and collects the rows of the first 1000 pages of what the query asks for, as an export with no cache does. It fails upstream exactly when one of its own pages is then neither in the cache nor given by Meta; the other errors exactly in their cases. |
| InsightsExport.RequestIs | src/modules/campaign-reports/campaign-reports.service.ts:234-241 | The request of a query or an export has the account, increment and breakdowns of the query, its level or "campaign", its range if both ends are given, else its preset, else last_30d; no other request has. |
| InsightsExport.AcceptedIff | src/modules/campaign-reports/campaign-reports.service.ts:173-186 | Accepted are queries with a whole range and no preset or with no end of a range, and with thumbnails only for ads. |
| InsightsExport.KeySaysQuery | src/modules/campaign-reports/campaign-reports.service.ts:188-198 | The key of a query reads back as the texts of the query: since and until in their places, or the preset. |
| InsightsExport.ExportedIs | src/modules/campaign-reports/campaign-reports.service.ts:323-374 | The rows of an export are those of the pages at the successive cursors, 1000 at most, with thumbnails added exactly when they are asked for. |
| InsightsExport.RowsOfBoth | src/modules/campaign-reports/campaign-reports.service.ts:357-358 | Rows come in the order of their pages. |
| InsightsExport.KeysAtIff | src/modules/campaign-reports/campaign-reports.service.ts:331-360 | A page is in the cache then exactly when it was there from the start, or came with an earlier page of the export, and has not vanished since. |
| InsightsExport.WalkFollowsCursors | src/modules/campaign-reports/campaign-reports.service.ts:323-367 | The pages collected are those at the successive cursors, at least one and at most the limit, and only a page with no cursor ends the walk early. |
| InsightsExport.WalkIsPrefix | src/modules/campaign-reports/campaign-reports.service.ts:323-367 | With a limit the pages are the first ones of the longer walk: min(n, limit) of them. |
| InsightsExport.StoringKeepsServing | src/modules/campaign-reports/campaign-reports.service.ts:192-231 | Where requests that share a key ask the same, storing a page under its key leaves every key serving the page of every request that has this key. |
| InsightsExport.SharedKeyMisleads | src/modules/campaign-reports/campaign-reports.service.ts:192-231 | Where they do not, the stored page of one is wrong for the other. |
| InsightsExport.ApartIff | src/modules/campaign-reports/campaign-reports.service.ts:68-88 | A set of requests can share the cache exactly when no breakdown text or account in it blurs into the rest of another's key. |
| InsightsExport.PlainRequestsApart | src/modules/campaign-reports/campaign-reports.service.ts:68-88 | The requests with documented accounts and breakdowns can. |
| InsightsExport.EnrichKeepsTheRest | src/modules/campaign-reports/campaign-reports.service.ts:103-134 | Adding thumbnails changes nothing but the creatives of the rows. |
| InsightsExport.EnrichAt | src/modules/campaign-reports/campaign-reports.service.ts:118-129 | A row gets the creative found for its ad, and a row without one is left as it is. |
| InsightsExport.CampaignKeysApart | src/modules/campaign-reports/campaign-reports.service.ts:242-254 | The key of a single campaign's insights is never the key of an account's page, unless the account begins with the segment "campaign". |
| AuthState.KeyIdFacts | src/modules/whatsapp-session/db-auth-state.ts:51-87 | `slice(type.length + 1)` recovers the id, and no key names the credentials' row. |
| AuthState.KeysCollideIff | src/modules/whatsapp-session/db-auth-state.ts:51-115 | Two (type, id) pairs share a row exactly when one type, a hyphen and the start of the other's make them equal. |
| AuthState.DbAuthState.constructor | src/modules/whatsapp-session/db-auth-state.ts:33-46 | Opening a session reads the credentials of the phone, or makes new ones, and starts with an empty memory. |
| AuthState.DbAuthState.Get | src/modules/whatsapp-session/db-auth-state.ts:51-87 | The answer holds exactly the ids that have a row, with the values of the rows, converted for one type of key; rows stay as they are. |
| AuthState.ConvertIs | src/modules/whatsapp-session/db-auth-state.ts:79-85 | Values of the type app-state-sync-key are made into objects again, and no others. |
| AuthState.DbAuthState.Set | src/modules/whatsapp-session/db-auth-state.ts:88-115 | For any entries: the memory takes them in turn; the rows of the phone take all values and then all deletions, or nothing when one row is set twice; no other row changes; memory and rows still agree exactly unless a row is set after it is deleted. |
| AuthState.DbAuthState.SaveCreds | src/modules/whatsapp-session/db-auth-state.ts:120-125 | Only the credentials' row changes, to the current credentials. |
| AuthState.DbAuthState.Clear | src/modules/whatsapp-session/db-auth-state.ts:126-129 | All rows of the phone go, no other, and the memory is empty. |
| AuthState.OverwriteIsWritten | src/modules/whatsapp-session/db-auth-state.ts:88-115 | Where no two keys in use share a row, writing rows by name is writing a map by (type, id). |
| AuthState.Serve | src/modules/whatsapp-session/db-auth-state.ts:33-130 | Any run of get, set, saveCreds, clear and restarts with keys that do not collide answers like a plain map from (type, id) to values, and leaves other phones alone. |
| AuthState.CollisionShows | src/modules/whatsapp-session/db-auth-state.ts:88-115 | For any two keys that collide a run of three calls answers otherwise, from every state. |
| WhatsAppGroups.WhatsAppGroupsService.Create | src/modules/whatsapp-groups/whatsapp-groups.service.ts:30-46 | A new active group; no cached list or entry is left out of date. |
| WhatsAppGroups.WhatsAppGroupsService.FindAll | src/modules/whatsapp-groups/whatsapp-groups.service.ts:48-59 | The active groups of the client as the table has them now, cached or not. |
| WhatsAppGroups.WhatsAppGroupsService.FindOne | src/modules/whatsapp-groups/whatsapp-groups.service.ts:61-70 | The row as the table has it now, or not found. |
| WhatsAppGroups.WhatsAppGroupsService.Update | src/modules/whatsapp-groups/whatsapp-groups.service.ts:72-81 | The row changes in the fields given, and the entry and list it touches never answer for the old row again. |
| WhatsAppGroups.WhatsAppGroupsService.Remove | src/modules/whatsapp-groups/whatsapp-groups.service.ts:83-88 | The row is gone from both caches' answers as well. |
| WhatsAppGroups.WhatsAppGroupsService.Serve | src/modules/whatsapp-groups/whatsapp-groups.service.ts:30-88 | Any run, with entries vanishing in between, answers as the service with no cache. |
| WhatsAppGroups.ListIs | src/modules/whatsapp-groups/whatsapp-groups.service.ts:48-59 | The list of a client holds exactly its active groups. |
| WhatsAppGroups.CreateStores | src/modules/whatsapp-groups/whatsapp-groups.service.ts:30-46 | A new group has the fields given, is active and is found at once; the others stay. |
| WhatsAppGroups.UpdateStores | src/modules/whatsapp-groups/whatsapp-groups.service.ts:72-81 | An update changes exactly the fields given, of that group alone. |
| WhatsAppGroups.RemoveForgets | src/modules/whatsapp-groups/whatsapp-groups.service.ts:83-88 | A removed group is not found any more; the others stay. |
| WhatsAppGroups.OthersKeepTheirGroups | src/modules/whatsapp-groups/whatsapp-groups.service.ts:72-81 | A change of one group leaves the lists of other clients, so only its own client's list must go. |
| WhatsAppGroups.FindAllActiveGroupedByClientId | src/modules/whatsapp-groups/whatsapp-groups.service.ts:90-101 | One list for each client that has groups, holding its groups in their order. |
| WhatsAppGroups.GroupingKeepsGroups | src/modules/whatsapp-groups/whatsapp-groups.service.ts:90-101 | Every group is in its own client's list, as often as it was found, and in no other. |
| WhatsAppGroups.GroupsInOrder | src/modules/whatsapp-groups/whatsapp-groups.service.ts:90-101 | The list of a client keeps the order of its groups. |
| Integrations.IntegrationsService.Create | src/modules/integrations/integrations.service.ts:29-54 | Conflict when any row, deleted or not, has the page; otherwise the new row with encrypted secrets. |
| Integrations.IntegrationsService.FindOne | src/modules/integrations/integrations.service.ts:60-70 | The row as the table has it now, or not found. |
| Integrations.IntegrationsService.FindByPageId | src/modules/integrations/integrations.service.ts:72-86 | The one row of the page as the table has it now, or not found. |
| Integrations.IntegrationsService.Update | src/modules/integrations/integrations.service.ts:88-111 | The row changes in the fields given, and neither cache key answers for the old row. |
| Integrations.IntegrationsService.Remove | src/modules/integrations/integrations.service.ts:113-118 | The row is gone from both keys' answers. |
| Integrations.IntegrationsService.Serve | src/modules/integrations/integrations.service.ts:29-118 | Any run, with entries vanishing in between, is a run of the service with no cache. |
| Integrations.PlainRunIsDetermined | src/modules/integrations/integrations.service.ts:29-118 | A run of the uncached service has one outcome, so the cached service's answers are its answers. |
| Integrations.ListIs | src/modules/integrations/integrations.service.ts:56-58 | The list of a client holds exactly its active integrations. |
| Integrations.FoundBoth | src/modules/integrations/integrations.service.ts:60-86 | A row is found by its id and by its page, and a page is not found exactly when no row has it. |
| Integrations.CreateStores | src/modules/integrations/integrations.service.ts:29-54 | A new integration is active, with the fields given and its secrets encrypted, and its page is taken for good. |
| Integrations.UpdateStores | src/modules/integrations/integrations.service.ts:88-111 | An update changes exactly the fields given, of that row alone, secrets encrypted. |
| Integrations.RemoveForgets | src/modules/integrations/integrations.service.ts:113-118 | A removed row is gone, and its page stays taken. |
| Billing.ClientBillingService.CreateBilling | src/modules/clients/billing/client-billing.service.ts:34-77 | Refused with a conflict while the client has an active contract, else the contract with all its installments; the response lists them. |
| Billing.ClientBillingService.RenewBilling | src/modules/clients/billing/client-billing.service.ts:98-154 | Only an active contract of the client is renewed: it expires and the new one takes over the terms not given. |
| Billing.ClientBillingService.CancelBilling | src/modules/clients/billing/client-billing.service.ts:156-178 | A contract of the client is cancelled, ACTIVE or EXPIRED, unless it is CANCELLED already, and nothing else changes. |
| Billing.ClientBillingService.PayInstallment | src/modules/clients/billing/client-billing.service.ts:180-204 | The day of payment is set on an unpaid installment of the contract, once. |
| Billing.StepKeepsInv | src/modules/clients/billing/client-billing.service.ts:34-204 | Each operation keeps at most one active contract a client and every contract's full schedule, and makes only the changes that EveryRunFollows allows. |
| Billing.EveryRunKeepsInv | src/modules/clients/billing/client-billing.service.ts:34-204 | In every run a client has at most one active contract, and each contract has exactly its installments 1..n on its due dates. |
| Billing.EveryRunFollows | src/modules/clients/billing/client-billing.service.ts:110-177 | From any moment of a run to any later one, a contract goes only from ACTIVE to EXPIRED or CANCELLED and from EXPIRED to CANCELLED, nothing else of it changes, and a payment is never changed or cleared. |
| Billing.AcceptedIff | src/modules/clients/billing/client-billing.service.ts:34-204 | A creation is accepted exactly when the client has no ACTIVE contract, a renewal exactly for an ACTIVE one of the client, a cancellation exactly for one that is not CANCELLED, a payment exactly for an unpaid installment of its contract. |
| Billing.ErrorsAre | src/modules/clients/billing/client-billing.service.ts:34-204 | Which error a refused operation reports. |
| Billing.Adds | src/modules/clients/billing/client-billing.service.ts:120-134 | A creation and a renewal add one ACTIVE contract; a renewal takes the terms given and keeps the others. |
| Billing.StatusAfter | src/modules/clients/billing/client-billing.service.ts:110-177 | An accepted cancellation makes its contract CANCELLED, an accepted renewal makes it EXPIRED, and nothing else changes a status. |
| Billing.StatusTellsHistory | src/modules/clients/billing/client-billing.service.ts:34-204 | In every run a contract is CANCELLED exactly when a cancellation of it was accepted, EXPIRED exactly when a renewal of it was and no cancellation, and else ACTIVE. |
| Billing.CancelledForGood | src/modules/clients/billing/client-billing.service.ts:110-171 | After an accepted cancellation every later cancellation and renewal of the contract is refused. |
| Billing.PaidIff | src/modules/clients/billing/client-billing.service.ts:198-203 | In every run an installment is paid on a day exactly when a payment of it was accepted on that day. |
| Billing.DueDatesIncrease | src/modules/clients/billing/client-billing.service.ts:59-74 | The due dates of a contract increase with their numbers, but for contracts from December 99 into January 100. |
| Billing.ResponseListsAll | src/modules/clients/dto/client-billing-response.dto.ts:57-76 | From the stored installments in whatever order, the response lists them all, numbered 1..n, on the dates of the schedule. |
| Billing.ItemsAre | src/modules/clients/dto/client-billing-response.dto.ts:33-56 | An item is paid when its installment is, overdue when it is not and its day is past, and else pending. |
| Billing.ArrangementUnique | src/modules/clients/dto/client-billing-response.dto.ts:57-76 | There is one arrangement by number, so the response does not depend on the order of the rows. |
| ConversationRules.ConversationRulesService.Create | src/modules/conversation-rules/conversation-rules.service.ts:39-88 | Which checks refuse a rule, in which order; for an icebreaker the page is overwritten first, and the rule is saved only if that worked and the unique index of the table takes it. |
| ConversationRules.ConversationRulesService.Update | src/modules/conversation-rules/conversation-rules.service.ts:97-128 | The same for an update: strict when the icebreaker will be active, best effort when it will not, and refused by the table when another rule has the trigger. |
| ConversationRules.ConversationRulesService.Remove | src/modules/conversation-rules/conversation-rules.service.ts:130-156 | The rule goes even if the page cannot be overwritten. |
| ConversationRules.ConversationRulesService.SyncPage | src/modules/conversation-rules/icebreaker-sync.service.ts:18-48 | The buttons of the page are overwritten, or stay as they are and the failure is reported. |
| ConversationRules.ConversationRulesService.SyncIfIcebreakerRule | src/modules/conversation-rules/conversation-rules.service.ts:158-189 | The page gets the buttons of the other active rules and the new one, unless they are more than four. |
| ConversationRules.CreateStores | src/modules/conversation-rules/conversation-rules.service.ts:75-87 | An accepted creation appends one active rule with the fields of the request that belong to its type; a refused one stores nothing. |
| ConversationRules.CreateAcceptedIff | src/modules/conversation-rules/conversation-rules.service.ts:39-88 | It is accepted exactly with a reply that says something, a free trigger, and for an icebreaker fewer than four active ones, a page and Meta answering. |
| ConversationRules.CreateErrors | src/modules/conversation-rules/conversation-rules.service.ts:42-73 | Which error a refused creation reports. |
| ConversationRules.UpdateStores | src/modules/conversation-rules/conversation-rules.service.ts:97-128 | An accepted update changes exactly the fields given, of that rule alone; a refused one nothing. |
| ConversationRules.UpdateAcceptedIff | src/modules/conversation-rules/conversation-rules.service.ts:97-128 | In reachable states it is accepted exactly for a live rule of the client, with a reply its type allows, a free trigger only for post and keyword rules, and for an icebreaker that will be active room on the page and Meta answering. |
| ConversationRules.UpdateErrors | src/modules/conversation-rules/conversation-rules.service.ts:102-126 | Which error a refused update reports. |
| ConversationRules.RemoveStores | src/modules/conversation-rules/conversation-rules.service.ts:130-138 | A removal marks a live rule of the client as deleted, refuses any other, and touches no other rule. |
| ConversationRules.SyncsIff | src/modules/conversation-rules/conversation-rules.service.ts:145-189 | An accepted operation overwrites the page exactly when it is about an icebreaker, the client has a page and Meta answers. |
| ConversationRules.ButtonsAre | src/modules/conversation-rules/conversation-rules.service.ts:166-188 | The buttons of a client are the questions and payloads of its active icebreakers, each as often as there is such a rule. |
| ConversationRules.StepKeepsButtons | src/modules/conversation-rules/conversation-rules.service.ts:39-189 | Each operation keeps at most four active icebreakers and all of them, question and payload, on the page, and one whose sync worked leaves exactly them on it. |
| ConversationRules.EveryRunKeepsInv | src/modules/conversation-rules/conversation-rules.service.ts:39-189 | In every run, whichever syncs fail, each client has at most four active icebreakers and their (question, payload) pairs are, as a multiset, within the page's; a client has one live rule per type and trigger, a missing trigger counting as empty. |
| ConversationRules.SyncedRunIsInStep | src/modules/conversation-rules/conversation-rules.service.ts:145-189 | Right after an operation whose sync worked, page and active rules are equal as multisets of (question, payload). |
| ConversationRules.EveryRunFollows | src/modules/conversation-rules/conversation-rules.service.ts:97-138 | Over every run a rule never changes its type or client, an icebreaker never its payload, and a deleted rule never anything. |
| ConversationRules.IcebreakerAnswers | src/modules/conversation-rules/conversation-rules.service.ts:214-226 | In every reachable state, the button of each active icebreaker is on the page and its payload leads back to that rule. |
| ConversationRules.KeywordRuleIsLongest | src/modules/conversation-rules/conversation-rules.service.ts:191-206 | The keyword rule of a text is an active rule of the client whose trigger stands somewhere in the text, ignoring case, none of those has a longer trigger, and there is none only when there is none of those. |
| ConversationRules.LongestIs | src/modules/conversation-rules/conversation-rules.service.ts:191-206 | Of several longest triggers the earliest found wins. |
| ConversationRules.ContainsIff | src/modules/conversation-rules/conversation-rules.service.ts:200-200 | A text contains another exactly when this stands in it at some place. |
| ConversationRules.PostRuleIff | src/modules/conversation-rules/conversation-rules.service.ts:228-245 | A comment finds exactly the active rule of its post whose keyword stands somewhere in it, ignoring case. |
| ConversationRules.IcebreakerRuleIff | src/modules/conversation-rules/conversation-rules.service.ts:214-226 | A tap finds exactly the active icebreaker with its payload. |
| ConversationRules.DefaultRuleIff | src/modules/conversation-rules/conversation-rules.service.ts:208-212 | The default rule is exactly the active one of the client. |
| ConversationRules.CreateIsDuplicateIff | src/database/migrations/1783000000000-CreateConversationRulesTable.ts:27-29 | In reachable states the table refuses a rule that passed the check of the service exactly when it is a post or keyword rule with a missing or empty trigger and a live rule has the other of the two; never an icebreaker, so the page is not overwritten for nothing. |
| ConversationRules.OnePerKey | src/database/migrations/1783000000000-CreateConversationRulesTable.ts:27-29 | Two live rules of one client, type and trigger are one rule, so no lookup by trigger depends on the order of rows. |
| ConversationRules.UpdateIsDuplicateIff | src/modules/conversation-rules/conversation-rules.service.ts:97-128 | In reachable states the table refuses an update that passed the checks of the service exactly when it gives a new trigger that another live rule of the client and type has. |
| MediaLibrary.MediaLibraryService.Upload | src/modules/media-library/media-library.service.ts:50-115 | A log and its job are added exactly when all checks pass and the Drive upload worked. |
| MediaLibrary.MediaLibraryService.CompleteUploadSession | src/modules/media-library/media-library.service.ts:153-196 | The same for a finished upload session, for a file that is there and not too large. |
| MediaLibrary.MediaLibraryService.RetryOne | src/modules/media-library/media-library.service.ts:231-260 | A failed log, and no other, goes back to PROCESSING with a new job and one attempt more. |
| MediaLibrary.MediaLibraryService.RetryFailed | src/modules/media-library/media-library.service.ts:262-274 | Logs and queue become what retrying the failed logs of the client one by one makes of them, failures apart, and the number of those handed over is returned. |
| MediaLibrary.RetryingIsARun | src/modules/media-library/media-library.service.ts:262-274 | A run with a retry of all failed logs in it is a run of single retries, so all that holds of runs holds of it. |
| MediaLibrary.MediaLibraryService.Process | src/modules/media-library/processors/meta-upload.processor.ts:29-63 | The job is consumed; the log ends as SUCCESS with its asset or FAILED with the message, or stays if the token cannot be decrypted. |
| MediaLibrary.UploadStores | src/modules/media-library/media-library.service.ts:84-107 | An upload saves a log with its fields, PROCESSING and at no retry yet, and its job if the queue takes it. |
| MediaLibrary.RetryStores | src/modules/media-library/media-library.service.ts:231-260 | A retry of a FAILED log whose account is found sets it to PROCESSING with no error and one retry more; any other changes nothing. |
| MediaLibrary.WorkStores | src/modules/media-library/processors/meta-upload.processor.ts:39-59 | A finished job leaves SUCCESS with its asset and no error, or FAILED with the message, and no other log touched. |
| MediaLibrary.CountTakenIs | src/modules/media-library/media-library.service.ts:269-273 | The number returned counts the logs whose account is found and whose job the queue takes. |
| MediaLibrary.StepIsGood | src/modules/media-library/media-library.service.ts:84-107 | Every transition keeps logs and jobs in step and never touches a log that succeeded or lost its job. |
| MediaLibrary.ProcessingMeansOneJob | src/modules/media-library/media-library.service.ts:165-188 | With enqueue and decrypt succeeding, in every run a log is PROCESSING exactly when one job for it is waiting or running, else none is, and jobs enqueued for it equal attemptCount + 1. |
| MediaLibrary.ProcessingMeansOneJobIff | src/modules/media-library/media-library.service.ts:84-107 | In general it is so exactly for the logs whose job was not lost on the way. |
| MediaLibrary.EveryRunFollows | src/modules/media-library/processors/meta-upload.processor.ts:29-63 | Over every run SUCCESS is final and a lost log stays PROCESSING with no job. |
| MediaLibrary.RetryAllFailed | src/modules/media-library/media-library.service.ts:262-274 | Retrying all changes exactly the failed logs of the client whose account is found. |
| ChunkedUpload.UploadVideoChunked | src/modules/media-library/services/meta-media.service.ts:154-176 | Watched for any number of transfers, the loop has sent the part of the file at each offset the server asked for; it has finished exactly when the last offset is not below the file size or not a number, given up exactly at a failed transfer, and is running otherwise. |
| ChunkedUpload.TransfersBounded | src/modules/media-library/services/meta-media.service.ts:154-176 | When every answer moves the offset forward, the loop ends after at most as many transfers as bytes. |
| ChunkedUpload.EndsIff | src/modules/media-library/services/meta-media.service.ts:159-173 | For every server whose answers depend on the offset alone, the loop ends exactly when it sends no offset twice, then within as many transfers as bytes; a watch of one more transfer tells. |
| ChunkedUpload.RunsForEver | src/modules/media-library/services/meta-media.service.ts:159-173 | Once a watch has seen an offset sent twice, every longer watch sees the loop still running. |
| ChunkedUpload.SentAgree | src/modules/media-library/services/meta-media.service.ts:159-173 | Two watches of one upload see the same transfers, as far as both go. |
| ChunkedUpload.Stalls | src/modules/media-library/services/meta-media.service.ts:159-173 | An input for it: a server that answers an offset with itself keeps the loop on one chunk. |
| ChunkedUpload.ReceivedIsFile | src/modules/media-library/services/meta-media.service.ts:154-176 | Whatever the server asks for, every byte it receives at a position is the file's byte there. |
| ChunkedUpload.CompleteIff | src/modules/media-library/services/meta-media.service.ts:154-176 | For every server, also one that goes back, a finished upload has given exactly the bytes from the initial offset on exactly when no chunk starts before it and every chunk that ends before the end of the file is gone on from by another. |
| ChunkedUpload.ForwardCompleteIff | src/modules/media-library/services/meta-media.service.ts:154-176 | When answers move forward, exactly when no answer jumped beyond the chunk it answered, nor was not a number before the end of the file. |
| ChunkedUpload.WithinChunksNoGap | src/modules/media-library/services/meta-media.service.ts:154-176 | A server that always gives an offset and never one beyond the chunk never makes a gap. |
| ChunkedUpload.OffsetsIncrease | src/modules/media-library/services/meta-media.service.ts:154-176 | Offsets increase, and each chunk is not empty and lies within the file. |
| ChunkedUpload.WholeChunks | src/modules/media-library/services/meta-media.service.ts:154-176 | When chunks are taken whole, they concatenate to the rest of the file in ceil(remaining / 10 MiB) transfers. |
| FileNamer.ReadsBack | src/modules/media-library/services/file-namer.service.ts:46-76 | Every printed name reads back as its intention, media type, product, month, year, version and extension. |
| FileNamer.PrintIsInjective | src/modules/media-library/services/file-namer.service.ts:46-76 | Different parts give different names. |
| FileNamer.GeneratedReadsBack | src/modules/media-library/services/file-namer.service.ts:27-76 | A generated name reads back as the sanitized parts of its upload, with the start version if one was given. |
| FileNamer.UnversionedIs | src/modules/media-library/services/file-namer.service.ts:27-37 | A name says the intention, the sanitized product, the month and the last two digits of the year, and the extension and its media type. |
| FileNamer.MediaTypeIff | src/modules/media-library/services/file-namer.service.ts:23-25 | A file is a video exactly when its extension is one of five, ignoring case. |
| FileNamer.ExtensionIs | src/modules/media-library/services/file-namer.service.ts:54-55 | The extension is the end of the file name from its last dot on. |
| FileNamer.SanitizeIs | src/modules/media-library/services/file-namer.service.ts:27-33 | A sanitized product is what is kept of its decomposition without the spaces at both ends. |
| FileNamer.KeepOnlyIs | src/modules/media-library/services/file-namer.service.ts:27-33 | Kept are exactly the letters, digits, spaces, underscores and hyphens, in their order. |
| FileNamer.CountIs | src/modules/media-library/services/file-namer.service.ts:67-73 | Counted are the rows of the client since the day whose name begins with the base, an underscore standing for any character. |
| FileNamer.UnversionedNamesDiffer | src/modules/media-library/services/file-namer.service.ts:52-76 | Of two uploads of a client on a day without start version, the second generated after the first is saved, the names differ, whatever other rows are saved at any time. |
| FileNamer.NamesMeetIff | src/modules/media-library/services/file-namer.service.ts:46-76 | Any two generated names are the same exactly when their uploads make the same name without version and get the same version. |
| FileNamer.StartVersionRepeatsIff | src/modules/media-library/services/file-namer.service.ts:57-76 | A name given with start version k is given again without one exactly when the name without version is the same, k is at least 2, and k - 1 names are counted. |
| FileNamer.StartVersionRepeats | src/modules/media-library/services/file-namer.service.ts:57-76 | An input for it: after start version 2 on an empty table the next upload gets the same name. |
| Webhook.InstagramWebhookService.EnqueueEvents | src/modules/webhook/instagram/instagram-webhook.service.ts:74-78 | The queue gets the jobs of the payload in the order of its entries and events, but for those it refuses, and keeps what it had; a queue that takes all has got one job for each comment and each asking event of each entry, and no others. |
| Webhook.InstagramWebhookService.EnqueueEntry | src/modules/webhook/instagram/instagram-webhook.service.ts:80-137 | The same for one entry, messages before comments. |
| Webhook.PayloadJobsAre | src/modules/webhook/instagram/instagram-webhook.service.ts:74-137 | The comment jobs of a payload are, in order, one for each comment of each entry for its page, the others one for each asking event of each entry, and their numbers add up. |
| Webhook.EventsBeforeComments | src/modules/webhook/instagram/instagram-webhook.service.ts:80-137 | Within an entry the events come before the comments. |
| Webhook.PayloadJobsAppend | src/modules/webhook/instagram/instagram-webhook.service.ts:74-78 | Entries keep their order. |
| Webhook.TakenOne | src/modules/webhook/instagram/instagram-webhook.service.ts:83-98 | A job is taken exactly when the queue accepts it. |
| Webhook.OneJobEach | src/modules/webhook/instagram/instagram-webhook.service.ts:81-113 | One job for each event with a postback or a message, in order: for the postback if there is one, else for the message. |
| Webhook.OneJobPerComment | src/modules/webhook/instagram/instagram-webhook.service.ts:115-136 | One job for each comment, whoever wrote it, in order, and none for other changes. |
| Webhook.AllTaken | src/modules/webhook/instagram/instagram-webhook.service.ts:80-137 | A queue that refuses nothing gets all jobs. |
| Webhook.ConversationBotService.HandleDm | src/modules/webhook/instagram/conversation-bot.service.ts:17-54 | What one attempt at a message sends, and that it fails only on a rate limit. |
| Webhook.ConversationBotService.HandleComment | src/modules/webhook/instagram/conversation-bot.service.ts:56-101 | What one attempt at a comment sends, and when it fails. |
| Webhook.ConversationBotService.HandleIcebreaker | src/modules/webhook/instagram/conversation-bot.service.ts:103-131 | What one attempt at a tap on a button sends, and that it fails only on a rate limit. |
| Webhook.ConversationBotService.Work | src/modules/webhook/instagram/processors/instagram-webhook.processor.ts:17-42 | All that is sent for a job is what its attempts send, the next one only after a failed one. |
| Webhook.RetriedOnlyOnRateLimit | src/modules/webhook/instagram/conversation-bot.service.ts:43-53 | A job has one to three attempts; all but the last were rate-limited, and the last was not unless it is the third. |
| Webhook.FailsIffLimited | src/modules/webhook/instagram/conversation-bot.service.ts:43-53 | An attempt fails exactly when one of its sends was rate-limited. |
| Webhook.OneReply | src/modules/webhook/instagram/reply-builder.service.ts:9-36 | An attempt at a message or tap sends nothing without a rule, else one reply to its sender: the button of the rule if it has one, else its quick replies, else its text. |
| Webhook.Unanswered | src/modules/webhook/instagram/conversation-bot.service.ts:22-36 | Nothing is sent for a page without an active integration, nor for a message without a text. |
| Webhook.CommentRuleIff | src/modules/webhook/instagram/conversation-bot.service.ts:62-75 | The rule of a comment is exactly the active one of the client of the page, for the post, whose keyword stands in the comment. |
| Webhook.TapRuleIff | src/modules/webhook/instagram/conversation-bot.service.ts:108-122 | The rule of a tap is exactly the active icebreaker of the client of the page with the payload. |
| Webhook.ThreeAttempts | src/modules/webhook/instagram/instagram-webhook.service.ts:91-91 | A job is tried once to three times, and three times when every attempt fails. |
| Webhook.AtMostOneDelivered | src/modules/webhook/instagram/conversation-bot.service.ts:17-54 | Over all attempts at most one reply is delivered, it is the last thing sent, and all goes to the sender. |
| Webhook.OwnMessagesUnanswered | src/modules/webhook/instagram/conversation-bot.service.ts:22-22 | The page's own messages are never answered. |
| Webhook.DmRule | src/modules/webhook/instagram/conversation-bot.service.ts:38-42 | A message is answered with an active keyword rule that stands in it and has a longest trigger, with the active default rule only when none stands in it, and not at all only when there is neither. |
| Webhook.TapGetsItsReply | src/modules/webhook/instagram/conversation-bot.service.ts:103-131 | After any run of rule operations with failing and working syncs, the button of an active icebreaker is on the page and a tap on it is answered with that rule's reply. |
| Webhook.BothSends | src/modules/webhook/instagram/conversation-bot.service.ts:74-100 | All that is sent for a comment over its attempts: the private and the public reply of its rule at each, going on exactly after a rate limit on one of the two, up to three times or until there is no rule. |
| Webhook.PrivateReplyRepeatsIff | src/modules/webhook/instagram/conversation-bot.service.ts:74-100 | The private reply is delivered more than once exactly when an attempt that delivered it was repeated for the public one and a later attempt delivered it again. |
| Webhook.OwnReplyAnsweredIff | src/modules/webhook/instagram/conversation-bot.service.ts:56-84 | The page's own public reply, coming back as a comment, is answered again with the same text exactly when it contains the keyword of its rule. |
| CampaignSplitter.AcquisitionIff | src/modules/ai/utils/campaign-splitter.ts:4-8 | The pattern matches a name exactly when some token between its underscores is CAP or CAPT, ignoring case. |
| CampaignSplitter.AggregateRows | src/modules/ai/utils/campaign-splitter.ts:17-65 | The loop over eleven accumulators gives the sums of the rows and the rounded rates. |
| CampaignSplitter.SplitAndAggregateCampaigns | src/modules/ai/utils/campaign-splitter.ts:67-81 | The report sums the acquisition rows, the others and all; a part with no rows is absent. |
| CampaignSplitter.PartsOfReport | src/modules/ai/utils/campaign-splitter.ts:67-81 | Acquisition is there exactly when some name has a token CAP or CAPT and sums, metric by metric, over exactly the rows with one; sales is there exactly when some name has none and sums over exactly the others. |
| CampaignSplitter.RatesAre | src/modules/ai/utils/campaign-splitter.ts:47-56 | ctr is clicks per hundred impressions and cpm spend per thousand, to the hundredth, and both are 0 without impressions. |
| CampaignSplitter.SumsEachMetric | src/modules/ai/utils/campaign-splitter.ts:30-45 | Spend and each count are the sum of their own metric over the rows. |
| CampaignSplitter.FirstOfType | src/modules/ai/utils/campaign-splitter.ts:10-15 | An action counts with the value of the first of its type, 0 if there is none. |
| CampaignSplitter.TotalIsSumOfParts | src/modules/ai/utils/campaign-splitter.ts:67-81 | Every summed metric of the total is acquisition plus sales, an absent part as zero. |
| CampaignSplitter.ReportIgnoresOrder | src/modules/ai/utils/campaign-splitter.ts:17-81 | The whole report is the same for any order of the rows. |
| CampaignSplitter.RatesBetweenParts | src/modules/ai/utils/campaign-splitter.ts:47-56 | When both parts have impressions, ctr and cpm of the total lie between those of the parts, before and after rounding. |
| CampaignSplitter.RoundNear | src/modules/ai/utils/campaign-splitter.ts:55-56 | A rounded rate is a whole number of hundredths within half a hundredth of the exact one. |
| AdLibrary.Deduplicate | src/modules/ad-library/ad-library.service.ts:116-130 | One ad for each page, in the order in which the pages first appear, each the first ad of its page with the greatest start time. |
| AdLibrary.PagesInOrder | src/modules/ad-library/ad-library.service.ts:116-130 | The pages are listed once each, in the order of their first ads. |
| AdLibrary.KeptUnique | src/modules/ad-library/ad-library.service.ts:116-130 | That determines the result. |
| AdLibrary.KeepingAgain | src/modules/ad-library/ad-library.service.ts:116-130 | Applied to its own result it changes nothing. |
| AdLibrary.ApplyClientFilters | src/modules/ad-library/ad-library.service.ts:132-146 | Exactly the ads not below a minimum that was asked for stay; bounds that are missing or not numbers are not below. |
| AdLibrary.PassesIff | src/modules/ad-library/ad-library.service.ts:136-145 | An ad stays unless a bound that is a number is below a minimum asked for. |
| AdLibrary.FiltersInOrder | src/modules/ad-library/ad-library.service.ts:132-146 | They stay in their order, each as often as it was there. |
| AdLibrary.Search | src/modules/ad-library/ad-library.service.ts:42-64 | The ads shown are of different pages, each the latest of its page and passing the filters; unless the limit is reached, all of those. |
| AdLibrary.ShownIff | src/modules/ad-library/ad-library.service.ts:42-64 | With room for all, a page is shown exactly when its latest ad passes. |

## Left out

- ChunkedUpload.UploadVideoChunked: does not model a negative offset, nor what the finishing call answers; the loop is watched for a number of transfers, since it need not end.
- CacheKey.KeysMeetIff: is stated for levels, presets and increments without a colon and no preset named "since", and for dates made of the characters of ISO 8601, as the enumerations and the date check see to.
- CacheKey.KeyReadsBack: is stated for accounts and breakdowns without a colon; with one it is false, as `KeysMeetIff` shows.
- ChunkedUpload.EndsIff: is stated for servers whose answers depend on the offset alone; for others a repeated offset does not decide anything.
- InsightsExport.CampaignReports.GetInsights: is stated, like the other members of its class, for a set of requests of which no two that ask different things share a key; for other sets it is false, as `SharedKeyMisleads` shows. A failing decryption of the account's token is not modelled.
- AuthState.Serve: is stated for keys of which no two share a row; for others it is false, as `CollisionShows` shows.
- Billing.ClientBillingService.RenewBilling: asks for due days from 1, as the request checks do.
- MediaLibrary.ProcessingMeansOneJob: does not model a worker that stalls and whose job is delivered a second time.
- Integrations.IntegrationsService.FindByPageId: does not model the client that the lookup by page joins to the row, and which a cached entry keeps as it was.
- Integrations.IntegrationsService.FindAll: answers with a set of rows; the order in which the database returns rows is not modelled, here and in the other services.
- HTTP, Google Drive, the WhatsApp socket, the queue's and the database's own workings: parameters, maps and multisets stand for them.
- Cryptography, token signing and the signature check of webhooks: they are assumed, not modelled.
- Guards, roles, controllers, validators, mail, health checks, logging, AI prompts and message texts: branches of one line each.
- The formatting of numbers, Unicode decomposition and case folding: parameters; time zones, times of day and rounding errors of floating point.
- Overlapping calls on the same row (two retries of one log, two creations of a contract, a get racing a set): the code does not lock, so only sequences of calls are modelled.
- Migrations, configuration and deployment, but for the uniqueness of an integration's page and of a rule's trigger. A later migration drops the uniqueness of a WhatsApp group's id, so creating a group has no conflict here.
- Deltas between reports, message rendering and the sending of reports: expressions and templates with nothing to prove across functions.
- `mapToAdvertiser`, which copies fields, and the request parameters of the ad library.
