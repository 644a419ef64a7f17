# Mailbridge, verified

Mailbridge turns mail into helpdesk tasks. These files model the parts of it that carry state, branching or
parsing, and prove properties of them: the task list's query compiler, the task and person tables, the browser's
WebSocket connection and the server's event broker, the due-date workflow and its calendar, the iCalendar and
From-header parsers, the AI pipeline with crashes and restarts, and the rule matcher with its stemmer.

| file | modules | models |
|---|---|---|
| Text.dfy | Wrappers, Text | optional values, results, string operations, decimal notation |
| Calendar.dfy | Calendar | civil dates, canonical text, day arithmetic |
| DueDateClient.dfy | DueDateClient | the browser's due-date helpers |
| Sql.dfy | Sql | three-valued conditions, positional parameters, LIKE |
| TaskFilter.dfy | TaskFilter | what a filter asks for, and its compilation to SQL |
| TaskList.dfy | TaskList | ordering, paging, the whole query |
| FromHeader.dfy | FromHeader | reading and printing the From header |
| Database.dfy | Database | tables, constraints, status changes |
| Persons.dfy | Persons | merging, healing and creating persons |
| Operations.dfy | Operations | the smaller operations, and runs of all of them |
| Interleaving.dfy | Interleaving | bulk status changes with other calls between their reads and their writes |
| SenderRace.dfy | SenderRace | lookups and inserts of new senders, interleaved |
| TaskStore.dfy | TaskStore | the store's methods over mutable tables |
| Reconnect.dfy | Reconnect, WebSocketStore | the browser's connection: state machine and store |
| EventBroker.dfy | Broker, WebSocketServer | the event broker: all interleavings, and the object |
| DueDates.dfy | DueDates | PATCH of due dates, AI proposals, runs |
| ICal.dfy | ICalText | unfolding, unescaping, properties |
| ICalEvents.dfy | ICalEvents | events of a calendar, nested components |
| AiVerdicts.dfy | AiVerdicts | the writes of an LLM response and their order |
| AiPipeline.dfy | AiPipeline | queue, worker, failing reads and writes, crash and restart |
| AiRuns.dfy | AiRuns | what holds over every run of the pipeline |
| AiQueue.dfy | AiRounds, AiQueue | the queue and worker objects |
| StemmerRules.dfy | StemmerRules | what the stemmer is to remove, said of the endings a text has |
| Stemmer.dfy | Stemmer | the Russian stemmer |
| Matcher.dfy | NGrams, Matcher | tokens, n-grams, rule scores |
| RuleBased.dfy | RuleBased | fields and confidence from the ranked matches |

The pattern is the same throughout. Code that changes state is a class or a method with loops, and its contract
equates the new state with a function of the old one; what the code promises is then proved of that function, over
all inputs and all runs. Calls into libraries whose result is not the point are parameters: the word decoder
(`Decoder`), the lower case of a character, what is a letter, the outcome of a database write.

## Where the code and its documentation differ

The model follows the code. Where it does not do what its comments, its tests or the formats it reads promise, a
lemma gives the condition under which it does.

- The bulk status change is said to behave, row by row, like the loop over the single one. It reads the old statuses
  before its transaction begins, so it does if and only if no task in it was moved in between
  (`Database.WriteUnmoved`, `Database.BulkWriteKeepsChainsExactly`, and over all interleavings
  `Interleaving.ChainsHoldExactly`; `Interleaving.MoveInBetweenBreaksChain` is the shortest failing run).
- An encoded word in a From header is cut at the first "?=" after its start. If its text begins with "=", as the
  quoted form of any letter outside ASCII does, that is the question mark before the text, and the word stays
  undecoded: exactly these words do (`FromHeader.EncodedWordIsReadExactly`).
- A PATCH is two transactions. A reply of 500 leaves the row alone exactly as `DueDates.FailureKeepsRowExactly` says.
- Two calls that both miss a new sender's address both make a person, and the later one returns a person who owns
  nothing: exactly as `SenderRace.RaceExactly` says.
- The "7d" and "30d" due filters hold 8 and 31 days, not 7 and 30 (`TaskFilter.DueWindowsInDays`).
- Dates past the year 9999 are compared as text: the order is right exactly as `Calendar.OrdersRightlyExactly` says.
- Search text goes into LIKE unescaped, so % and _ are wildcards (`Sql.SearchIsContainmentIffWildcardFree`), and
  without the ICU extension letters outside ASCII keep their case (`Sql.SearchIgnoresCaseExactly`).
- A page number so large that the offset leaves 64 bits shows rows again (`TaskList.PageIsRightIffOffsetFits`).
- The identity self-heal tests by substring. It hands over another person's identity if and only if a value contains
  the address and none is the address (`Persons.TakesOverExactly`; a@b.ru takes anna@b.ru,
  `Persons.AnnaIsTakenForA`); it archives a person exactly as `Persons.ArchivesExactly` says; which of several dirty
  identities the query returns matters exactly as `Persons.PickDoesNotMatterExactly` says; and it fails for ever once
  two dirty identities stand without a clean one (`Persons.EnsureFailsExactly`).
- Filling a person's name or organisation clears the confirmed, archived and internal flags
  (`Persons.FillClearsFlagsExactly`); a named machine sender gets its organisation only on the second call
  (`Persons.EnsureSettles`).
- Closing a task can store an e-mail identity that is no address, such as "ai"
  (`Persons.ClosingStoresNonAddressExactly`).
- Setting both person roles is two statements, atomic exactly as `Operations.RolesAtomicExactly` says.
- The browser's date key does not pad years below 1000 (`DueDateClient.TodayIsTodayFromYear1000`,
  `DueDateClient.ColourMeansFilterFromYear1000`).
- The test key `due_ai_set` does not look at the pending flag, and an empty one leaves a decision with nothing to
  decide on (`DueDates.SeedBreaksPendingExactly`); accepting does not look at the flag either, so a manual day lasts
  exactly as `DueDates.ManualDayLastsExactly` says; auto-apply overwrites manual dates
  (`DueDates.AiStepKeepsHumanDate`).
- An iCalendar escape outside the standard loses the character after the backslash
  (`ICalText.UnescapeLosesNothingExactly`); a colon or semicolon in a parameter value, quoted or not, breaks the
  property (`ICalText.ParseUndoesPrint`).
- `ai_attempts` is never written, so no row is ever given up and every retry waits one minute
  (`AiRuns.EveryFailureIsTheFirst`). A response that creates a task which exists leaves its row undone
  (`AiRounds.RoundMarksExactly`); a half-applied response reaches a state from which, as long as the responses are
  of that kind, the row is never done (`AiRuns.HalfAppliedIsStuck`, `AiRuns.StuckForEver`). The writes of a verdict
  are committed one by one and only a new task has a key, so every other write can be made again, exactly as
  `AiRuns.WrittenTwiceExactly` and `AiRuns.RepeatableExactly` say. The steps that lose a row until the next restart
  are those of `AiRuns.LostExactly`.
- Step 4 of the stemmer is not confined to the region after the first vowel and can cut that vowel off
  (`Stemmer.StemKeepsFirstVowelExactly`).

## Model

| member | source | states |
|---|---|---|
| Calendar.DayNumberOrder | internal/store/sqlite/sqlite.go:326-352 | dates are ordered by their day numbers and identified by them |
| Calendar.AddDaysIsSteps | internal/store/sqlite/sqlite.go:338-370 | adding n days is n successor steps, across months and leap years |
| Calendar.RealDays | internal/web/api.go:627-635 | which days exist |
| Calendar.CycleIs146097Days | internal/store/sqlite/sqlite.go:338-370 | the calendar repeats after 400 years of 146097 days |
| Calendar.ValidTaskDateExact | internal/web/api.go:627-635 | the validator accepts a text if and only if it is the canonical form of an existing day |
| Calendar.TextOrderIsDayOrder | internal/store/sqlite/sqlite.go:326-337 | comparing canonical texts is comparing days, and equal texts are equal days |
| Calendar.OrdersRightlyExactly | internal/store/sqlite/sqlite.go:338-346 | a printed date stands in the right text order to every canonical date if and only if its year is at most 9999 or begins with 9999 |
| DueDateClient.CanonicalAgreesFromYear1000 | frontend/src/utils/due-date.js:48-57 | of any text the browser reads the first ten characters as a date if and only if the server's validator accepts them and the year is at least 1000 |
| DueDateClient.ClassIsDayOrder | frontend/src/utils/due-date.js:10-25 | the colour of a stored date is its chronological relation to the local day |
| DueDateClient.TodayIsTodayFromYear1000 | frontend/src/utils/due-date.js:10-25 | a task due today carries today's class if and only if the year has four digits |
| DueDateClient.ColourMeansFilterFromYear1000 | frontend/src/utils/due-date.js:10-25 | for every canonical date, or none, overdue, today and no date mean what the server's filters mean, if and only if the current year has four digits |
| Sql.ConditionLocal | internal/store/sqlite/sqlite.go:371-424 | a condition's truth depends only on the arguments its own parameters are numbered to |
| Sql.WherePosition | internal/store/sqlite/sqlite.go:371-424 | placed anywhere among other arguments, a WHERE clause selects the rows on which each condition is true of its own arguments |
| Sql.HoldsAppend | internal/store/sqlite/sqlite.go:280-323 | appending a condition with its arguments conjoins its meaning |
| Sql.LikeIsContainment | internal/store/sqlite/sqlite.go:320-324 | a search without wildcards finds exactly the texts containing it, ignoring ASCII case |
| Sql.SearchIsContainmentIffWildcardFree | internal/store/sqlite/sqlite.go:320-324 | search means containment for every text if and only if it has no wildcard |
| Sql.SearchIgnoresCaseExactly | internal/store/sqlite/sqlite.go:320-324 | a search without wildcards ignores case, under any wider case folding, if and only if none of its letters has a case only that folding knows |
| TaskFilter.CompileStatuses | internal/store/sqlite/sqlite.go:291-298 | the IN list with its placeholders means membership in the given statuses |
| TaskFilter.CompileFields | internal/store/sqlite/sqlite.go:283-302 | project, epic, status and assignee conditions mean those fields of the filter |
| TaskFilter.CompileRoles | internal/store/sqlite/sqlite.go:304-319 | person roles, type and priority conditions mean those fields of the filter |
| TaskFilter.CompileSearch | internal/store/sqlite/sqlite.go:320-324 | the three LIKE columns mean the search |
| TaskFilter.CompileDue | internal/store/sqlite/sqlite.go:325-352 | the due conditions mean the due filter under three-valued logic |
| TaskFilter.CompilePlan | internal/store/sqlite/sqlite.go:353-370 | the plan conditions mean the plan filter: the scheduled window or a late active task |
| TaskFilter.CompileFilter | internal/store/sqlite/sqlite.go:280-376 | a row satisfies the built conditions with the built arguments if and only if the filter asks for it, for every filter and row |
| TaskFilter.StatementsAgree | internal/store/sqlite/sqlite.go:377-424 | the count query and the data query, numbered differently, select the same rows, and user name, limit and offset are read where they belong |
| TaskFilter.DueWindowsInDays | internal/store/sqlite/sqlite.go:331-352 | each due filter as an interval of day numbers, with NULL in none; the "7d" window has eight days; a window that ends after 9999 is empty |
| TaskFilter.DueFiltersNest | internal/store/sqlite/sqlite.go:331-352 | today within 7d within 30d unless they end after 9999; overdue, these windows and none exclude one another |
| TaskFilter.PlanWindowsInDays | internal/store/sqlite/sqlite.go:358-370 | each plan filter as an interval of day numbers or a late active task, either date missing or there |
| TaskFilter.PlanFiltersNest | internal/store/sqlite/sqlite.go:358-370 | today's and tomorrow's plan are part of the week's |
| TaskList.StrictTotalOrder | internal/store/sqlite/sqlite.go:388-405 | every sort key is irreflexive and transitive, and total on rows with different ids |
| TaskList.OrderIsUnique | internal/store/sqlite/sqlite.go:388-405 | ORDER BY leaves no freedom: any ordered arrangement of the rows is the same list |
| TaskList.SortIsTheOrder | internal/store/sqlite/sqlite.go:388-419 | sorting keeps the rows and is the only ordered arrangement |
| TaskList.KeyMeansText | internal/store/sqlite/sqlite.go:388-405 | the key chosen for a sort text orders any two rows as the text asks: "due" puts dated before undated and the earlier day first, "updated" and everything else the latest change or creation, ties by higher id |
| TaskList.DueListIsByDay | internal/store/sqlite/sqlite.go:396-402 | on canonical dates that is the order of day numbers, then the latest made, then the higher id |
| TaskList.PagesPartition | internal/store/sqlite/sqlite.go:273-278 | pages 1 to the last, concatenated, are the list: nothing lost, nothing repeated |
| TaskList.PageIsRightIffOffsetFits | internal/store/sqlite/sqlite.go:386-424 | a page is right on every list if and only if its offset fits in 64 bits |
| TaskList.ListTasks | internal/store/sqlite/sqlite.go:269-484 | the result is a page of the rows the filter asks for, standing as the sort text asks ("due", "updated", anything else by creation), with their count; a missing filter shows every task on pages of fifty |
| TaskList.AllPagesShowTheList | internal/store/sqlite/sqlite.go:269-484 | reading all pages yields each matching task once, standing as the sort text asks, and no other arrangement of them stands so |
| FromHeader.DecodeFrom | internal/extractor/extractor.go:281-309 | the index loop computes the decoded and space-normalised header; which header that is, PlainIsCopied, FalseWordIsCopied, WordIsDecoded and FieldsAreJoined say |
| FromHeader.ParseFromHeader | internal/extractor/extractor.go:178-264 | a non-empty address it returns is always a valid one; which it is, and with which name, AngleHeader, OpenBracket and the rows below say |
| FromHeader.PlainIsCopied | internal/extractor/extractor.go:281-309 | text in which no encoded word can begin is copied |
| FromHeader.FalseWordIsCopied | internal/extractor/extractor.go:286-305 | so is what only begins like one: nothing ends it, it ends too soon, or the decoder does not know it |
| FromHeader.WordIsDecoded | internal/extractor/extractor.go:286-301 | an encoded word is replaced by its text, and a blank after it is swallowed, with a question mark after that blank |
| FromHeader.WordsAreJoined | internal/extractor/extractor.go:286-301 | any number of encoded words with blanks between them decode to their texts run together |
| FromHeader.EncodedNameIsRead | internal/extractor/extractor.go:178-309 | a header whose name is one or more encoded words is read as its address and the decoded name |
| FromHeader.EncodedWordIsReadExactly | internal/extractor/extractor.go:286-299 | of the words the decoder knows, exactly those whose text begins with "=" stay undecoded |
| FromHeader.FieldsAreJoined | internal/extractor/extractor.go:306-308 | of any text the words remain, one blank between two of them |
| FromHeader.AngleHeader | internal/extractor/extractor.go:231-255 | the name stands before the first bracket; the address is the first valid text between commas inside the brackets, and if there is none, behind the last one |
| FromHeader.OpenBracket | internal/extractor/extractor.go:231-255 | an unclosed bracket reaches to the end |
| FromHeader.ValidAddressExactly | internal/extractor/extractor.go:161-229 | the texts taken for addresses, character by character |
| FromHeader.QuotesAreTaken | internal/extractor/extractor.go:184-190 | a name in quotes is read without them |
| FromHeader.PrintedParse | internal/extractor/extractor.go:61-67 | what reading a printed pair gives, in all cases |
| FromHeader.ReparseExact | internal/extractor/extractor.go:178-264 | printing a parsed header and parsing again gives the same pair if and only if the name is not still quoted and a bare address has no bracket or leading @ |
| FromHeader.ParserUndoesPrinter | internal/extractor/extractor.go:61-264 | for normal, unquoted names and plain valid addresses the parser returns the printed pair |
| FromHeader.ParsedShape | internal/extractor/extractor.go:231-263 | the address and name a header yields are space-normal, the name free of opening brackets |
| Database.TransitionFrame | internal/store/sqlite/sqlite.go:515-564 | a transition keeps the constraints and touches only its task's row, history and the confirmer |
| Database.TransitionKeepsHistory | internal/store/sqlite/sqlite.go:532-564 | the task's history chain grows by one link from its status to the new one, with the actor, or by none if it stays; the others stay |
| Database.ConfirmerExactly | internal/store/sqlite/sqlite.go:606-630 | who confirmed a task is the author of the latest comment that came in on it; if that is empty or none came in, the task's own sender; and no other text is |
| Database.UpsertExactly | internal/store/sqlite/persons.go:727-765 | an address nobody has makes one blank person and one automatic identity; an address somebody has makes nothing |
| Database.AutoAssignGivesConfirmer | internal/store/sqlite/sqlite.go:664-689 | the automatic assignment of an unassigned task gives it to the confirmer |
| Database.ClosingAssignsConfirmer | internal/store/sqlite/sqlite.go:591-689 | closing, which is exactly "completed" and "closed", gives an unassigned task to the owner of the confirmer's address, if it is one; in every other case nobody is assigned and no person made |
| Database.SetEachKeepsValid | internal/store/sqlite/sqlite.go:731-757 | a loop of transitions keeps constraints and chains |
| Database.DuplicatesDoNotMatter | internal/web/api.go:870-884 | the loop over the ids as given and over the distinct ids end in the same database |
| Database.WriteUnmoved | internal/store/sqlite/sqlite.go:718-757 | if every task still has the status that was read, the bulk form is the single form called on each task in turn |
| Database.BulkWriteKeepsChainsExactly | internal/store/sqlite/sqlite.go:718-757 | constraints and history chains survive the bulk transaction if and only if every task it changes still has the status read before it |
| Persons.MergeConserves | internal/store/sqlite/persons.go:978-1040 | a merge keeps all identities and persons, moves only owners, and nothing refers to the source afterwards |
| Persons.MergesCompose | internal/store/sqlite/persons.go:978-1040 | a sequence of merges acts on all references as the composed substitution |
| Persons.HealFailsExactly | internal/store/sqlite/persons.go:585-645 | healing fails if and only if no clean identity and several dirty ones exist |
| Persons.HealedIsClean | internal/store/sqlite/persons.go:585-645 | after healing an identity containing the address is the address |
| Persons.HealKeepsOtherPairs | internal/store/sqlite/persons.go:616-645 | pairs that do not contain the address are neither added nor dropped |
| Persons.EnsureLeavesOneIdentity | internal/store/sqlite/persons.go:562-702 | a successful call nothing comes between leaves exactly one identity containing the address, the address itself, owned by the returned person; other pairs are unchanged |
| Persons.EnsureFailsExactly | internal/store/sqlite/persons.go:562-702 | the call fails if and only if several stored values contain the address and none equals it |
| Persons.FillClearsFlagsExactly | internal/store/sqlite/persons.go:705-721 | a fill writes the row if and only if it adds something, and then the flags are lost |
| Persons.FillOnlyFills | internal/store/sqlite/persons.go:705-721 | filling a row fills only what is empty: the given name, and the organisation of a machine |
| Persons.MachineExactly | internal/store/sqlite/persons.go:537-557 | an address is a machine's if and only if its local part, in lower case, contains one of nine words or is one of six service names |
| Persons.MachineWithoutLocal | internal/store/sqlite/persons.go:537-557 | a text without a local part is looked at as a whole |
| Persons.NewSenderIsNamed | internal/store/sqlite/persons.go:662-702 | an unknown sender becomes a new person with exactly the given name, who owns the address; a nameless machine is given its organisation |
| Persons.ValidPersonEmailExactly | internal/store/sqlite/persons.go:492-535 | a valid person e-mail is exactly a local part, "@" and at least two labels |
| Persons.SenderOfBareAddress | internal/store/sqlite/persons.go:562-582 | with a bare address the sender is that address in lower case, under the given name |
| Persons.SenderOfHeader | internal/store/sqlite/persons.go:562-582 | with a printed header the address is the header's, and its name counts only if no other is given |
| Persons.IgnoredExactly | internal/store/sqlite/persons.go:562-580 | a sender is ignored if and only if neither the address in the header nor the text itself is valid |
| Persons.ConfirmerIsAddress | internal/store/sqlite/sqlite.go:639-648 | a confirmer written as a bare address stands for that address |
| Persons.ConfirmerInHeader | internal/store/sqlite/sqlite.go:639-648 | one written as a header stands for the address in it |
| Persons.EnsureSettles | internal/store/sqlite/persons.go:562-721 | repeating a call returns the same person; the third call changes nothing, the second only for a new named machine sender |
| Persons.TakesOverExactly | internal/store/sqlite/persons.go:562-645 | the returned person existed and did not own the address if and only if a value contains the address and none is it; that value is then renamed to the address |
| Persons.HealChangesIdentitiesExactly | internal/store/sqlite/persons.go:585-645 | a successful healing leaves the identities alone if and only if none is dirty |
| Persons.ArchivesExactly | internal/store/sqlite/persons.go:593-645 | a call archives a person if and only if that person owns the picked dirty identity and somebody else the address; nothing refers to that person then |
| Persons.PickDoesNotMatterExactly | internal/store/sqlite/persons.go:589-645 | two dirty identities the query may return heal to the same database if and only if they have one owner, or merging either owner changes nothing that stays |
| Persons.ClosingStoresNonAddressExactly | internal/store/sqlite/sqlite.go:591-655 | closing adds an identity that is no valid person e-mail if and only if the task is unassigned and the text that says who confirmed it resolves to one that is non-empty, not valid and new |
| Operations.RolesAtomicExactly | internal/store/sqlite/persons.go:1047-1090 | setting roles is all-or-nothing if and only if it does not change the requestor and then fail on the assignee, for whatever reason |
| Operations.RolesMean | internal/store/sqlite/persons.go:1047-1090 | after a success an absent argument has kept the role, an empty one cleared it, a person been entered; nothing else changed |
| Operations.AcceptExactly | internal/store/sqlite/persons.go:923-953 | an accepted identity is the person's under the pair it had, the rejection of just this match is gone, everything else stays; a missing identity or person is reported |
| Operations.RejectExactly | internal/store/sqlite/persons.go:956-965 | a rejection is recorded and nothing else; a missing person is reported |
| Operations.AcceptAfterReject | internal/store/sqlite/persons.go:923-965 | accepting undoes a rejection without trace |
| Operations.AddIdentityExactly | internal/store/sqlite/persons.go:783-818 | a free pair is added for an existing person, in its normal form; a pair that is there keeps its owner |
| Operations.StepKeepsValid | internal/store/sqlite/persons.go:409-1040 | no call other than a bulk change breaks a foreign key, UNIQUE(kind, value) or a history chain |
| Operations.StepExtends | internal/store/sqlite/sqlite.go:515-689 | every such call only extends the history and keeps every task and creation status |
| Operations.RunsStayValid | internal/store/sqlite/sqlite.go:515-689 | after every run of calls other than bulk changes the constraints hold and each task's history is a chain from its creation status to its current one |
| Operations.ChainReads | internal/store/sqlite/sqlite.go:803-826 | in a chain no row stands still, each starts where the one before ended, and the last ends at the current status |
| Interleaving.EventKeepsChainsExactly | internal/store/sqlite/sqlite.go:708-761 | one event of an interleaving keeps constraints and chains if and only if it is no bulk write that meets a moved task |
| Interleaving.ChainsHoldExactly | internal/store/sqlite/sqlite.go:708-761 | over every interleaving of calls, bulk reads and bulk writes, constraints and chains hold all along if and only if no bulk write meets a task moved since it was read |
| Interleaving.MoveInBetweenBreaksChain | internal/store/sqlite/sqlite.go:718-757 | a bulk read, a status change of the task and the bulk write break its chain |
| SenderRace.InsertOwnsExactly | internal/store/sqlite/persons.go:675-702 | whatever happened since the lookup, the returned person owns the address if and only if it has no identity at the insert, and else is named by none |
| SenderRace.RunStaysValid | internal/store/sqlite/persons.go:650-702 | over every interleaving of lookups, inserts and other calls the constraints hold |
| SenderRace.RaceExactly | internal/store/sqlite/persons.go:650-702 | over every interleaving of lookups and inserts, a caller that missed an address gets a person who owns it if and only if no other that missed it inserted it meanwhile |
| SenderRace.LaterOfTwoIsOrphan | internal/store/sqlite/persons.go:650-702 | of two callers that miss one address the later to insert gets a person without identity |
| TaskStore.Store.UpsertPersonByEmail | internal/store/sqlite/persons.go:727-765 | the statements return the owner of the address, made if missing |
| TaskStore.Store.AutoAssignLastConfirmer | internal/store/sqlite/sqlite.go:664-689 | the statements make the automatic assignment AutoAssignGivesConfirmer speaks of |
| TaskStore.Store.SetTaskStatus | internal/store/sqlite/sqlite.go:515-564 | the statements make the specified transition, closing gives the task to its confirmer, or a missing task is reported and nothing changes |
| TaskStore.Store.BulkUpdateTasks | internal/store/sqlite/sqlite.go:696-762 | with nothing between its reads and its transaction: succeeds if and only if every id exists; then it is the single form folded over the ids and returns the number of distinct ones; else nothing changes |
| TaskStore.Store.WriteChanges | internal/store/sqlite/sqlite.go:735-761 | the transaction writes what was read, whatever the statuses are by then, as specified |
| TaskStore.Store.MoveIdentities | internal/store/sqlite/persons.go:998-1010 | the conflict delete removes nothing and the identities move to the target |
| TaskStore.Store.MergePersons | internal/store/sqlite/persons.go:978-1040 | the statements make the specified merge, or report a missing person and change nothing |
| TaskStore.Store.HealIdentities | internal/store/sqlite/persons.go:585-645 | the statements heal as specified for the row LIMIT 1 picks |
| TaskStore.Store.EnsurePersonFromIncoming | internal/store/sqlite/persons.go:562-702 | a sender neither of whose texts is a valid address changes nothing; an unknown bare address makes a new person with exactly the given name; else the specification holds |
| TaskStore.Store.EnsurePersonByEmail | internal/store/sqlite/persons.go:430-485 | the owner of a valid address, made if missing; an invalid one changes nothing |
| TaskStore.Store.UpdatePerson | internal/store/sqlite/persons.go:409-423 | rewrites an existing person's row, else reports it missing |
| TaskStore.Store.RemovePersonIdentity | internal/store/sqlite/persons.go:858-867 | removes an existing identity, else reports it missing |
| TaskStore.Store.SetTaskPersonRoles | internal/store/sqlite/persons.go:1047-1090 | the two updates in order, with their failures and the outcome of each statement |
| TaskStore.Store.AddPersonIdentity | internal/store/sqlite/persons.go:783-818 | adds a pair that is not there, else reports the conflict or the missing person |
| TaskStore.Store.AcceptMatch | internal/store/sqlite/persons.go:923-953 | does what AcceptExactly says |
| TaskStore.Store.RejectMatch | internal/store/sqlite/persons.go:956-965 | does what RejectExactly says |
| Reconnect.StepKeepsInv | frontend/src/stores/websocket.js:52-221 | every input keeps the connection's invariant |
| Reconnect.RunKeepsInv | frontend/src/stores/websocket.js:52-221 | over every interleaving: someone connected means exactly one of current socket and pending timer, nobody means neither; connected means a current socket; every other socket was closed or told to close |
| Reconnect.StaleSocketsAreIgnored | frontend/src/stores/websocket.js:81-139 | events of a socket that is not current change nothing the store sees and emit nothing |
| Reconnect.LogIsLastHundred | frontend/src/stores/websocket.js:35-38 | the kept events are the last hundred of all emitted ones |
| Reconnect.RunIsCounted | frontend/src/stores/websocket.js:81-161 | within one epoch one resync per opening but the first; the wait after n failures in a row is the n-th of 3 s, 10 s, then 30 s |
| Reconnect.EveryRun | frontend/src/stores/websocket.js:20-221 | all of this from the initial state on |
| WebSocketStore.Store.Emit | frontend/src/stores/websocket.js:35-50 | appends the event and keeps at most a hundred |
| WebSocketStore.Store.ScheduleReconnect | frontend/src/stores/websocket.js:59-65 | starts a timer unless one runs or nobody is connected |
| WebSocketStore.Store.EnsureSocket | frontend/src/stores/websocket.js:67-79 | makes a socket unless there is one or a timer runs |
| WebSocketStore.Store.KillSocket | frontend/src/stores/websocket.js:142-154 | no socket, no timer, first delay; the old socket is told to close |
| WebSocketStore.Store.Join | frontend/src/stores/websocket.js:163-170 | connect does the specified step |
| WebSocketStore.Store.Leave | frontend/src/stores/websocket.js:174-178 | disconnect does the specified step |
| WebSocketStore.Store.OnOpen | frontend/src/stores/websocket.js:81-102 | the open handler does the specified step |
| WebSocketStore.Store.OnClose | frontend/src/stores/websocket.js:104-115 | the close handler does the specified step |
| WebSocketStore.Store.OnError | frontend/src/stores/websocket.js:117-124 | the error handler does the specified step |
| WebSocketStore.Store.OnMessage | frontend/src/stores/websocket.js:126-139 | the message handler does the specified step |
| WebSocketStore.Store.OnTimer | frontend/src/stores/websocket.js:61-64 | the timer callback does the specified step |
| WebSocketStore.Store.HandleVisible | frontend/src/stores/websocket.js:200-209 | a visible tab without an open socket restarts the connection |
| WebSocketStore.Store.OnPageShow | frontend/src/stores/websocket.js:216-220 | a page back from the cache restarts the connection if wanted |
| Broker.JoinKeepsSets | internal/web/websocket.go:42-61 | a new channel stands in its user's set and the common set |
| Broker.LeaveKeepsSets | internal/web/websocket.go:64-78 | leaving under its own name takes a channel out of every set and leaves no empty user set |
| Broker.LeavesOnlyUnderItsName | internal/web/websocket.go:64-78 | under another name it stays in its user's set, exactly then |
| Broker.BooksSend | internal/web/websocket.go:87-101 | one send moves one owed copy to what the channel was given or lost |
| Broker.StepKeepsInv | internal/web/websocket.go:42-102 | every step of concurrent publishers, consumers and subscribers keeps the invariant |
| Broker.RunKeepsInv | internal/web/websocket.go:42-102 | so does every run |
| Broker.EveryRunDelivers | internal/web/websocket.go:81-102 | a finished publication reached its audience once, addressees twice, less what full channels lost; nobody else; buffers stay within 64 |
| Broker.ReachedExactly | internal/web/websocket.go:42-102 | over every run a finished publication was offered once to exactly the channels that had joined and not left when it began, twice to those of its addressee; each copy was given or lost to a full buffer |
| Broker.LossNeedsFullChannel | internal/web/websocket.go:87-101 | a copy is lost only by a send that finds 64 events in the channel |
| Broker.EveryRunKeepsOrder | internal/web/websocket.go:81-102 | a channel gets publications in the order they began, save that one may overtake another still being sent when it began |
| Broker.NothingLostWithRoom | internal/web/websocket.go:81-102 | a channel with two free places beyond what it is owed whenever a publication begins loses nothing, in any interleaving |
| Broker.RoomForTwo | internal/web/websocket.go:81-102 | a channel with two free places misses nothing of a publication on its own |
| Broker.SerialPublication | internal/web/websocket.go:81-102 | in the state machine a publication with only its own sends between its beginning and its end leaves the channels with what Publish puts there |
| WebSocketServer.EventBroker.Subscribe | internal/web/websocket.go:42-61 | makes an empty channel and enters it as specified |
| WebSocketServer.EventBroker.Unsubscribe | internal/web/websocket.go:64-78 | removes the channel as specified |
| WebSocketServer.EventBroker.SendTo | internal/web/websocket.go:87-101 | offers the event to each target once, whatever the order |
| WebSocketServer.EventBroker.Publish | internal/web/websocket.go:81-102 | the channels' contents after one whole publication |
| DueDates.ProposalsAreCanonical | internal/ai/verdicts.go:73-85 | a proposal is a canonical existing day; canonical text is proposed as it stands |
| DueDates.TimeIsDropped | internal/ai/verdicts.go:73-85 | a day with a time of day behind it proposes that day |
| DueDates.VisitField | internal/web/api.go:678-736 | one field of the request, in the order the map yields it |
| DueDates.GatherFields | internal/web/api.go:678-736 | the loop rejects exactly the ill-formed requests and else gathers the same whatever the order |
| DueDates.ColumnsMean | internal/web/api.go:738-786 | writing the gathered columns is what the request means for the row, the status apart |
| DueDates.DecideColumns | internal/web/api.go:738-784 | the refusal, or the columns of the UPDATE |
| DueDates.Patch | internal/web/api.go:638-813 | the reply, and the row afterwards, for every outcome of its read and its two writes and with the row changed since the decision was read |
| DueDates.FailureKeepsRowExactly | internal/web/api.go:741-806 | a refusal leaves the row alone; a 500 does so if and only if the row could not be read for the decision, the UPDATE was not made, or its values were there already |
| DueDates.AiStepKeepsHumanDate | internal/ai/verdicts.go:94-122 | the AI leaves the due date alone if and only if it does not auto-apply, reads no day, or finds its own day there |
| DueDates.AiStepExactly | internal/ai/verdicts.go:94-122 | a day that is read is kept as the proposal; without auto-apply it waits and the due date stays, with it it is the due date; a text without a day changes nothing |
| DueDates.CreatedExactly | internal/web/api.go:495-519 | a new task has the due day and the plan day given, each in its place, blank meaning none; refused exactly for a day neither blank nor valid |
| DueDates.ProposedThenDecided | internal/web/api.go:738-793 | a proposed day that is accepted is the due date, as the AI's; one that is rejected leaves the due date that was there |
| DueDates.RunKeepsDates | internal/web/api.go:673-793 | over runs without auto-apply and test seed stored days stay canonical, pending has a proposal, an AI date was proposed |
| DueDates.EveryRunKeepsDates | internal/web/api.go:495-519 | the same from a task's creation on, even if a decision was read from a row that changed before the UPDATE |
| DueDates.SeedBreaksPendingExactly | internal/web/api.go:767-784 | an empty seed is exactly what leaves a decision without a proposal, and the seed ignores the flag |
| DueDates.ManualDayLastsExactly | internal/web/api.go:741-760 | over every run without auto-apply and another manual day, a manual day and its source last if and only if no accepting request has its UPDATE made |
| ICalText.UnfoldICal | internal/preprocessor/ics.go:13-28 | the loop computes the unfolded lines |
| ICalText.UnfoldUndoesFold | internal/preprocessor/ics.go:13-28 | unfolding any folding of content lines, with CRLF or LF, gives the lines |
| ICalText.UnescapeICalValue | internal/preprocessor/ics.go:62-82 | the loop computes the unescaped value |
| ICalText.UnescapeUndoesEscape | internal/preprocessor/ics.go:62-82 | unescaping the escaped form of any text gives the text |
| ICalText.UnescapeLosesNothingExactly | internal/preprocessor/ics.go:73-76 | unescaping is the one that keeps unknown escapes if and only if the value has none; EveryUnknownEscapeLosesOne counts the loss |
| ICalText.ParseICalProp | internal/preprocessor/ics.go:38-59 | the method computes the parsed property |
| ICalText.ParseUndoesPrint | internal/preprocessor/ics.go:38-59 | a printed property with distinct keys is read back with name in capitals, parameters and value if and only if no parameter value holds a colon or a semicolon |
| ICalEvents.ExtractEvents | internal/preprocessor/ics.go:99-135 | the loop computes the scanned events |
| ICalEvents.MarkExactly | internal/preprocessor/ics.go:108-131 | which lines begin an event, end one, give the method, and that every other is its own text |
| ICalEvents.FoldedCalendarIsRead | internal/preprocessor/ics.go:99-135 | the events between BEGIN:VEVENT and END:VEVENT come out in order, each with the METHOD last given before it, however the lines were folded |
| ICalEvents.CollectProps | internal/preprocessor/ics.go:138-159 | the loop computes the collected properties |
| ICalEvents.OwnPropsAreCollected | internal/preprocessor/ics.go:138-159 | of any well-nested body exactly the properties on its own lines are collected, in order |
| ICalEvents.TagExactly | internal/preprocessor/ics.go:142-156 | which lines open and close a component, and that every other holds its property, if any |
| ICalEvents.EventPropsAreCollected | internal/preprocessor/ics.go:138-159 | of a body with components between BEGIN: and END: exactly the properties on its own lines are collected |
| AiVerdicts.KeyIsInjective | internal/ai/verdicts.go:139-141 | the task key tells both the message and the verdict |
| AiVerdicts.KeyTakenExactly | internal/store/sqlite/migrations.go:14-33 | a key is taken if and only if that message's verdict already made its task |
| AiVerdicts.PlanIsDistinct | internal/ai/verdicts.go:25-65 | no write comes twice in a response |
| AiVerdicts.WritesExactly | internal/ai/verdicts.go:25-379 | the writes of a verdict are exactly those it asks for, each once, in this order: the task, its columns, its due date, the comment, the AI's comment, the link |
| AiVerdicts.PlanMakesTask | internal/ai/verdicts.go:31-57 | a response has the write of a new task for exactly its creating verdicts |
| AiVerdicts.AddTaskComment | internal/store/sqlite/sqlite.go:829-850 | a comment is two writes, its row and the task's stamp, the second tried only after the first |
| AiVerdicts.ApplyDueDate | internal/ai/verdicts.go:94-122 | the proposal and its acceptance, which is tried only if the proposal was stored; neither is an error |
| AiVerdicts.CreateTaskFromVerdict | internal/ai/verdicts.go:139-188 | the writes of a new task in order, up to the first error |
| AiVerdicts.UpdateTaskFromVerdict | internal/ai/verdicts.go:191-285 | the writes of an update in order, up to the first error |
| AiVerdicts.CompleteTaskFromVerdict | internal/ai/verdicts.go:311-379 | the writes of a completion in order, up to the first error |
| AiVerdicts.ApplyVerdicts | internal/ai/verdicts.go:25-65 | the loop tries all writes of the verdicts in order, up to the first error |
| AiVerdicts.AppliesExactly | internal/ai/verdicts.go:25-65 | a response applies without error if and only if the database does its part for each write that must not fail and each of its new tasks has a free key |
| AiVerdicts.AppliedTasks | internal/ai/verdicts.go:25-65 | then exactly one task per creating verdict was added |
| AiPipeline.StepKeepsInv | internal/ai/worker.go:36-108 | every step, crash and restart, with failing reads and writes, keeps the pipeline's invariant |
| AiPipeline.RunKeepsInv | internal/ai/worker.go:36-108 | so does every run |
| AiRuns.EveryRunIsSafe | internal/ai/worker.go:51-89 | over every run no row is given up, and a row is done if and only if some response to it ended in its mark: one that tried all its writes and made every one that must not fail |
| AiRuns.EveryRunCreatesOnce | internal/ai/verdicts.go:139-188 | over every run the task of a creating verdict is made at most once, by one response, under a key of its own, and exists from then on |
| AiRuns.EveryRepetitionTakesRestart | internal/ai/worker.go:36-108 | two responses to one row lie in different lives of the process, and the earlier ended at a failing write that must not fail, with its mark not written, or by a crash |
| AiRuns.WrittenTwiceExactly | internal/ai/verdicts.go:191-379 | over every run a write of a verdict that must not fail is made twice if and only if two responses, in different lives, both came past it, however they went on |
| AiRuns.AnswerableExactly | internal/ai/queue.go:42-54 | whatever has happened, some continuation gives the row another response if and only if none ended in its mark |
| AiRuns.RepeatableExactly | internal/ai/verdicts.go:191-379 | whatever has happened, some continuation makes a write other than a new task's once more if and only if the row is not done |
| AiRuns.RestartQueuesOldest | internal/ai/queue.go:42-54 | after a restart whose query succeeds every row not done is pending and the queue holds the oldest that fit |
| AiRuns.LostUntilRestart | internal/ai/queue.go:28-34 | a row in no place of the pipeline is not looked at before the next restart, and a done row never again |
| AiRuns.LostExactly | internal/ai/worker.go:51-89 | an undone row becomes lost in exactly these steps: a wake at a full queue, a read of it that fails, an error in a write, an unwritten mark, a restart whose query fails or that it does not fit in |
| AiRuns.EveryFailureIsTheFirst | internal/ai/worker.go:58-79 | every failure of the LLM waits one minute |
| AiPipeline.BackoffExactly | internal/ai/worker.go:158-170 | the waits are 1, 5, 15 and then always 60 minutes |
| AiRuns.StuckForEver | internal/ai/worker.go:82-89 | while every response creates a task that exists, no run marks the row done |
| AiRuns.HalfAppliedIsStuck | internal/ai/worker.go:51-89 | a run that reaches that state: a response is applied as far as its new task and fails at its completion |
| AiRounds.RoundMarksExactly | internal/ai/worker.go:51-108 | an undisturbed round whose reads and writes succeed marks its row done if and only if none of the tasks it creates exists |
| AiRounds.RoundAnswered | internal/ai/worker.go:51-108 | what one answered round does to rows, tasks, queue and record |
| AiQueue.Queue.constructor | internal/ai/queue.go:17-25 | the capacity defaults to 100 |
| AiQueue.Queue.Enqueue | internal/ai/queue.go:28-34 | appends, or drops when full |
| AiQueue.Queue.LoadPending | internal/ai/queue.go:42-54 | appends the pending rows as far as there is room, and nothing if their query fails |
| AiQueue.Worker.Process | internal/ai/worker.go:51-108 | one call is one uninterrupted round of the pipeline, for every outcome of its reads and writes |
| Stemmer.RegionsNest | internal/classifier/nlp/stemmer.go:51-90 | both regions lie in the word and R2 inside RV |
| Stemmer.MarkRegions | internal/classifier/nlp/stemmer.go:51-90 | the loops find the regions |
| Stemmer.LongestIsLongest | internal/classifier/nlp/stemmer.go:217-235 | the kept suffix fits and no fitting one is longer |
| Stemmer.LongestSuffix | internal/classifier/nlp/stemmer.go:217-235 | the loop finds it |
| Stemmer.RemovePerfectiveGerund | internal/classifier/nlp/stemmer.go:115-137 | drops the gerund's ending from word and region |
| Stemmer.RemoveReflexive | internal/classifier/nlp/stemmer.go:139-147 | drops the reflexive ending from word and region |
| Stemmer.RemoveAdjectival | internal/classifier/nlp/stemmer.go:150-204 | drops the adjective's ending and a participle's before it |
| Stemmer.RemoveVerb | internal/classifier/nlp/stemmer.go:206-241 | drops the verb's ending |
| Stemmer.RemoveNoun | internal/classifier/nlp/stemmer.go:243-262 | drops the noun's ending |
| Stemmer.Dropped | internal/classifier/nlp/stemmer.go:139-147 | the region stays the tail of the word, and what is before it stays |
| Stemmer.Step1 | internal/classifier/nlp/stemmer.go:93-113 | only the region loses characters |
| Stemmer.Step1Rule | internal/classifier/nlp/stemmer.go:93-262 | a gerund's ending goes alone, the first that fits; else the reflexive and then the longest adjective's with a participle's before it, or the longest verb's, or the longest noun's, in this order of precedence |
| Stemmer.Step2Rule | internal/classifier/nlp/stemmer.go:265-273 | a final и goes if it stands in the region |
| Stemmer.Step3Rule | internal/classifier/nlp/stemmer.go:276-295 | the longest derivational ending inside the second region goes |
| Stemmer.Step4Rule | internal/classifier/nlp/stemmer.go:297-318 | one н of two; else a superlative ending and then one н of two; else a soft sign |
| Stemmer.FirstVowelRule | internal/classifier/nlp/stemmer.go:51-68 | the region starts behind the first vowel |
| Stemmer.SecondPairRule | internal/classifier/nlp/stemmer.go:70-89 | the second region starts behind the second pair of a vowel and a consonant |
| Stemmer.StemIsWhatRulesLeave | internal/classifier/nlp/stemmer.go:23-318 | a text is the stem of a word if and only if the rules, said of the endings a text has, leave it |
| StemmerRules.StemIsOne | internal/classifier/nlp/stemmer.go:23-318 | the rules leave at most one stem of a word |
| StemmerRules.FirstIsLongest | internal/classifier/nlp/stemmer.go:115-137 | in a list with the longest first the first ending that fits is the longest |
| Stemmer.LongestStandFirst | internal/classifier/nlp/stemmer.go:115-147 | the gerund, reflexive and superlative lists are such |
| Stemmer.RussianVerbals | internal/classifier/nlp/stemmer.go:115-177 | the gerund, reflexive and participle endings |
| Stemmer.RussianVerbs | internal/classifier/nlp/stemmer.go:207-210 | the verb's endings after а or я |
| Stemmer.RussianSecondVerbs | internal/classifier/nlp/stemmer.go:211-215 | the verb's other endings |
| Stemmer.RussianAdjectives | internal/classifier/nlp/stemmer.go:151-155 | the adjective's endings |
| Stemmer.RussianNouns | internal/classifier/nlp/stemmer.go:244-249 | the noun's endings |
| Stemmer.RussianFinals | internal/classifier/nlp/stemmer.go:281-306 | the derivational and superlative endings |
| Stemmer.RussianPastPlural | internal/classifier/nlp/stemmer.go:93-262 | of a word whose region ends in -али or -яли step 1 takes the verb's -ли, although the noun's -и fits |
| Stemmer.ApplyStep1 | internal/classifier/nlp/stemmer.go:93-113 | computes Step1, which leaves what StemmerRules.Step1Leaves says (Stemmer.Step1Rule) |
| Stemmer.ApplyStep3 | internal/classifier/nlp/stemmer.go:276-295 | drops the longest derivational suffix inside R2 |
| Stemmer.ApplyStep4 | internal/classifier/nlp/stemmer.go:297-318 | the last step, on the whole word |
| Stemmer.InflectedKeepsFirstVowel | internal/classifier/nlp/stemmer.go:31-42 | steps 1 to 3 leave the word up to and including its first vowel |
| Stemmer.InflectedWithoutVowel | internal/classifier/nlp/stemmer.go:31-42 | and a word without vowels entirely |
| Stemmer.StemIsPrefix | internal/classifier/nlp/stemmer.go:23-48 | the stem is a beginning of the lower-cased, folded word |
| Stemmer.StemKeepsFirstVowelExactly | internal/classifier/nlp/stemmer.go:23-48 | the stem of a word with a vowel keeps the word up to its first vowel if and only if steps 1 to 3 do not leave consonants and "ейш" or "ейше" |
| Stemmer.StemWord | internal/classifier/nlp/stemmer.go:23-48 | the method computes the stem, and the rules leave it of the word |
| NGrams.Tokenize | internal/classifier/nlp/tokenizer.go:33-64 | the loop keeps the tokens; which words they are TokensAreRuns says |
| NGrams.TokensAreRuns | internal/classifier/nlp/tokenizer.go:33-64 | the tokens are, in order, exactly the longest possible runs of letters and hyphens of the lower-cased text that have more than one character, are no stop word and not hyphens alone |
| NGrams.StemmedTokensAreSmooth | internal/classifier/nlp/tokenizer.go:33-64 | stemmed tokens hold no underscore |
| NGrams.RussianIsOk | internal/classifier/nlp/stemmer.go:23-48 | the Russian stemmer brings no underscore in, for any lower case that makes none |
| NGrams.Generate | internal/classifier/nlp/ngram.go:12-42 | the loops produce all unigrams, bigrams and trigrams |
| NGrams.GramsExactly | internal/classifier/nlp/ngram.go:12-42 | the n-grams are the tokens, the pairs and the triples of neighbours, joined by underscores |
| NGrams.GenerateFromPhrase | internal/classifier/nlp/ngram.go:46-58 | the n-grams of the stemmed tokens of a phrase |
| NGrams.GramsOfStretch | internal/classifier/nlp/ngram.go:12-42 | every n-gram of a stretch of tokens is one of the whole |
| NGrams.UnderscoresTellLength | internal/classifier/matcher.go:73-81 | one, three and five points go to one, two and three tokens |
| Matcher.UniqueStrings | internal/classifier/matcher.go:110-120 | the loop keeps each string once |
| Matcher.Unique | internal/classifier/matcher.go:110-120 | the same strings, none twice |
| Matcher.FullScorePositive | internal/classifier/matcher.go:66-83 | a keyword with tokens is worth something |
| Matcher.KeywordInTextScores | internal/classifier/matcher.go:49-93 | a keyword standing in the text makes its rule match with the rule's weight, of either sign, times at least the keyword's worth |
| Matcher.RuleMatcher.constructor | internal/classifier/matcher.go:27-46 | every rule's distinct n-grams are prepared |
| Matcher.RuleMatcher.ScoreRule | internal/classifier/matcher.go:66-83 | the loop adds up the points of the n-grams found |
| Matcher.RuleMatcher.Match | internal/classifier/matcher.go:49-100 | one match for every matching rule, best first, whatever the map's order |
| RuleBased.FillMissingFields | internal/classifier/rule_based.go:71-91 | empty fields take the first value in the ranking |
| RuleBased.FillFromRules | internal/classifier/rule_based.go:94-122 | the same, with the confidence of the best score |
| RuleBased.BestRuleGivesField | internal/classifier/rule_based.go:108-121 | a field comes from a rule no matched rule with that field outscores, and stays empty only if none has it |
| RuleBased.ConfidenceIsModest | internal/classifier/rule_based.go:100-106 | in rounded arithmetic confidence lies above 0, is never clamped to 1, stays below 1 while the score is exact, and is below 0.4 exactly for a best score of one |
| RuleBased.ConfidenceGrows | internal/classifier/rule_based.go:100-106 | in rounded arithmetic a higher score never has the lower confidence, and below 2 to the 27th it has the higher |

## Left out

- HTTP, IMAP and SMTP transport, JSON, the LLM clients, logging, metrics, configuration, the user interface, document text extraction: wiring and libraries.
- Project and epic CRUD, attachment links, unread counters, the outbox, field parsing, SuggestMatch, the urgency booster: only one-step claims.
- Time: each query sees a single "today" (the code reads the clock several times), timestamps are numbers, comments of equal time are ordered by insertion.
- WebSocketServer.EventBroker.Publish: is one publication under the lock by itself; the state machine in Broker covers publishers, consumers and subscribers interleaved, and Broker.SerialPublication ties the two.
- Random person and identity ids: a supply of fresh numbers, the same for the single and the bulk form; hashing and tokens do not appear.
- Strings are sequences of characters: the length limits of addresses and the suffix comparisons count characters, not bytes; lower and upper case are modelled for ASCII in SQL (as without the ICU extension), addresses and iCalendar names.
- The columns external_id and is_primary of identities, and text columns no modelled condition reads.
- The transport of the WebSocket: the auth frame, mark_read, and the listeners; listeners are taken to have no effect on the store.
- The rendering of an event to text (labels, dates, participants) after its properties were collected.
- The attachments of an AI verdict: their copies and links to the comments are only logged when they fail, and nothing depends on them; the texts of comments and tasks do not appear, only that they are written.
- AiRuns.RepeatableExactly: takes a write of another response to the same row at the same verdict as the same write, as the LLM's answer may differ.
- DueDates.Patch: works on the one row of the task as a value, as it was when the decision was read and as it is at the UPDATE; the history row of a status change belongs to the status operation in TaskStore.
- Broker.RoomForTwo: speaks of one publication on its own; NothingLostWithRoom speaks of several at once.
- RuleBased.ConfidenceIsModest: rounding is a parameter with the properties of round to nearest that the proof needs; scores are unbounded integers, so their overflow past 64 bits is not modelled.
- EnsurePersonFromIncoming: its clean-up is taken as statements nothing else comes between and none of which fails; SenderRace has its lookup and inserts interleaved. The two statements of SetTaskPersonRoles and the existence checks of a merge are taken as uninterrupted.
- TaskFilter.CompileFilter: SQLite's limits on the length of a LIKE pattern (50000 bytes) and the number of parameters of a statement, past which it refuses the query, are not modelled.
- Other lower-casing and letters: the stemmer and tokenizer take the Unicode tables and the stop-word list as parameters.
