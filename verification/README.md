# FarconN, modelled in Dafny

FarconN is a chat server: clients send text commands, a worker interprets them, handlers check and
change relational tables through generated SQL, and replies are printed as text again. This project
models the logic behind those parts and proves what it keeps.

`dafny verify dfyconfig.toml` checks everything.

## How the model is built

- **Search.** `EditDistance` and `QueryRanking` hold the relevance estimator, which fills a
  two-dimensional table in place. The table has one row per character of the stored word and one
  column per character of the query, so first characters are never compared: it measures the distance
  of the two tails. `StableSort`, `Selection` and `Search` hold the filter, the sort, the session's
  cache and the pages. Penalties are integers and relevances exact rationals.
- **The tables.** `Tables` has the tables as a value and a `Database` object whose methods do what each
  generated statement says, each shown to keep the foreign keys, cascades included. `Contacts`, `Chats` and `Accounts` hold
  the handlers, statement by statement, each proved against a function that says its whole effect.
  `Server` puts them together as a state machine, one command one step: the worker count is one
  (`include/server/src/server.cpp:5`), so handlers never interleave. `ContactRuns`, `ChatRuns`,
  `ChatCounts`, `Messages` and `Polling` prove properties of every run, `Undo` what commands take back, and
  `Service` that the handlers on one database pass through exactly the machine's states. `CommandEffects`
  says of each command, row by row, when it succeeds and what it does, and `ChatProvenance` where every chat,
  membership and message comes from.
- **Waiting.** `ThreadSafeQueue` and `ThreadSafeMap` model the condition-variable containers as step
  systems: any number of threads, the mutex, notifications and spurious wakeups, one move at a time.
  `QueueCalls` and `MapCalls` say what each call does and returns amid the others.
- **Text.** `SqlLiterals` has the in-place escaping loop and the reader of MySQL string literals that
  undoes it, `CommandText` the command builder and the interpreter, `CommandRoundTrip` which commands
  the one reads as the other printed them, and `Encoders` the re-encoding of nested replies.
- **Failures.** `LimitExample` and `Counterexamples` build the runs and texts in which a promise fails, from
  the small runs of `Scenes`.

The bodies of the interpreter, the database responder and the worker are in
`include/general/src/protocol_interpreter.cpp`, `include/server/src/db_responder.cpp` and
`include/server/src/server.cpp`. The table below cites what they implement, the documented grammar, the
declarations, the generated statements and the dispatch, and names the interpreter's lines in its last column.

The caller of a command is the user of a session made by a login. Generated identifiers are inputs that
satisfy the generator's condition, the time of a message is an input, and the database answers.

## What does not hold

Five promises fail in the code; each item names the proof of when.

- An empty query after a non-empty one reaches the estimator, whose table then has no columns. A run of
  searches stays defined exactly when no call clears a non-empty query while there are candidates
  (`Search.UndefinedExactlyWhenQueryCleared`); two users who signed up are enough
  (`Counterexamples.EmptiedQueryIsUndefined`), and a client can send such a search
  (`Counterexamples.EmptySearchCanBeSent`).
- A search whose candidates could not be read leaves an empty ranking in the session, and repeating it
  succeeds with no results (`Search.RetryAfterFailedFill`). After any run the results are the ranking if the
  last call that changed the query read its candidates, and empty if it failed
  (`Search.CacheIsRankingOfLastChange`).
- The limit of 512 chats holds in a run exactly when no `chat_add` succeeds for a user who is in 512
  (`ChatCounts.LimitHoldsExactlyWithoutOverfill`); `LimitExample.LimitCanBeExceeded` builds a run with 513,
  and past the limit creation is no longer stopped (`ChatCounts.CreateAboveLimit`).
- Polling for new messages misses a message that is not newer than the last one received, and never sends it
  later. Repeated polls gather exactly what is behind the first anchor if and only if each finds only messages
  newer than those that were there, which, while the clock does not go back, only a tie prevents
  (`Polling.PollsGatherTheLog`); `Counterexamples.TiedPostIsMissed` builds a run.
- A printed command is not always read back. An empty name or parameter is lost, although the
  documentation (`docs/menu.md:11-12`) has empty parameters wrapped in brackets
  (`Counterexamples.EmptyParameterIsLost`); a token with a line break keeps its brackets; a first parameter
  that starts with a dash and has no white space becomes an option; and a token's own brackets can merge it
  with the next (`Counterexamples.OpenBracketMerges`), break it, or be taken off. For every command
  `CommandRoundTrip.InterpretUndoesPrint` says exactly when it comes back.

And two in the containers, neither in a use the server makes of them:

- A `wait_and_get` consumer of the queue can use up the one notification of an item it then leaves in the
  queue, and a consumer that would erase it sleeps on. `ThreadSafeQueue.NextKeepsWakeups` says exactly which
  move does this; `ThreadSafeQueue.LookingLosesWakeup` builds an execution.
- Assigning a key of the map wakes nobody (`ThreadSafeMap.NextKeepsSleepers`,
  `ThreadSafeMap.AssignmentLosesWakeup`).

## Model

| member | source | states |
|---|---|---|
| EditDistance.DistanceIsLeastCost | include/server/src/query_ranking_estimator.cpp:22-32 | a number is the distance of two words exactly when some edit script has that cost and none costs less |
| EditDistance.OptimalScript | include/server/src/query_ranking_estimator.cpp:24-30 | a script from one word to the other whose cost is the distance |
| EditDistance.NoCheaperScript | include/server/src/query_ranking_estimator.cpp:24-30 | every script costs at least the distance of the words it relates |
| EditDistance.DistanceTriangle | include/server/src/query_ranking_estimator.cpp:24-30 | triangle inequality for any three words |
| EditDistance.DistanceTails | include/server/src/query_ranking_estimator.cpp:14-20 | dropping both first characters never increases the distance |
| EditDistance.DistancePrepend | include/server/src/query_ranking_estimator.cpp:14-20 | putting a character before both words adds at most the price of a mismatch |
| QueryRanking.FillTable | include/server/src/query_ranking_estimator.cpp:8-32 | the table filled in place holds in every cell the optimum for its own prefix pair |
| QueryRanking.EstimateQueryRanking | include/server/src/query_ranking_estimator.cpp:8-54 | for non-empty words the estimator returns the relevance stated on the distance of the tails |
| QueryRanking.RawRankingIsLeastPenalty | include/server/src/query_ranking_estimator.cpp:14-34 | the raw ranking is 20 times the least number of edits between the tails |
| QueryRanking.RawRankingOfWholeWords | include/server/src/query_ranking_estimator.cpp:14-31 | it is at most 20 below 20 times the distance of the whole words, and equal when the first characters agree |
| QueryRanking.RawRankingIsPseudoMetric | include/server/src/query_ranking_estimator.cpp:22-41 | symmetric, zero exactly for equal tails, triangle inequality, bounded by the lengths |
| QueryRanking.RelevanceRange | include/server/src/query_ranking_estimator.cpp:43-54 | the score lies in [0,1] and is 1 exactly for equal tails |
| QueryRanking.RelevanceOrder | include/server/src/query_ranking_estimator.cpp:43-54 | for one query, more relevant means closer, up to the query's length |
| QueryRanking.RelevanceThreshold | include/server/src/handlers/search_handler.cpp:47-49 | the threshold of 0.3 is 10 * distance <= 7 * query length |
| StableSort.SortIsStable | include/server/src/handlers/search_handler.cpp:52-54 | sorting yields descending weights and keeps ties in order |
| StableSort.StableSortUnique | include/server/src/handlers/search_handler.cpp:52-54 | only one list does, so the sort stands for any correct list sort |
| Search.RelevanceTable | include/server/src/handlers/search_handler.cpp:37-45 | the table by id gives every listed user the larger of the relevances of login and name |
| Search.UpdateSearchingCache | include/server/src/handlers/search_handler.cpp:20-62 | the session's cache and the outcome after a call: kept, emptied by a failure, or refilled with the ranking numbered from 0 |
| Search.StoreResults | include/server/src/handlers/search_handler.cpp:56-59 | the results have exactly the keys 0..k-1, in ranking order |
| Search.RankedIsTheRanking | include/server/src/handlers/search_handler.cpp:47-54 | the ranking is the one list in non-increasing relevance that has, for each relevance of at least 0.3, exactly the candidates of that relevance in database order |
| Search.RankedMembers | include/server/src/handlers/search_handler.cpp:37-51 | a candidate is listed exactly when 10 * the smaller tail distance <= 7 * query length |
| Search.RankedOnce | include/server/src/handlers/search_handler.cpp:47-59 | nobody is listed twice, and nobody who is no candidate |
| Search.RankedByDistance | include/server/src/handlers/search_handler.cpp:37-59 | the ranking runs from the smallest to the largest of the users' distances, each that of the closer of login and name, and equal distances stand in database order |
| Search.UndefinedExactlyWhenQueryCleared | include/server/src/handlers/search_handler.cpp:23-45 | over any run of searches the estimator is called with an empty query exactly when a call clears a non-empty query while there are candidates |
| Search.CacheIsRankingOfLastChange | include/server/src/handlers/search_handler.cpp:23-61 | after any run the results are the ranking of the candidates read when the query last changed, or empty if that failed |
| Search.CacheEmptyBeforeFirstChange | include/server/src/handlers/search_handler.cpp:23-28 | while the query stays empty there are no results |
| Search.RetryAfterFailedFill | include/server/src/handlers/search_handler.cpp:23-35 | repeating a search that failed succeeds with an empty ranking |
| Search.CollectPage | include/server/src/handlers/search_handler.cpp:90-94 | for every 64-bit offset and limit the loop ends without wrap-around and collects exactly the results i with offset <= i and i - offset < limit |
| Search.PagesTile | include/server/src/handlers/search_handler.cpp:90-94 | pages at consecutive multiples of their size are disjoint and cover all results |
| Search.PageOfRanking | include/server/src/handlers/search_handler.cpp:90-94 | a page of a ranking has exactly the numbers from its offset on, as many as its limit, each with its own user |
| Search.Execute | include/server/src/handlers/search_handler.cpp:64-101 | unreadable settings leave the cache alone; otherwise the reply is the page of the updated ranking |
| Search.CacheStaysNumbered | include/server/src/handlers/search_handler.cpp:56-59 | the cached results stay numbered without gaps, which the page loop relies on |
| Selection.StoiOfDecimal | include/server/src/handlers/selection_handler.cpp:16-27 | a decimal number is read back, whatever non-digit text follows, exactly when it fits 32 bits |
| Selection.SettingOfDecimal | include/server/src/handlers/selection_handler.cpp:16-27 | a written number sets itself, a negative one its distance below 2^64 |
| Selection.StoiMeans | include/server/src/handlers/selection_handler.cpp:16-27 | a text is readable exactly if it is white space, a sign or none and digits, whatever follows, and the number fits 32 bits |
| Selection.SettingMeans | include/server/src/handlers/selection_handler.cpp:16-27 | for any text: empty keeps the setting, readable sets it modulo 2^64, any other fails and keeps it |
| Selection.SelectionBase.constructor | include/server/middleware/entities/selection_entities.hpp:12-15 | offset 0 and the largest limit by default |
| Selection.SelectionBase.TryConvertToOffset | include/server/src/handlers/selection_handler.cpp:8-10 | an empty text keeps the offset, a readable one sets it modulo 2^64, any other fails |
| Selection.SelectionBase.TryConvertToLimit | include/server/src/handlers/selection_handler.cpp:12-14 | the same for the limit |
| Tables.Database.SignupUser | include/server/src/db_queries_generator.cpp:174-185 | inserts the row with name = login and empty phone, email and self, unless id or login is taken |
| Tables.Database.UpdateUser | include/server/src/db_queries_generator.cpp:251-281 | replaces the row unless another user has the login |
| Tables.Database.CreateRequest | include/server/src/db_queries_generator.cpp:297-308 | adds one row, refused unless both are users |
| Tables.Database.DeleteRequest | include/server/src/db_queries_generator.cpp:310-322 | deletes every row of the pair in this direction |
| Tables.Database.CreateContact | include/server/src/db_queries_generator.cpp:338-349 | adds one row, refused unless both are users |
| Tables.Database.DeleteContact | include/server/src/db_queries_generator.cpp:351-364 | deletes every row of the pair in both directions |
| Tables.Database.CreateChat | include/server/src/db_queries_generator.cpp:436-477 | inserts the chat and then its rows; when the rows are refused the chat stays |
| Tables.Database.AddUserToChat | include/server/src/db_queries_generator.cpp:536-552 | row and size together, or nothing |
| Tables.Database.DeletePartyRow | include/server/src/db_queries_generator.cpp:560-562 | removes one row and tells whether there was one |
| Tables.Database.DecreaseChatSize | include/server/src/db_queries_generator.cpp:564-567 | lowers the size of an existing chat by one |
| Tables.Database.DeleteDeadChat | include/server/src/db_queries_generator.cpp:569-573 | deletes a public chat of size 0 or a private one of size 1, with its party rows and messages, so that no row is left that names it |
| Tables.Database.PostMessage | include/server/src/db_queries_generator.cpp:578-601 | appends the message unless a key or the unique index is broken |
| Contacts.HandleCreate | include/server/src/handlers/invite_handler.cpp:45-51 | a request is added exactly for two unrelated users |
| Contacts.HandleAccept | include/server/src/handlers/invite_handler.cpp:28-35 | an existing request becomes a contact in the same direction |
| Contacts.HandleReject | include/server/src/handlers/invite_handler.cpp:37-43 | an existing request disappears |
| Contacts.HandleCancel | include/server/src/handlers/invite_handler.cpp:53-55 | the same, asked for by its author |
| Contacts.HandleContactDelete | include/server/src/handlers/contact_delete_handler.cpp:16-26 | contact rows of both directions disappear, or the error says there were none |
| Chats.HandleChatCreate | include/server/src/handlers/chat_create_handler.cpp:22-46 | checks the caller's limit and hands on to the kind |
| Chats.HandlePrivate | include/server/src/handlers/chat_create_handler.cpp:48-68 | the refusals in order, or a chat of the two contacts |
| Chats.HandlePublic | include/server/src/handlers/chat_create_handler.cpp:70-79 | refuses a bad title, or makes a chat of one |
| Chats.HandleChatAdd | include/server/src/handlers/chat_add_handler.cpp:16-44 | the refusals in order, or one more row and a size one larger |
| Chats.HandleChatLeave | include/server/src/handlers/chat_leave_handler.cpp:16-24 | only a participant leaves; the effect is that of the transaction |
| Chats.ExcludeUserFromChat | include/server/src/db_queries_generator.cpp:554-576 | the three statements amount to removing the row, or the whole chat when it is left dead |
| Chats.HandleChatPost | include/server/src/handlers/chat_post_handler.cpp:27-82 | only a participant posts, within the size limits; the message is appended |
| Accounts.HandleSignup | include/server/src/handlers/signup_handler.cpp:15-35 | valid login and password and an unused login make a row |
| Accounts.ProfileSetHandler.CollectSettings | include/server/src/handlers/profile_set_handler.cpp:33-37 | the loop succeeds exactly when every setting is valid, and then holds the last setting of each option |
| Accounts.ProfileSetHandler.Execute | include/server/src/handlers/profile_set_handler.cpp:11-48 | all or nothing on the users table, and the session follows a new login |
| Accounts.LastOccurrenceWins | include/server/src/handlers/profile_set_handler.cpp:33-37 | the last occurrence of an option decides, an option not given sets nothing |
| Accounts.ProfileSetIsFieldwise | include/server/src/handlers/profile_set_handler.cpp:27-48 | success changes exactly the named fields of the caller's row; any other outcome changes nothing |
| Server.Handle | include/server/src/server_middleware.cpp:15-19 | dispatching a command to its handler takes exactly the machine's step |
| CommandEffects.SignupEffect | include/server/src/handlers/signup_handler.cpp:15-35 | signing up succeeds exactly with a valid login nobody has and a valid password; the row it adds |
| CommandEffects.ProfileSetEffect | include/server/src/handlers/profile_set_handler.cpp:11-48 | settings are accepted exactly when each is valid and no other user has the login set last; which code refuses |
| CommandEffects.InviteCreateEffect | include/server/src/handlers/invite_handler.cpp:45-51 | a request is made exactly to another user with whom there is no row; it adds one |
| CommandEffects.InviteDropEffect | include/server/src/handlers/invite_handler.cpp:37-55 | cancelling and rejecting need the one request they remove, in their own direction |
| CommandEffects.InviteAcceptEffect | include/server/src/handlers/invite_handler.cpp:28-35 | accepting needs the user's request and turns it into a contact row of the same direction |
| CommandEffects.ContactDeleteEffect | include/server/src/handlers/contact_delete_handler.cpp:16-26 | deleting needs a contact row in either direction and removes it |
| CommandEffects.CreatePrivateEffect | include/server/src/handlers/chat_create_handler.cpp:27-68 | a private chat is made exactly between contacts who have none yet and of whom neither is in 512 chats; its rows; which code refuses |
| CommandEffects.CreatePublicEffect | include/server/src/handlers/chat_create_handler.cpp:27-82 | a public chat is made exactly for a valid title and a caller who is not in 512 chats; its row |
| CommandEffects.ChatAddEffect | include/server/src/handlers/chat_add_handler.cpp:16-46 | an addition succeeds exactly for a member of a public chat of fewer than 65536 and a contact who is not in it |
| CommandEffects.ChatLeaveEffect | include/server/src/handlers/chat_leave_handler.cpp:16-24 | leaving succeeds exactly for a member |
| CommandEffects.ChatPostEffect | include/server/src/handlers/chat_post_handler.cpp:27-82 | a post succeeds exactly for a member, within the size limit, with no message of the same sender at the same time; it goes to the end |
| Service.Serve | include/server/src/server_middleware.cpp:15-19 | a worker that handles the commands of a run ends in the machine's state, with the machine's statuses, and all invariants hold |
| ContactRuns.StepKeepsUsers | include/server/src/handlers/profile_set_handler.cpp:27-48 | every command keeps all users rows valid and logins unique |
| ContactRuns.ReachableUsers | include/general/src/format_validators.cpp:5-27 | in every reachable state every users row passes its field validators and fits its columns, and logins are unique |
| ContactRuns.StepKeepsRelations | include/server/src/handlers/invite_handler.cpp:28-55 | every command keeps at most one row in contacts and requests together for two users, and none for one |
| ContactRuns.ReachableRelations | include/server/src/db_queries_generator.cpp:60-78 | that holds after any commands, and rows only name users |
| ContactRuns.RequestProvenance | include/server/src/handlers/invite_handler.cpp:28-55 | at every moment a request row stands exactly for a request not accepted, cancelled or rejected since |
| ContactRuns.ContactAcceptance | include/server/src/handlers/invite_handler.cpp:28-35 | at every moment a contact row stands exactly for an acceptance with no deletion since |
| ContactRuns.ContactProvenance | include/server/src/handlers/invite_handler.cpp:28-55 | a contact row (a,b) is there exactly when a asked, b later accepted with nothing between, and nobody deleted it since |
| ContactRuns.SearchingListIsInvitable | include/server/src/db_queries_generator.cpp:148-172 | the searching list is exactly the users the caller can send a request to; a request takes both off each other's lists, and cancelling or rejecting it puts them back |
| ContactRuns.ReachableCandidates | include/server/src/db_queries_generator.cpp:148-172 | in every reachable state the candidates have non-empty logins and names and distinct ids, as the estimator needs |
| ChatRuns.StepKeepsChats | include/server/src/db_queries_generator.cpp:436-576 | every command keeps sizes, foreign keys and private pairs in order |
| ChatRuns.ReachableChats | include/server/src/db_queries_generator.cpp:80-108 | in every reachable state each chat's size is its number of rows, a private chat has two, a public one 1 to 65536, rows and messages name live chats and users, and no two private chats share a pair |
| ChatRuns.CreatePrivateKeepsChats | include/server/src/handlers/chat_create_handler.cpp:48-68 | creating a private chat keeps all of that |
| ChatRuns.AddKeepsChats | include/server/src/handlers/chat_add_handler.cpp:16-46 | adding to a chat keeps all of that |
| ChatRuns.LeaveKeepsChats | include/server/src/db_queries_generator.cpp:554-576 | leaving a chat keeps all of that |
| ChatRuns.UsersSignedUp | include/server/src/handlers/signup_handler.cpp:27-33 | every users id is the generated id of a signup |
| ChatRuns.AddAsksAboutUsers | include/server/src/handlers/chat_add_handler.cpp:16-46 | if generated ids read as themselves, the membership query asks about the very user wherever adding to a chat comes to it |
| ChatProvenance.ChatOpened | include/server/src/db_queries_generator.cpp:436-576 | at every moment a chat is there exactly when it was opened and has not ended since |
| ChatProvenance.MembershipProvenance | include/server/src/db_queries_generator.cpp:436-576 | a user is in a chat exactly when brought in by a creation or an addition and not out since, by leaving or with the other of a private chat |
| ChatProvenance.MessageProvenance | include/server/src/db_queries_generator.cpp:554-601 | a message is there exactly when it was posted and its chat has not ended since |
| ChatProvenance.MessagesAreFromMembers | include/server/src/handlers/chat_post_handler.cpp:49-82 | every message of every reachable state was posted by a member of its chat, within the size limit |
| ChatCounts.PrivateChatHasTwoMembers | include/server/src/handlers/chat_create_handler.cpp:48-68 | a private chat always has exactly two members, different users |
| ChatCounts.TitleOfPrivateChat | include/server/src/db_queries_generator.cpp:499-516 | the title's sub-select always yields exactly one row, so a participant's chat info never fails |
| ChatCounts.LeaveEndsChat | include/server/src/db_queries_generator.cpp:560-573 | leaving ends the chat exactly for a private one or the last member, then with every row and message, and touches no other chat |
| ChatCounts.DoubleCounting | include/server/src/db_queries_generator.cpp:479-491 | over every run the sizes of the chats, the party rows and the users' chat counts add up to one number |
| ChatCounts.LimitHoldsExactlyWithoutOverfill | include/server/src/handlers/chat_create_handler.cpp:35-37 | nobody is ever in more than 512 chats exactly when no chat_add succeeds for a user who is in 512 |
| ChatCounts.CreateAboveLimit | include/server/src/handlers/chat_create_handler.cpp:35-37 | above 512 the check for exactly 512 stops nobody |
| LimitExample.LimitCanBeExceeded | include/server/src/handlers/chat_add_handler.cpp:16-44 | a run ends with a user in 513 chats |
| Scenes.SomeScene | include/server/src/handlers/chat_add_handler.cpp:16-44 | the users and texts of such a run exist |
| Scenes.PairedReached | include/server/src/handlers/chat_create_handler.cpp:48-68 | a run after which two contacts have a private chat |
| Counterexamples.TiedPostIsMissed | include/server/src/db_queries_generator.cpp:632-638 | a run in which two members post at one time and a polling client is never sent the second message |
| Counterexamples.EmptiedQueryIsUndefined | include/server/src/handlers/search_handler.cpp:23-45 | in a reachable state a search and then an empty one, both with all the candidates of that state, call the estimator with an empty query |
| Counterexamples.EmptySearchCanBeSent | include/server/src/handlers/search_handler.cpp:64-68 | a text with brackets around nothing is read as a search with an empty query |
| Counterexamples.EmptyParameterIsLost | include/general/src/command_builder.cpp:48-69 | a command with an empty parameter is read without it |
| Counterexamples.OpenBracketMerges | include/general/src/command_builder.cpp:48-69 | a parameter that opens a bracket is read as one with the next |
| Undo.LeaveUndoesCreatePrivate | include/server/src/handlers/chat_leave_handler.cpp:16-24 | either member leaving a new private chat restores all tables |
| Undo.LeaveUndoesCreatePublic | include/server/src/handlers/chat_leave_handler.cpp:16-24 | the creator leaving a new public chat restores all tables |
| Undo.LeaveUndoesAdd | include/server/src/handlers/chat_add_handler.cpp:16-44 | an added user leaving restores all tables |
| Undo.DropUndoesCreate | include/server/src/handlers/invite_handler.cpp:37-55 | cancelling or rejecting a new request restores all tables |
| Undo.DeleteUndoesAcceptedRequest | include/server/src/handlers/contact_delete_handler.cpp:16-26 | request, acceptance and deletion by either side cancel out |
| Undo.PrivateChatExistsMeans | include/server/src/db_queries_generator.cpp:418-434 | the existence query answers whether some private chat has exactly these two members |
| ThreadSafeQueue.ExecutionKeepsOrder | include/general/tools/thread_safe_containers/thread_safe_queue.hpp:12-72 | mutual exclusion and first-in-first-out in every state of every execution, whichever operations the threads call |
| ThreadSafeQueue.ExecutionKeepsWakeups | include/general/tools/thread_safe_containers/thread_safe_queue.hpp:12-58 | in every state before any thread looks away, each queued item has a thread on its way while somebody sleeps |
| ThreadSafeQueue.NextKeepsWakeups | include/general/tools/thread_safe_containers/thread_safe_queue.hpp:12-58 | a move keeps that, while somebody sleeps, each queued item has a thread on its way, exactly unless it is a `wait_and_get` that finds an item others still need its wakeup for |
| ThreadSafeQueue.NoLostWakeup | include/general/tools/thread_safe_containers/thread_safe_queue.hpp:12-58 | while nobody has looked away, with the mutex free and somebody asleep there are at least as many woken threads as items |
| ThreadSafeQueue.LookingLosesWakeup | include/general/tools/thread_safe_containers/thread_safe_queue.hpp:48-58 | an execution that ends with an item queued, one consumer asleep and nobody else there |
| ThreadSafeQueue.FirstInFirstOut | include/general/tools/thread_safe_containers/thread_safe_queue.hpp:12-46 | what was taken, then what is queued, is what was added, and each consumer returns the item it took |
| ThreadSafeQueue.QuiescentMeansServed | include/general/tools/thread_safe_containers/thread_safe_queue.hpp:24-58 | while nobody has looked away, when no thread can move by itself all are asleep and the queue is empty |
| ThreadSafeQueue.ErasingLosesNoWakeup | include/general/tools/thread_safe_containers/thread_safe_queue.hpp:12-72 | in every execution without a call of `wait_and_get` nobody looks away: no wakeup is lost, and at rest all are asleep and the queue is empty |
| ThreadSafeQueue.OwnMoveDecreases | include/general/tools/thread_safe_containers/thread_safe_queue.hpp:12-72 | every own move lowers a measure, so a fixed set of calls comes to rest |
| QueueCalls.WaitAndEraseReturnsFront | include/general/tools/thread_safe_containers/thread_safe_queue.hpp:24-37 | between its call and its return a thread takes exactly one item, the front of the queue at that move, and returns it |
| QueueCalls.WaitAndGetReturnsFront | include/general/tools/thread_safe_containers/thread_safe_queue.hpp:48-58 | it returns the front of the queue at its last look and takes nothing |
| QueueCalls.AddAppendsOnce | include/general/tools/thread_safe_containers/thread_safe_queue.hpp:12-22 | it puts its item at the end of the queue exactly once |
| QueueCalls.TryEraseReturnsFront | include/general/tools/thread_safe_containers/thread_safe_queue.hpp:39-46 | it takes and returns the front, or returns nothing and the queue is empty |
| QueueCalls.ClearTakesEverything | include/general/tools/thread_safe_containers/thread_safe_queue.hpp:68-72 | it takes what was in the queue when it got the mutex, in order, and leaves the queue empty |
| ThreadSafeMap.NextKeepsSleepers | include/general/tools/thread_safe_containers/thread_safe_unordered_map.hpp:63-109 | a move leaves nobody asleep on a present key exactly unless it assigns an awaited key |
| ThreadSafeMap.NoLostWakeup | include/general/tools/thread_safe_containers/thread_safe_unordered_map.hpp:63-121 | while no awaited key is assigned and the mutex is free, no sleeper's key is present |
| ThreadSafeMap.QuiescentMeansServed | include/general/tools/thread_safe_containers/thread_safe_unordered_map.hpp:63-121 | when no thread can move by itself all sleep on absent keys |
| ThreadSafeMap.InsertingLosesNoWakeup | include/general/tools/thread_safe_containers/thread_safe_unordered_map.hpp:63-121 | in every execution without a call of `set` or `update` no awaited key is assigned: no wakeup is lost, and at rest all sleep on absent keys |
| ThreadSafeMap.AssignmentLosesWakeup | include/general/tools/thread_safe_containers/thread_safe_unordered_map.hpp:75-85 | an execution in which a waiter sleeps on while its key is there |
| MapCalls.CallWorksAtOnce | include/general/tools/thread_safe_containers/thread_safe_unordered_map.hpp:63-141 | every call changes the map at one move only, as its method is to, and returns what that move found, whatever the other threads do |
| SqlLiterals.Text.Escape | include/server/src/db_queries_generator.cpp:18-22 | the in-place loop ends and yields the character-wise escape |
| SqlLiterals.EscapedLength | include/server/src/db_queries_generator.cpp:12-22 | the escape adds one character for each quote of either kind and each backslash, and no other |
| SqlLiterals.ToMysqlFormat | include/server/src/db_queries_generator.cpp:12-24 | every argument is escaped where it stands |
| SqlLiterals.QuotedReadsBack | include/server/db/db_queries_generator.hpp:15 | a quoted value reads back as itself, stopping behind it, exactly when no quote follows |
| SqlLiterals.ReadEscaped | include/server/src/db_queries_generator.cpp:18-22 | reading past an escaped text, inside quotes of either kind, yields the text and goes on behind it |
| SqlLiterals.BetweenQuotesReadsBack | include/server/src/db_queries_generator.cpp:18-22 | between quotes of either kind an escaped text reads back as itself exactly when no other such quote follows |
| SqlLiterals.ConditionReadsBack | include/server/src/db_queries_generator.cpp:522-534 | the membership query, which leaves the user id unescaped, asks about the very chat and user exactly when that id has no quote, and no backslash but before a percent sign or underscore |
| SqlLiterals.ValuesReadBack | include/server/src/db_queries_generator.cpp:180-181 | a comma-separated list of quoted values reads back as the list |
| SqlLiterals.AddUserReadsBack | include/server/src/db_queries_generator.cpp:174-185 | id, login and password reach the users row unchanged, whatever characters they hold |
| SqlLiterals.WriteRows | include/server/src/db_queries_generator.cpp:464-474 | the loop writes the rows separated by commas |
| SqlLiterals.RowsReadBack | include/server/src/db_queries_generator.cpp:464-474 | the rows read back as exactly one row for each default member, in order |
| Encoders.Encode | include/general/tools/encoders.hpp:16-121 | encoding changes exactly the strings, at any depth; maps are rebuilt without replacing entries |
| Encoders.Rebuild | include/general/tools/encoders.hpp:74-79 | every key is present, with the value of one of its entries |
| Encoders.DecodeUndoesEncode | include/general/tools/encoders.hpp:28-121 | decoding an encoding gives the value back, in whatever order maps are rebuilt, if decoding undoes encoding on its strings |
| Encoders.EntriesKeptExactlyWhenApart | include/general/tools/encoders.hpp:56-82 | rebuilding a map keeps the number of entries exactly when no two keys encode alike |
| Encoders.EncodesEveryPlace | include/general/tools/encoders.hpp:16-121 | at every place of a value, at any depth, a text becomes the function's value at it, and numbers, lengths and kinds stay, if no two keys of a map encode alike |
| Encoders.TextsOfEncoding | include/general/tools/encoders.hpp:16-121 | the strings of the result, keys included, are exactly the images of the strings of the value |
| Encoders.ExInfo.ToEncoding | include/general/protocol/entities/client_containers.hpp:18-20 | the data becomes its encoding, at every place |
| Encoders.ExInfo.ToString | include/general/protocol/entities/client_containers.hpp:22-34 | for any data the text is the decoded print of an encoding of it and the data becomes the decoding of that; it is as before if decoding undoes encoding on its strings |
| Messages.CollectReply | include/server/src/handlers/chat_messages_list_handler.cpp:49-57 | the descending loop numbers the rows from the last to the first |
| Messages.NewestFirstIsReversed | include/server/src/db_queries_generator.cpp:640-641 | with strictly increasing times the newest-first order is the log reversed |
| Messages.JoinLosesNothing | include/server/src/db_queries_generator.cpp:628-630 | while keys are in order the join with the senders loses no message |
| Messages.AnyReply | include/server/src/handlers/chat_messages_list_handler.cpp:66-78 | a free selection replies, oldest first, with the window of some order of the log by time, which is the log itself when times increase |
| Polling.AnswerToNew | include/server/src/handlers/chat_messages_list_handler.cpp:80-86 | a request for new messages replies with exactly the selected ones, oldest first, whatever order the database gives to equal times |
| Messages.NewerIsSuffix | include/server/src/db_queries_generator.cpp:632-638 | what is newer than a message of a log is the log after it exactly when the next one is strictly newer |
| Messages.ReachableMessages | include/server/src/db_queries_generator.cpp:88-98 | in every reachable state message ids are unique, keys are in order, and the query finds the whole log of a chat |
| Messages.ReachableTimes | include/server/src/db_queries_generator.cpp:590-597 | the times of one chat never descend, or increase, if they do so at every post to this chat |
| Messages.LogGrows | include/server/src/handlers/chat_post_handler.cpp:49-82 | while a chat lives its log only grows at the end |
| Polling.PollIsSuffix | include/server/src/db_queries_generator.cpp:613-645 | one poll yields the messages after its anchor exactly when they are the newer ones, whatever the clock does |
| Polling.PollIsTheLog | include/server/src/db_queries_generator.cpp:613-645 | with increasing times in the chat one poll yields the very log after its anchor |
| Polling.MissedForGood | include/server/src/db_queries_generator.cpp:632-638 | a message not newer than the anchor is never sent by any later poll |
| Polling.PollsGatherExactlyTheNewer | include/server/src/handlers/chat_messages_list_handler.cpp:27-86 | repeated polls, each from the last message received, gather exactly what is behind the first anchor if and only if that is as new as all before it and each poll finds only messages newer than those that were there |
| Polling.PollsGatherExactlyWithoutTies | include/server/src/handlers/chat_messages_list_handler.cpp:27-86 | in logs in order that means: no poll finds a message of the same time next to those received |
| Polling.PollsGatherTheLog | include/server/src/handlers/chat_messages_list_handler.cpp:27-86 | all three over every run of the server, without an assumption on the clock, with one that does not go back over the posts to the chat, and with one that advances, when the very log is gathered |
| CommandText.CommandBuilder.constructor | include/general/src/command_builder.cpp:5-16 | name, options and parameters are kept wrapped, in order |
| CommandText.CommandBuilder.Build | include/general/src/command_builder.cpp:48-61 | the words joined by spaces, options with a dash |
| CommandText.Print | include/general/src/command_builder.cpp:5-69 | the text of a command |
| CommandText.SplitQuery | docs/menu.md:6-14 | the loop splits at white space outside brackets, as the grammar function says (body: protocol_interpreter.cpp:18-60) |
| CommandText.Interpret | include/general/protocol/protocol_interpreter.hpp:14 | the command a text is read as, or none for a text without words (body: protocol_interpreter.cpp:5-16) |
| CommandText.ExtractOptions | include/general/protocol/protocol_interpreter.hpp:20 | exactly the leading words with a dash become options, freed of brackets (body: protocol_interpreter.cpp:71-97) |
| CommandText.ExtractParameters | include/general/protocol/protocol_interpreter.hpp:19 | the remaining words become parameters, freed of brackets (body: protocol_interpreter.cpp:99-106) |
| CommandRoundTrip.FreeUndoesWrap | include/general/protocol/protocol_interpreter.hpp:22 | a printed token is freed to itself exactly when it has no line break if it has white space, and encloses nothing if it has none (body: protocol_interpreter.cpp:108-118) |
| CommandRoundTrip.SplitJoined | docs/menu.md:6-14 | joined words split into themselves exactly when none is empty, none has white space outside brackets, and all but the last have balanced ones (body: protocol_interpreter.cpp:18-60) |
| CommandRoundTrip.ReadAsPrinted | docs/menu.md:6-14 | words read that could each be freed to the token in their place are the printed words |
| CommandRoundTrip.InterpretUndoesPrint | include/general/src/command_builder.cpp:5-69 | for every command: reading it printed gives it back exactly when name and parameters are not empty, each token is freed to itself and unbroken, all but the last are balanced, and the first parameter does not look like an option |
| CommandRoundTrip.PrintableIsDecodable | include/general/src/command_builder.cpp:5-69 | a command comes back exactly when its words can be told apart and each token is freed to itself |
| CommandRoundTrip.PrintableWithoutBrackets | include/general/src/command_builder.cpp:5-69 | without brackets in the tokens that means: no empty name or parameter, no line break, no first parameter like an option |
| CommandRoundTrip.PrintIsInjective | include/general/src/command_builder.cpp:48-69 | commands with no empty name or parameter, no token broken by white space, balanced brackets in all tokens but the last, and no first parameter like an option, are printed alike only if they are the same |
| CommandRoundTrip.BuildIsUniquelyDecodable | include/general/src/command_builder.cpp:48-69 | in particular two commands without brackets, with no empty name or parameter and no first parameter like an option, are printed alike exactly if they are the same, line breaks or not |
| CommandRoundTrip.Notation | docs/menu.md:6-14 | the text of a command with an option and a parameter with white space, as documented |

## Left out

- Search.UpdateSearchingCache: lists of 2^31 candidates and more, whose numbering would overflow a 32-bit counter, are outside its precondition.
- Search.RankedIsTheRanking: relevances are exact rationals; the doubles of the source decide the same comparisons for words of realistic length, which is not proved.
- Encoders.DecodeUndoesEncode: one direction only; two strings that decode to each other can hide a failed round trip when their entries are equal.
- Polling.PollsGatherTheLog: for chats of fewer than 2^64 messages, the largest limit the query can have.
- Messages.CollectReply: replies of more than 2^31 rows, whose number the loop's 32-bit counter cannot hold, are not modelled.
- The containers are step systems on values rather than classes, because what is proved is about interleavings of their moves.
- Regular expressions are predicates on characters, with the dot excluding `\n` and `\r` and `^` meaning the start of the text; collation, multi-byte characters and the code page conversion are not modelled.
- Connection failures inside handlers other than the search, the files of file messages, and logging.
- Login, logout and the session table: a command's caller is a registered user.
- `profile_get` and its filter, `help`, `chats_list`, `chat_party_list`, `contacts_list` and `invites_list`: queries printed as they are read, with no state of their own.
- JSON text is an arbitrary printing function.
