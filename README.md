# Live classroom poll: a Dafny model of the session core

A teacher and a group of students connect to one server over sockets. The teacher
starts timed multiple-choice polls. Each student votes once per poll and watches
live results. Students who join late see the running poll with its remaining time.
Ended polls make up a history, and a chat runs alongside the polls.

This project models the server's session logic:

- the connection registry and the socket event handlers;
- the poll, vote and chat services;
- the four record schemas.

It also models the client-side helpers the screens rely on:

- the countdown hook;
- the poll-list state hook;
- the merge of results into the option list;
- the teacher's poll form.

Modelling choices:

- **Collections.** Each Mongo collection is a sequence field of a class: `PollStore.polls`, `VoteLedger.votes`, `ChatLog.messages` and `UserStore.users`. Insertion order stands for the natural order.
- **Poll ids.** A poll's id is its position in the store.
- **Connections.** The `connectedUsers` map is a sequence of connections in insertion order, keyed by socket id.
- **Outbound messages.** What the handlers emit is appended to an outbound log. Each entry records its target, either one socket or everyone, and its event.
- **Clock.** "Now" is an integer number of milliseconds passed to each operation.
- **Auto-end timer.** The timer that ends a poll is an explicit `Expire` action.

The code does not keep "at most one active poll":

- `startPoll` never deactivates the running poll.
- The admission rule admits a new poll once the active poll has as many votes as there are connected students, even while that poll is still running.

The model follows the code here. `PollService.AdmissionLeavesTwoActive` proves that an admitted poll leaves two polls active. `SocketHandler.TwoActivePollsScenario` drives the handler through exactly that: the teacher connects, a student connects, a poll starts, the student votes and a second poll starts.

Layout, one module per source unit:

| file | module | source |
|---|---|---|
| `models.dfy` | `Models` | the Poll, Vote, User and ChatMessage schemas |
| `vote_service.dfy` | `VoteService` | `VoteService.ts` and the unique ballot index |
| `poll_service.dfy` | `PollService` | `PollService.ts` |
| `chat_service.dfy` | `ChatService` | `ChatService.ts` |
| `registry.dfy` | `ConnectionRegistry` | the `connectedUsers` map and the roster broadcast |
| `users.dfy` | `Users` | the user collection as the handlers query and update it |
| `socket_handler.dfy` | `SocketHandler` | the event handlers and `sendCurrentState` |
| `poll_timer.dfy` | `PollTimer` | `usePollTimer` |
| `poll_state.dfy` | `PollStateHook` | `usePollState` |
| `poll_results_view.dfy` | `PollResultsView` | the result merge of `PollResults.tsx` |
| `teacher_dashboard.dfy` | `TeacherDashboard` | the poll form of `TeacherDashboard.tsx` |
| `wrappers.dfy`, `seqs.dfy`, `text.dfy`, `time.dfy` | helpers | Option/Result, filtering, sorting and top-k, JavaScript `trim`, decimal rendering, the shared countdown formula |

## Model

| member | source | states |
|---|---|---|
| Models.ToPollOption | backend/src/models/Poll.ts:26-30 | An option keeps its id and text. `isCorrect` is true only when it was given as true; the default is false. |
| Models.NewPoll | backend/src/models/Poll.ts:24-37 | A new poll document has the given question, duration, number and creation time. It is inactive and has no start or end time. Its options are the given ones, in order, with defaults applied. |
| Models.NewUser | backend/src/models/User.ts:12-19 | A new user record carries the socket id, connects at "now" and is not kicked. |
| Models.WideCharactersCountTwice | backend/src/models/ChatMessage.ts:14 | A message of more than 250 characters that all lie above U+FFFF is rejected, because each counts as two UTF-16 units against the 500 limit. |
| Models.NewChatMessage | backend/src/models/ChatMessage.ts:11-17 | A new chat message carries its sender and text, is stamped "now" and belongs to no session. |
| VoteService.FindVote | backend/src/services/VoteService.ts:12-15 | Returns the first vote matching both the poll and the session. It returns none exactly when no vote matches both. |
| VoteService.HasVoted | backend/src/services/VoteService.ts:33-39 | True if and only if some vote matches both the poll id and the session id. |
| VoteService.VoteCount | backend/src/services/VoteService.ts:41-45 | `countDocuments({pollId})`: at most the number of votes, and 0 exactly when no vote names the poll. `VoteService.VoteCountAfterAppend` states how each new vote moves it. |
| VoteService.Ballot | backend/src/services/VoteService.ts:21-27 | The vote document carries exactly the given poll, session, name and option, and is stamped "now". |
| VoteService.VoteCountAfterAppend | backend/src/services/VoteService.ts:41-45 | Appending a vote raises the count of its own poll by exactly one and leaves every other poll's count unchanged. |
| VoteService.UniqueAfterAppend | backend/src/models/Vote.ts:22 | Appending a ballot for a (poll, session) pair that has not voted keeps the unique index intact. |
| VoteService.AtMostOneBallot | backend/src/models/Vote.ts:22 | Under the unique index, at most one vote exists for each (poll, session) pair. |
| VoteService.VoteLedger.constructor | backend/src/models/Vote.ts:14-22 | An empty ledger satisfies the unique index. |
| VoteService.VoteLedger.SubmitVote | backend/src/services/VoteService.ts:5-31 | A duplicate fails with the "already voted" error and changes nothing. A vote with a missing required field fails validation and changes nothing. Otherwise exactly the new ballot is appended and returned. The unique index is kept in every case. |
| VoteService.VotedAfterSubmit | backend/src/services/VoteService.ts:5-39 | After a ballot is appended, `hasVoted` holds for its pair, so a second submission for that pair is refused. |
| PollService.FindPoll | backend/src/services/PollService.ts:54 | Returns the position of the first poll with the id. It returns none exactly when no poll has that id. |
| PollService.FindPollAt | backend/src/services/PollService.ts:54 | In a store whose ids are positions, looking up an id returns that position when it is in range, and none otherwise. |
| PollService.NextQuestionNumber | backend/src/services/PollService.ts:7-8 | The result is 1 for an empty store. Otherwise it is one more than the largest question number stored. |
| PollService.FirstActive | backend/src/services/PollService.ts:48-50 | Returns the first active poll's position. It returns none exactly when no poll is active. |
| PollService.GetActivePoll | backend/src/services/PollService.ts:48-50 | Returns a stored active poll. It returns none exactly when no poll is active. |
| PollService.Started | backend/src/services/PollService.ts:22-33 | The poll becomes active with `startedAt` set to "now". Every other field is unchanged. |
| PollService.Ended | backend/src/services/PollService.ts:35-46 | The poll becomes inactive with `endedAt` set to "now". Every other field is unchanged. |
| PollService.Draft | backend/src/services/PollService.ts:6-16 | The new poll takes the next id and the next question number. It is inactive and unstarted. Its duration defaults to 60 when none is given. |
| PollService.DraftValid | backend/src/services/PollService.ts:18 | Saving the draft succeeds if and only if the question is non-empty and every option has a non-empty id and text. |
| PollService.UpdateById | backend/src/services/PollService.ts:23-30 | `findByIdAndUpdate` changes only the poll with the id and keeps the length. An unknown id changes nothing. |
| PollService.UpdateKeepsInvariant | backend/src/services/PollService.ts:22-46 | Starting or ending a poll keeps ids equal to positions and keeps every poll valid. |
| PollService.RoundedPercent | backend/src/services/PollService.ts:62-64 | The result is 0 with no votes. Otherwise it is the whole percentage nearest to count/total, with halves rounded up, and it never exceeds 100 when count ≤ total. |
| PollService.Tally | backend/src/services/PollService.ts:58-65 | There is one row per option, in option order, with that option's id and text. Each count is the number of votes naming the option. Each percentage is its rounded share, between 0 and 100. |
| PollService.Voters | backend/src/services/PollService.ts:71 | There is one voter entry per vote, in order, with that vote's name and time. |
| PollService.GetPollResults | backend/src/services/PollService.ts:52-73 | The result is none exactly for an unknown poll. Otherwise it holds the stored poll, its tally over the votes on it and the count of those votes. The voter list has one entry, with name and time, for each vote on that poll, in vote order. |
| PollService.TallyCountsBound | backend/src/services/PollService.ts:58-72 | The counts add up to at most the number of votes. They add up to exactly that number when every vote names an existing option. |
| PollService.PercentagesNear100 | backend/src/services/PollService.ts:62-64 | When every vote is counted, the rounded percentages add up to within half a point per option of 100. |
| PollService.HistoryPolls | backend/src/services/PollService.ts:76-78 | Only polls that are inactive and have an end time are listed. They are newest `createdAt` first, and there are min(50, number of ended polls) of them. No ended poll that is left out is newer than one that is listed, and no poll is listed more often than it is stored. |
| PollService.ResultsOf | backend/src/services/PollService.ts:80-87 | Looks up results for each listed poll and drops the ones that are not found, so it never has more entries than polls. When every listed poll is found, entry i is that poll's results. |
| PollService.HistoryResults | backend/src/services/PollService.ts:80-87 | For stored polls no result is dropped. Entry i is exactly `GetPollResults` of poll i, so it has that poll's tally, vote count and voter list, in the same order. |
| PollService.ResultsOfStoredPoll | backend/src/services/PollService.ts:52-73 | A stored poll always has results, and they carry that very poll. |
| PollService.PollHistory | backend/src/services/PollService.ts:75-88 | There is one result per history poll, in history order. Entry i is exactly `GetPollResults` of history poll i: its tally, vote count and voter list. |
| PollService.CanCreateNewPoll | backend/src/services/PollService.ts:90-109 | Admits a new poll if and only if no poll is active, or the active poll has at least as many votes as there are connected students. A refusal always carries the "Not all students have answered" reason. |
| PollService.AdmissionLeavesTwoActive | backend/src/services/PollService.ts:101-103 | When admission is given while a poll is active, creating and starting the new poll leaves both the old and the new poll active. |
| PollService.UpdateAppended | backend/src/services/PollService.ts:22-33 | Starting the poll that was just appended changes only that poll. |
| PollService.PollStore.constructor | backend/src/models/Poll.ts:24-37 | An empty store satisfies the store invariant. |
| PollService.PollStore.CreatePoll | backend/src/services/PollService.ts:6-20 | Saving succeeds if and only if the draft is valid. On success exactly the draft is appended and returned. On failure the store is unchanged. |
| PollService.PollStore.StartPoll | backend/src/services/PollService.ts:22-33 | Only the poll with the id is started. It returns none exactly for an unknown id, and otherwise the updated poll. |
| PollService.PollStore.EndPoll | backend/src/services/PollService.ts:35-46 | Only the poll with the id is ended. It returns none exactly for an unknown id, and otherwise the updated poll. |
| ChatService.Newest | backend/src/services/ChatService.ts:19-21 | Returns min(limit, n) stored messages (all of them for limit 0), newest first. None of the messages left out is newer than one that is kept, and no message is returned more often than it is stored. |
| ChatService.RecentMessages | backend/src/services/ChatService.ts:18-24 | The same messages as `Newest`, oldest first, none more often than it is stored. The limit defaults to 50. |
| ChatService.KeepSince | backend/src/services/ChatService.ts:31-33 | Keeps exactly the messages stamped at or after the cutoff, each as many times as it is stored, in stored order. |
| ChatService.Cutoff | backend/src/services/ChatService.ts:28-29 | The cutoff lies at or before now for a non-negative age, and strictly before it for a positive one. `ChatService.ChatLog.ClearOldMessages` states what the purge keeps relative to it. |
| ChatService.ChatLog.constructor | backend/src/models/ChatMessage.ts:11-17 | An empty log holds only valid messages. |
| ChatService.ChatLog.SaveMessage | backend/src/services/ChatService.ts:5-15 | Stores the trimmed text with the sender and "now". Saving succeeds if and only if the message passes the schema, whose length bound counts UTF-16 code units. On success exactly one message is appended. |
| ChatService.ChatLog.ClearOldMessages | backend/src/services/ChatService.ts:27-34 | Removes exactly the messages older than the given number of days (default 7) and keeps the rest. |
| ChatService.PurgeKeepsRecent | backend/src/services/ChatService.ts:27-34 | Purging a log whose messages are all newer than the cutoff changes nothing. |
| Text.Trim | backend/src/services/ChatService.ts:9 | The result is a contiguous slice of the input. Everything before and after the slice is whitespace, and the slice neither starts nor ends with whitespace. It is empty exactly when the input is all whitespace. |
| Text.Utf16Length | backend/src/models/ChatMessage.ts:14 | JavaScript's `length`: at least the number of characters and at most twice that. It equals the character count when every character is in the Basic Multilingual Plane, and is twice the count when every character is above U+FFFF. |
| ConnectionRegistry.IndexOf | backend/src/handlers/SocketHandler.ts:14 | Returns the position of the entry for a socket. It returns none exactly when the socket has no entry. |
| ConnectionRegistry.Get | backend/src/handlers/SocketHandler.ts:79 | `connectedUsers.get`: the stored entry for the socket, or none exactly when there is none. |
| ConnectionRegistry.Set | backend/src/handlers/SocketHandler.ts:27 | `set` on a new socket appends. On an existing socket it replaces the entry at that socket's position, and every other entry keeps its value and place. |
| ConnectionRegistry.Delete | backend/src/handlers/SocketHandler.ts:220 | Removes exactly the entries for that socket. Every other entry stays as many times as before, in the same order. |
| ConnectionRegistry.SetGet | backend/src/handlers/SocketHandler.ts:27 | After `set`, reading the socket gives the new entry and every other socket reads as before. Keys stay unique. |
| ConnectionRegistry.DeleteGet | backend/src/handlers/SocketHandler.ts:220 | After `delete` the socket has no entry and every other socket reads as before. Keys stay unique. |
| ConnectionRegistry.SetThenDelete | backend/src/handlers/SocketHandler.ts:219-220 | Adding a new socket and then disconnecting it restores the registry. |
| ConnectionRegistry.FindBySession | backend/src/handlers/SocketHandler.ts:156-157 | Returns the first entry with the session. It returns none exactly when no entry has it. |
| ConnectionRegistry.Students | backend/src/handlers/SocketHandler.ts:286-287 | Keeps exactly the student entries, each as many times as it is in the registry, in registry order. |
| ConnectionRegistry.Roster | backend/src/handlers/SocketHandler.ts:285-288 | There is one `{name, sessionId}` per student entry, in registry order. |
| ConnectionRegistry.RosterMembers | backend/src/handlers/SocketHandler.ts:285-288 | A pair is in the roster if and only if some student entry has that name and session. |
| Users.UserIndex | backend/src/handlers/SocketHandler.ts:30 | Returns the position of the session's user record. It returns none exactly when there is none. |
| Users.FindUser | backend/src/handlers/SocketHandler.ts:30 | `User.findOne({sessionId})`: the session's record, or none exactly when there is none. |
| Users.Upserted | backend/src/handlers/SocketHandler.ts:37-41 | The records keep their place and session. Only the session's own record can change, and one record is appended exactly when the session has none. `Users.UpsertEffect` states the resulting record. |
| Users.Flagged | backend/src/handlers/SocketHandler.ts:151-154 | Keeps the size; each record is unchanged or is the session's record with only its kicked flag set. `Users.MarkKickedEffect` states the lookup laws and idempotence. |
| Users.UpsertEffect | backend/src/handlers/SocketHandler.ts:37-41 | The upsert gives the session's record the new socket, name, role and time and keeps its kicked flag. It creates the record if missing, leaves other sessions alone and keeps sessions unique. |
| Users.MarkKickedEffect | backend/src/handlers/SocketHandler.ts:151-154 | Flags only the session's record and changes nothing for an unknown session. It leaves other sessions alone and is idempotent. |
| Users.UserStore.constructor | backend/src/models/User.ts:13 | An empty store has unique sessions. |
| Users.UserStore.Upsert | backend/src/handlers/SocketHandler.ts:37-41 | The store becomes the upserted records, and sessions stay unique. |
| Users.UserStore.MarkKicked | backend/src/handlers/SocketHandler.ts:151-154 | The store becomes the flagged records, and sessions stay unique. |
| SocketHandler.View | backend/src/handlers/SocketHandler.ts:203-208 | The broadcast chat view carries the stored name, text, time and role. |
| SocketHandler.Views | backend/src/handlers/SocketHandler.ts:50-55 | There is one view per message, in order. |
| SocketHandler.VoteBy | backend/src/handlers/SocketHandler.ts:127-132 | The ballot takes the session and name from the registry entry, never from the client. |
| SocketHandler.MessageBy | backend/src/handlers/SocketHandler.ts:196-200 | The chat message takes the sender's name and role from the registry entry and trims the text. |
| SocketHandler.CurrentState | backend/src/handlers/SocketHandler.ts:227-283 | The poll is withheld exactly when none is active, or its deadline has passed. Otherwise the state carries the active poll, whether this session voted, and its results. The remaining seconds are at least 1 and round up the time left; they are 0 when the poll has no start time. |
| SocketHandler.SessionHandler.constructor | backend/src/handlers/SocketHandler.ts:11-14 | The handler starts with empty stores, an empty registry and an empty log. |
| SocketHandler.SessionHandler.Register | backend/src/handlers/SocketHandler.ts:21-70 | The registry entry is written first, even for a kicked session. A kicked session gets only `user:kicked`. Any other session has its user upserted and gets the current state, then the last 20 chat messages. A student's arrival then sends the roster to everyone, and finally `user:registered` goes out. |
| SocketHandler.SessionHandler.CreatePoll | backend/src/handlers/SocketHandler.ts:73-116 | A caller who is not a teacher gets `Unauthorized`. A refused admission sends the reason to the caller only. An invalid draft gets "Failed to create poll". In those cases no poll is added. Otherwise the poll is appended already started, `poll:created` and the roster are broadcast, and the poll's expiry is scheduled. |
| SocketHandler.SessionHandler.Expire | backend/src/handlers/SocketHandler.ts:107-111 | The poll is ended, and `poll:ended` with the updated poll and its results goes to everyone. |
| SocketHandler.SessionHandler.Vote | backend/src/handlers/SocketHandler.ts:119-143 | A caller who is not a student gets `Unauthorized`. A duplicate gets the "already voted" error, and an invalid ballot gets the validation error; in those cases no vote is added. Otherwise the registry's ballot is recorded, the caller gets `vote:submitted` and everyone gets the new results. |
| SocketHandler.SessionHandler.Kick | backend/src/handlers/SocketHandler.ts:146-168 | A caller who is not a teacher changes nothing and emits nothing. Otherwise the session is flagged as kicked. Its first connection, if any, gets `user:kicked` and is removed; all other entries stay. The roster goes to everyone. |
| SocketHandler.SessionHandler.Evict | backend/src/handlers/SocketHandler.ts:156-164 | The session's first connection, if any, gets `user:kicked` and is deleted from the registry, and then the roster goes to everyone. With no connection the registry is unchanged. |
| SocketHandler.SessionHandler.GetCurrentState | backend/src/handlers/SocketHandler.ts:171-177 | A registered caller gets its current state, and an unregistered one gets nothing. |
| SocketHandler.SessionHandler.GetPollHistory | backend/src/handlers/SocketHandler.ts:180-187 | The caller gets the poll history. |
| SocketHandler.SessionHandler.ChatSend | backend/src/handlers/SocketHandler.ts:190-216 | An unregistered caller changes nothing. A valid message is stored and broadcast. An invalid one (empty after trimming, longer than 500 UTF-16 code units, or from a sender with an empty name) gets "Failed to send message" and nothing is stored. |
| SocketHandler.SessionHandler.Disconnect | backend/src/handlers/SocketHandler.ts:219-223 | Removes exactly the socket's entry and sends the roster to everyone. |
| SocketHandler.ConnectClassroom | backend/src/handlers/SocketHandler.ts:21-70 | A teacher and then a student registering leaves exactly their two entries in the registry and no polls or votes. |
| SocketHandler.Join | backend/src/handlers/SocketHandler.ts:27-41 | Registering a new socket of a session that is not kicked appends its entry and upserts its user. |
| SocketHandler.ClassroomRegistry | backend/src/handlers/SocketHandler.ts:85 | In that registry the teacher passes the role check, the student's entry is found, and one student is counted. |
| SocketHandler.SecondPollAdmitted | backend/src/services/PollService.ts:97-103 | With one student who has voted on the active poll, a new poll is admitted. |
| SocketHandler.StartFirstPoll | backend/src/handlers/SocketHandler.ts:93-94 | The teacher's first poll is stored started, with the default duration. |
| SocketHandler.StudentAnswers | backend/src/handlers/SocketHandler.ts:127-132 | The student's vote is the only ballot, taken from the registry entry. |
| SocketHandler.StartSecondPoll | backend/src/handlers/SocketHandler.ts:85-94 | The second request is admitted and appends a started second poll. The first poll is left as it was. |
| SocketHandler.TwoActivePollsScenario | backend/src/handlers/SocketHandler.ts:73-116 | After the scenario the handler's poll store holds exactly two polls, with ids 0 and 1; both are active at once and neither has ended. |
| Time.RemainingSeconds | frontend/src/hooks/usePollTimer.ts:12-18 | Never negative. Positive exactly before the deadline `startedAt + 1000·duration`. When positive it is the number of seconds left, rounded up. |
| Time.RemainingAtStart | frontend/src/hooks/usePollTimer.ts:15-16 | At the start instant the whole duration remains. |
| Time.RemainingMonotone | frontend/src/hooks/usePollTimer.ts:15-16 | The remaining time never increases as the clock advances. |
| PollTimer.CalculateTimeRemaining | frontend/src/hooks/usePollTimer.ts:7-18 | The result is 0 without a start time. Otherwise it is the countdown formula, positive exactly before the deadline. |
| PollTimer.Countdown.constructor | frontend/src/hooks/usePollTimer.ts:4 | Starts at 0 with no interval running. |
| PollTimer.Countdown.Start | frontend/src/hooks/usePollTimer.ts:6-27 | Shows the initial calculation. The interval runs if and only if there is a start time and its deadline is still ahead. |
| PollTimer.Countdown.Tick | frontend/src/hooks/usePollTimer.ts:30-37 | Recalculates from whatever `Date.now()` reads, so the clock may step back. When it has not stepped back, the value does not go up. The interval stops exactly when the deadline has been reached. |
| PollStateHook.MergeLaws | frontend/src/hooks/usePollState.ts:15-23 | `{...poll, ...updates}`: for each of the nine poll fields, the field takes the update's value when the update carries it and keeps the poll's value otherwise. An empty update changes nothing, and applying the same update twice equals applying it once. |
| PollStateHook.Merge | frontend/src/hooks/usePollState.ts:17 | An empty update gives back the poll. `PollStateHook.MergeLaws` states, field by field, that the update wins where it carries a value, and that merging is idempotent. |
| PollStateHook.UpdateAll | frontend/src/hooks/usePollState.ts:16-18 | Keeps the length. Polls with the id take the merged value, and the others are unchanged. |
| PollStateHook.UpdateAllLaws | frontend/src/hooks/usePollState.ts:16-18 | An empty update leaves the list as it was. Repeating an update that keeps the id changes nothing more. |
| PollStateHook.PollListState.constructor | frontend/src/hooks/usePollState.ts:5-7 | No current poll, no polls, not voted. |
| PollStateHook.PollListState.AddPoll | frontend/src/hooks/usePollState.ts:9-13 | The poll goes in front and becomes current, and the vote flag is cleared. |
| PollStateHook.PollListState.UpdatePoll | frontend/src/hooks/usePollState.ts:15-23 | Merges into every poll with the id. It changes the current poll only when that poll has the id, and keeps the vote flag. |
| PollStateHook.PollListState.SetUserVoted | frontend/src/hooks/usePollState.ts:25-27 | Sets the vote flag and changes nothing else. |
| PollStateHook.PollListState.ResetVoteStatus | frontend/src/hooks/usePollState.ts:29-31 | Clears the vote flag and changes nothing else. |
| PollStateHook.PollListState.SetCurrentPoll | frontend/src/hooks/usePollState.ts:35 | Replaces only the current poll. |
| PollResultsView.FindResult | frontend/src/components/PollResults.tsx:12 | Returns the first result with the option id. It returns none exactly when no result has it. |
| PollResultsView.RowFor | frontend/src/components/PollResults.tsx:13-18 | The row keeps the option's id and text. It takes count and percentage from the first matching result, or 0 and 0 when there is none. |
| PollResultsView.MergeResults | frontend/src/components/PollResults.tsx:11-19 | There is exactly one row per option, in option order. |
| PollResultsView.TotalVotes | frontend/src/components/PollResults.tsx:21 | With no server rows the total is 0. `PollResultsView.MergeOwnTally` bounds it by the number of votes for the server's own tally. |
| PollResultsView.StrayRowDropped | frontend/src/components/PollResults.tsx:11-12 | A result naming no option, wherever it sits in the list, does not change the merge. |
| PollResultsView.MergeOwnTally | frontend/src/components/PollResults.tsx:11-21 | Merging the server's own tally, with distinct option ids, gives that tally back. Its total is at most the number of votes. |
| PollResultsView.MergeNoResults | frontend/src/components/PollResults.tsx:11-21 | With no results every row is zero, and the total is 0. |
| TeacherDashboard.FilledOptions | frontend/src/components/TeacherDashboard.tsx:115 | Keeps exactly the rows with non-blank text, each as many times as it occurs, in form order. |
| TeacherDashboard.OptionId | frontend/src/components/TeacherDashboard.tsx:128 | The id is `option_` followed by a non-empty run of decimal digits whose value is the position. |
| TeacherDashboard.OptionIdInjective | frontend/src/components/TeacherDashboard.tsx:127-131 | Different positions give different ids. |
| TeacherDashboard.BuildOptions | frontend/src/components/TeacherDashboard.tsx:127-131 | There is one option per filled row, in order, with the positional id, trimmed text and the row's flag. |
| TeacherDashboard.HandleCreatePoll | frontend/src/components/TeacherDashboard.tsx:114-140 | A blank question is refused first, then fewer than two filled options. It succeeds exactly otherwise, sending the trimmed question, the built options and the duration. |
| TeacherDashboard.BuiltOptionsWellFormed | frontend/src/components/TeacherDashboard.tsx:127-131 | Built options have non-blank, already trimmed texts and pairwise distinct, non-empty ids. |
| TeacherDashboard.RequestWellFormed | frontend/src/components/TeacherDashboard.tsx:114-140 | A sent request has at least two options, a non-blank trimmed question, trimmed non-blank option texts and distinct ids. |
| TeacherDashboard.RequestAccepted | frontend/src/components/TeacherDashboard.tsx:135-139 | The server's schema accepts the poll drafted from a sent request, and its option ids are distinct. |
| TeacherDashboard.InitialResults | frontend/src/components/TeacherDashboard.tsx:35-40 | There is one zero row per option, in order, with the option's id and text. |
| TeacherDashboard.InitialResultsMatchServer | frontend/src/components/TeacherDashboard.tsx:35-40 | The initial rows equal the server's tally of a poll without votes. |
| TeacherDashboard.PollForm.constructor | frontend/src/components/TeacherDashboard.tsx:16-19 | The form starts with two blank rows. |
| TeacherDashboard.PollForm.AddOption | frontend/src/components/TeacherDashboard.tsx:142-146 | Appends one blank row while there are fewer than six, and otherwise changes nothing. There are always 2 to 6 rows. |
| TeacherDashboard.PollForm.SetCorrect | frontend/src/components/TeacherDashboard.tsx:162-166 | Changes only the flag of the given row. |

## Left out

- Transport: socket.io wiring, rooms and acknowledgements. Emitted events are entries of an outbound log, and the log's order is the emission order.
- Persistence: Mongo queries, asynchronous `await` and per-document atomicity. The collections are in-memory sequences, and the unique indexes are stated as class invariants.
- The auto-end timer: the `setTimeout` delay of `duration * 1000` ms is not modelled. `CreatePoll` returns the id whose expiry is due, and `Expire` is the timer's body, run whenever the caller chooses.
- Concurrency: interleaved handlers and the race between the duplicate-vote check and `save`. The model is sequential.
- `Math.round` on floats: the percentage is the exact integer nearest to 100·count/total, with halves rounded up. This can differ from the float result only where the float quotient is inexact.
- Calendar time: `setDate(getDate() - d)` is modelled as d × 86,400,000 ms, so daylight-saving shifts are not modelled.
- Poll ids are integers. A malformed ObjectId, and the CastError message it would produce in `student:vote`, are not modelled.
- Roles are the schema's two values. A registry entry with any other role string, which the in-memory map would accept, is not modelled.
- The exception paths that only fire when the database throws are not modelled: "Registration failed", "Failed to kick student", "Failed to fetch history" and a failed chat-history read.
- Mongoose's own validation error text is not modelled. A ballot missing a required field fails with the fixed message "Vote validation failed".
- Vote `pollId` references are not enforced, as in the schema: a vote may name a poll that does not exist, and its results are then none.
- Mongo's natural order is taken as insertion order. Sort ties are broken by a stable sort, and the sort properties are stated up to ties.
- `sendCurrentState`'s check that the active poll is active cannot fail once `getActivePoll` has filtered on `isActive`, so it has no separate branch.
- In `handleCorrectAnswerChange` the row object is mutated in place and shared with the previous array. The model updates by value, so the aliasing is not captured.
- `updatePoll` reads `currentPoll` from its closure. The model reads the current value, so a stale closure is not modelled.
- The rendering, the reset of the form after `poll:created`, and `handleNewQuestion` are not modelled.
- PollService.TallyCountsBound: the sum-of-counts bound is proved only for polls whose option ids are distinct. The server does not enforce distinct ids, and with a repeated id a vote is counted once per matching option.
- PollService.ResultsOf: when some listed poll is not found, its contract states only that no entry is added. The history only ever lists stored polls, and for those `PollService.HistoryResults` states every entry.
- SocketHandler.CurrentState: the results in the state are stated as `GetPollResults` of the active poll. Their own properties are proved about that function.
