# Verification of the trivia server's session core

These Dafny modules model the core of the trivia game backend: the protocol of the sessions, the life of a
game from its first question to the statistics in the database, the arithmetic behind times, averages and
scores, and the framing of requests on the wire. What is proved is listed under "Model"; what the model
does not say is listed under "Left out".

`dafny verify dfyconfig.toml` checks the whole project.

## How the model is built

Two layers describe the same server.

* *Values and functions.* `Sessions` describes the shared state (logged users, rooms, games, tables) as one
  value and each handled request as a function on it; `Games`, `Scores`, `Statistics`, `TimeWindows` hold
  the functions it uses. All invariants, runs and closed forms are proved about this layer:
  `SessionInvariant` says what every reachable state satisfies, `SessionSteps`, `RoomSteps` and
  `LeaveSteps` how the handlers keep it, `ServerSafety` which steps keep it exactly, and `ServerRuns`,
  `GameRuns`, `VerificationRuns` and `Connections` what follows for whole runs. `GameProjections` shows that
  every game of the server is a run of `GameRuns`, and `ServerGames` what that says about the server.
  `Requests` writes out the whole state each request leaves, `GameRecords` says that a game's records are
  exactly what the events of its run say, and `ServerRecords` says so of the server.
* *Objects.* `Databases`, `Rooms`, `GameManagers`, `LoginManagers`, `Handlers` and `Framing.Socket` are
  classes with the fields of the original's classes and methods that update them in place, branch by
  branch. Each method's contract equates the objects' new abstract value with the function of the first
  layer, so that every result about the functions is one about the methods.

A handled request is one atomic step of the server, except that an accepted answer sleeps: accepting it and
recording it are two steps, with any steps of other clients in between. Every clock reading is a separate
value; the readings of one request only have to be in order, so the game may finish between any two of
them: `removePlayerFromGame` takes three, `submitAnswer` and `getQuestion` two.

The history that the properties speak of is kept beside the state: `base` and `ledger` (a user's row when
it was first seen, and the outcomes written to it since) and `pending` (accounts that were not verified
yet).

## What the surroundings contribute

The following are parameters of a step or of a contract, with no assumption beyond the one named: the clock
(moves forward), the database's success in storing, updating and deleting, the questions fetched for a game
(four answers each and a valid index, which `Questions.FromDatabase` establishes), the order a shuffle
leaves, the verdict of the credential checks, the emailed code and whether the email went out, a new room's
id (free among the open rooms, as `generateRoomUUID` checks), whether a reply could be sent, how much of a
request has arrived when it is read, and what the socket library makes of a read of zero bytes.

## What turned out not to hold

The repository's README.md (lines 59-61) knows of no bugs. The model finds the following gaps, each with a
concrete witness in `Examples` or `ServerExamples` (the last one is exact as it stands) and with the exact
condition under which the code is right:

* Joining checks only space and membership (`managers/room.cpp` lines 4-15), so a user can join a room whose
  game is running; he is then in the room and not in the game.
* A new room's id is compared with the open rooms only (`managers/roomManager.cpp` lines 47-50); a member of
  a closed room still holds its old id.
* If the database does not take the result of a player who leaves a running game, the handler returns before
  it takes him out of the room (`requestHandlers/gameRequestHandler.cpp` lines 111-115). The record is marked
  as submitted all the same, so the result is never written.
* `submitAnswer` is guarded by one reading of the clock and judged by another; at the finish it can accept an
  answer to a question after the last one, and index past the records when it wakes.
* Whether an unverified account was deleted is not looked at (`managers/usersManager.cpp` line 70); one that
  was not keeps its name and email, and can log in without ever having been verified.
* The same happens without any rollback when the database has stored a new account and cannot be read for the
  login behind it (`managers/loginManager.cpp` lines 30-49): the handler only returns the error
  (`requestHandlers/loginRequestHandler.cpp` lines 76-77).
* A player whose thread wakes after the finish can change a record that was submitted in the meantime
  (`managers/gameManager.cpp` lines 50-52 promise only that it is not submitted twice, which holds).
* The last user of an active room who leaves it as a member leaves it open without a game
  (`requestHandlers/roomMemberRequestHandler.cpp` line 43). From then on every request for the list of rooms
  looks up a game that is not there (`requestHandlers/menuRequestHandler.cpp` line 79), and throws.
* `getQuestion` is guarded by one reading of the clock and indexes the questions with another
  (`requestHandlers/gameRequestHandler.cpp` lines 35-38); at the finish the index is past the last one, and
  what `operator[]` then does is undefined.
* The comment in `utils/socketHelper/socketHelper.cpp` lines 75-76 promises an EXIT for any error. When the
  length or the payload cannot be read, though, the log statement (lines 88 and 95) asks the request id for
  its error; the id was read, so `std::get` throws, and nothing on the client's thread catches it. A client
  that goes away inside a request, or whose request arrives in pieces, is therefore not disconnected cleanly:
  the process ends (`Framing.BrokenConnection`, `Framing.StreamRoundTripIff`).

Three concern arithmetic: a score divides by zero when the answer times add up to less than a second per
question (`Scores.ScoreIsDefinedIff`, `Examples.QuickAnswersHaveNoScore`); a stored running average of zero
makes the next game forget the answers behind it (`Statistics.AverageIsWeightedMeanIff`,
`Statistics.ZeroAverageIsForgotten`); and the products behind a running average wrap
(`Statistics.MachineMeanIsExactIff`, `Statistics.MachineMeanCanWrap`).

## Model

| member | source | states |
|---|---|---|
| ServerSafety.StepKeepsInvIff | trivia_backend/src/requestHandlers/gameRequestHandler.cpp:92-131 | In every state that satisfies the server's invariant: the lookups and indexes of a request, wake-up, connection or disconnection are all valid if and only if it can be answered (no list of rooms while an active room is deserted, no question asked across the finish of its game); and then the step leaves the invariant in place if and only if it is none of six things recognisable beforehand: a reused room id, a join into a running game, a player leaving a running game whose result the database does not take, an answer judged after the finish, an unverified account that the database does not delete, a database that cannot be read for the login of an account it has just stored |
| SessionInvariant.HeldReferencesAreValid | trivia_backend/src/requestHandlers/roomAdminRequestHandler.cpp:60-62 | The assumption in the code's comment, for the references every handler holds: an admin's room exists, a player's game is in the list with his record in it, a member touches his room only while it is registered, and a sleeper's question exists when he wakes |
| SessionInvariant.DefinedIff | trivia_backend/src/requestHandlers/menuRequestHandler.cpp:61-83 | With the lookups made only for a response as well, `getRooms` of every active room's game and `getQuestion` of the current question, everything a step looks up is there if and only if no active room is without users, or the game was finished at the first reading of the clock or unfinished at the second (or its slot number has come round 2^32) |
| SessionInvariant.InitialInv | trivia_backend/src/managers/gameManager.cpp:25-30 | The server before its first connection satisfies the invariant, whatever its database holds |
| SessionInvariant.OnlySeat | trivia_backend/src/requestHandlers/menuRequestHandler.cpp:137-166 | A user who is in a room's list has his session in that very room or its game |
| SessionInvariant.OneRoomEach | trivia_backend/src/managers/room.cpp:4-15 | Nobody is in two rooms |
| ServerRuns.ReachableStatesAreSafe | trivia_backend/src/utils/communicator/communicator.cpp:77-112 | Over every admissible run from the start: every held reference of the next step is valid, all its lookups and indexes are if and only if its request can be answered, each stored counter is (modulo 2^32) the starting row plus the sum of the outcomes written since (which are the games', by the rows of `ServerGames`), and nobody is in two rooms |
| ServerRuns.ReachableStatesAgree | trivia_backend/src/managers/loginManager.cpp:51-69 | Over every admissible run from the start: the logged-user list has no duplicates and holds exactly the users of the sessions beyond the login screen, one session each and all with accounts; the unverified accounts are exactly those of the verification sessions; a game is in the list exactly when its room exists, is active and has users, and then these are its online players |
| ServerRuns.OneExitPerConnection | trivia_backend/src/utils/communicator/communicator.cpp:84-111 | Over every admissible run, connections made plus those open at first equal EXITs handled plus those still open: one EXIT for each connection that ended, none for an open one |
| ServerRuns.DisconnectIsCleanIff | trivia_backend/src/utils/communicator/communicator.cpp:99-102 | After the EXIT of a client in any state, the connection and the login are gone, and the user is in no logged-user list, no room and no game's online list if and only if his own result could be written when he had to leave a running game |
| ServerRuns.DesertedIff | trivia_backend/src/requestHandlers/roomMemberRequestHandler.cpp:37-52 | While no active room is without users, a step leaves one so if and only if the last user of an active room leaves it as a member, by request or by disconnecting |
| ServerRuns.DesertedForever | trivia_backend/src/requestHandlers/menuRequestHandler.cpp:79 | Once deserted, a room stays so over every admissible run: the list of rooms can never be read again |
| ServerRuns.RemovalWritesTheNewlyMarked | trivia_backend/src/managers/gameManager.cpp:44-54 | A removal appends to a player's history exactly the outcome of the record the game keeps for him, if this removal marks it as submitted and the database takes it, and nothing otherwise; nobody else is written to |
| ServerRuns.OnlyRemovalsWrite | trivia_backend/src/managers/gameManager.cpp:33-65 | No step but a removal from a game (by request, from the room while it plays, or on disconnection) writes statistics, and such a step writes what the removal does |
| Connections.HandleClient | trivia_backend/src/utils/communicator/communicator.cpp:77-112 | The loop of one connection, with the steps of all others free to run while it waits, sleeps or fails to send: its steps are exactly those its rounds ask for, each request served in turn, with a wake-up where an answer was accepted, and all of them ones its connection is ready for; it is over exactly at a round in which an EXIT was read or a reply could not be sent, with exactly one EXIT handled and the user in no list afterwards; it comes to grief exactly at the first round whose request breaks off or cannot be answered, with no EXIT handled |
| Connections.OthersKeepSession | trivia_backend/src/utils/communicator/communicator.cpp:89-91 | Whatever other connections do, a connection's handler stays what it was |
| Requests.LogInServes | trivia_backend/src/requestHandlers/loginRequestHandler.cpp:33-63 | Giving a name and password logs in exactly if the database can be read, the account exists with that password, and no session has its user; the whole new state: one more logged user, and his menu; otherwise nothing changes |
| Requests.SignUpServes | trivia_backend/src/requestHandlers/loginRequestHandler.cpp:65-109 | The whole new state after a sign-up, in each case: a valid new user is stored with just the given password and email and an empty row, logged in, and verifies the emailed code; or nothing is left; or the account stays behind, logged out |
| Requests.SubmitCodeServes | trivia_backend/src/requestHandlers/verificationHandler.cpp:28-54 | The right code leads to the menu and ends the pending state; a wrong one is counted, and the fifth logs out and deletes the account with its rows if the database does it; nothing else changes |
| Requests.ResendCodeServes | trivia_backend/src/requestHandlers/verificationHandler.cpp:56-71 | A new code replaces the old one exactly when its email went out; the count of tries stays |
| Requests.LogOutServes | trivia_backend/src/requestHandlers/menuRequestHandler.cpp:51-59 | Logging out takes the user off the list, back to the login screen, and changes nothing else |
| Requests.CreateRoomServes | trivia_backend/src/requestHandlers/menuRequestHandler.cpp:168-202 | A room is opened exactly for a name of four characters, two players, two questions and five seconds at least, with just these details, inactive, its creator its admin and only user |
| Requests.JoinRoomServes | trivia_backend/src/requestHandlers/menuRequestHandler.cpp:137-166 | A user in the menu joins, as the last in its list, exactly a registered room with a place left: that he is in it already cannot be |
| Requests.RoomStateServes | trivia_backend/src/requestHandlers/roomMemberRequestHandler.cpp:63-98 | A member who polls is sent to the menu if his room is gone, into the game if it plays and its users can be read (he is then online in a game that is there), and stays otherwise |
| Requests.LeaveIdleRoomServes | trivia_backend/src/requestHandlers/roomMemberRequestHandler.cpp:24-61 | Leaving a room that does not play takes just this user out of it; leaving one that is gone touches nothing |
| Requests.LeavePlayingRoomServes | trivia_backend/src/requestHandlers/roomMemberRequestHandler.cpp:36-49 | Leaving a room that plays takes the user out of the game and the room whatever the database does; the room stays even when empty |
| Requests.LeaveGameServes | trivia_backend/src/requestHandlers/gameRequestHandler.cpp:92-124 | Leaving a game takes the user out of the game and its room, which both go with their last user, but leaves the room as it was exactly if the game is unfinished at the second reading and the database does not take his result |
| Requests.CloseRoomServes | trivia_backend/src/requestHandlers/roomAdminRequestHandler.cpp:32-43 | Closing a room takes exactly this room off the map |
| Requests.StartGameServes | trivia_backend/src/requestHandlers/roomAdminRequestHandler.cpp:45-58 | A game starts exactly with two users and as many questions as the room asks for; it has the room's users, all unpunished and unsubmitted with index 5 at the time limit under every question, and starts now; the room becomes active |
| Requests.SubmitAnswerServes | trivia_backend/src/requestHandlers/gameRequestHandler.cpp:51-65 | An answer changes only its player's handler; told by the clock, it sleeps on the submitted choice at the second of the slot, due at the end of the window, exactly if the guard finds the game unfinished and the judging reading lies in the window of the question |
| Requests.OtherRequestsChangeNothing | trivia_backend/src/requestHandlers/gameRequestHandler.cpp:12-49 | Any other request, of whichever handler, leaves the whole state as it is |
| Requests.DisconnectingIsLeaving | trivia_backend/src/utils/communicator/communicator.cpp:99-102 | From a room or a game, the EXIT leaves exactly the state that the request to leave, or to close the room, followed by a logout leaves; in a verification it ends it |
| Requests.LogInAndOut | trivia_backend/src/managers/loginManager.cpp:34-69 | A logout undoes a login: the shared state is what it was |
| Requests.CreateAndClose | trivia_backend/src/managers/roomManager.cpp:7-18 | Closing a room undoes its creation |
| Requests.JoinAndLeave | trivia_backend/src/managers/room.cpp:4-21 | Leaving an idle room undoes joining it |
| SessionSteps.SignUpLogsIn | trivia_backend/src/managers/loginManager.cpp:20-30 | The login inside `signup` is never refused once the account could be added |
| SessionSteps.SignUpSucceedsIff | trivia_backend/src/requestHandlers/loginRequestHandler.cpp:65-109 | Signing up leads to verification if and only if the credentials are valid and free, the account is stored, the database can be read for the login, and the email goes out |
| SessionSteps.FailedSignUpLeavesNothingIff | trivia_backend/src/requestHandlers/loginRequestHandler.cpp:75-101 | When the verification email cannot be sent, signing up leaves the whole shared state exactly as it was if and only if nothing was stored, or the login could be read and the database deletes the account again |
| SessionSteps.NewAccountLingers | trivia_backend/src/requestHandlers/loginRequestHandler.cpp:75-101 | A new account whose login cannot be read, or that is not deleted after its email failed, stays unverified with no session to verify it, and the invariant is broken |
| SessionSteps.FailedAbortLingers | trivia_backend/src/requestHandlers/verificationHandler.cpp:42-50 | So does one that is not deleted when its verification is given up, or refused after five wrong codes |
| SessionSteps.SignUpKeepsInv | trivia_backend/src/requestHandlers/loginRequestHandler.cpp:65-109 | A successful sign-up adds one account, pending until verified, one login and one verification session, and keeps the invariant |
| SessionSteps.AbortKeepsInv | trivia_backend/src/requestHandlers/verificationHandler.cpp:73-78 | Giving up a verification deletes the pending account with all its rows and its login, and keeps the invariant |
| SessionSteps.VerifiedKeepsInv | trivia_backend/src/requestHandlers/verificationHandler.cpp:34-40 | The right code ends the pending state of the account and keeps the invariant |
| SessionSteps.LogInKeepsInv | trivia_backend/src/managers/loginManager.cpp:34-61 | Logging in an account that is not logged in keeps users, sessions and accounts in agreement |
| SessionSteps.LogOutKeepsInv | trivia_backend/src/managers/loginManager.cpp:63-69 | So does logging out, by request or with the connection |
| RoomSteps.CreateRoomKeepsInv | trivia_backend/src/requestHandlers/menuRequestHandler.cpp:168-197 | Opening a room under an id nobody holds keeps the invariant |
| RoomSteps.ReusedRoomBreaksInv | trivia_backend/src/managers/roomManager.cpp:39-54 | If the fresh id is one that a member of a closed room still holds, the invariant breaks: uniqueness among the open rooms is not enough |
| RoomSteps.JoinRoomKeepsInv | trivia_backend/src/requestHandlers/menuRequestHandler.cpp:137-166 | Joining an inactive room with space keeps the invariant |
| RoomSteps.LateJoinBreaksInv | trivia_backend/src/managers/room.cpp:4-15 | Joining a room that plays already always breaks it: the joiner is in the room and not in its game |
| RoomSteps.CloseRoomKeepsInv | trivia_backend/src/requestHandlers/roomAdminRequestHandler.cpp:32-43 | Closing a room, or disconnecting as its admin, removes nobody's game and keeps the invariant; its members keep a stale id only |
| RoomSteps.StartGameKeepsInv | trivia_backend/src/requestHandlers/roomAdminRequestHandler.cpp:45-58 | Starting puts exactly the room's users into a game of the same id with at least two players, two questions and five seconds, and keeps the invariant |
| LeaveSteps.LeaveGameKeepsInv | trivia_backend/src/requestHandlers/gameRequestHandler.cpp:92-124 | A leave that the database accepts keeps the invariant, whichever way the finish falls among the clock readings: room users and online players stay equal, an empty game goes with its room |
| LeaveSteps.LeaveRoomKeepsInv | trivia_backend/src/requestHandlers/roomMemberRequestHandler.cpp:24-61 | Leaving a room keeps the invariant, through its game when it plays already; an active room may be left empty and without a game |
| LeaveSteps.FailedLeaveBreaksInv | trivia_backend/src/requestHandlers/gameRequestHandler.cpp:109-115 | When the leaver's own result cannot be written he stays in the room's list without a session there |
| LeaveSteps.StaleMemberExitKeepsInv | trivia_backend/src/requestHandlers/roomMemberRequestHandler.cpp:25-34 | A member whose room was closed leaves without touching any room |
| VerificationRuns.VerificationOutcome | trivia_backend/src/requestHandlers/verificationHandler.cpp:28-71 | For every mix of submissions and resends: the menu is reached exactly when one of the first five submissions is the code emailed last, the account is given up exactly when five were made and none was, and until then every submission has been counted and no resend has reset the count |
| Games.LeaveEffects | trivia_backend/src/managers/gameManager.cpp:33-65 | For every monotone choice of the three clock readings: the leaver is off the list, submitted, and punished exactly when the first reading found the game unfinished; the others change only by being marked, all of them as soon as the last reading finds it finished |
| Games.LeavingCostsTwenty | trivia_backend/src/managers/gameManager.cpp:38-40 | A removal that finds the game unfinished at its first reading costs the leaver exactly twenty points of his score, a later one nothing, and it never costs anybody else anything |
| Games.SubmissionsAreTheNewlyMarked | trivia_backend/src/managers/gameManager.cpp:44-54 | What a removal sends is exactly the set of records it newly marks, each with the contents it keeps; a record submitted before is not touched |
| Games.LeaveKeepsInv | trivia_backend/src/managers/gameManager.cpp:56-59 | After a removal everyone who left is submitted and nobody online is unless the game is over; when the last one leaves, everybody has been submitted |
| Games.SleepingIsRecordableIff | trivia_backend/src/requestHandlers/gameRequestHandler.cpp:56-59 | An accepted answer can be recorded if and only if the game was unfinished when it was judged; the guard's earlier reading does not suffice |
| Games.WokenKeepsInv | trivia_backend/src/managers/game.cpp:26-28 | Recording an answer changes one entry of one record and keeps the game consistent |
| Games.TimelyWakeIsBeforeSubmission | trivia_backend/src/managers/game.cpp:22-27 | A player who wakes before the slot of his question ends has not been submitted yet |
| Games.NewGameInv | trivia_backend/src/managers/game.cpp:36-44 | A new game satisfies all that its code relies on |
| Games.NewGameIsBlank | trivia_backend/src/managers/game.cpp:36-44 | A new game has exactly the given users as players, all online, each unpunished and unsubmitted with index 5 at the limit under every question |
| Games.FinishesByTheClock | trivia_backend/src/managers/game.cpp:79-84 | A game is finished exactly from the moment at which, counted from its start, as many slots as it has questions are over |
| Games.ShowsByTheClock | trivia_backend/src/managers/game.cpp:55-62 | While it is unfinished the question it shows is the one whose slot, counted from its start, the clock is in |
| Games.SleepsOnWhatWasSubmitted | trivia_backend/src/managers/game.cpp:22-27 | For every time limit, an accepted answer keeps the question and the choice submitted, and the second of the slot at which it was judged |
| Games.DecidesByTheClock | trivia_backend/src/managers/game.cpp:4-24 | An answer is accepted exactly if the guard's reading is before the end of the last slot and the judging one in the first T seconds of the question's slot, both counted from the game's start, and it is due at the end of these |
| GameRuns.ExactlyOnce | trivia_backend/src/managers/gameManager.cpp:50-59 | Over every run of one game, in any interleaving: no result is sent twice, whoever is offline has been sent, and when the game is erased every original player has been sent exactly once |
| GameRuns.AnswersAreFair | trivia_backend/src/managers/game.cpp:14-28 | Over every run: one answer per player and question, and no acceptance at or after the moment anybody is told the correct index, be it on waking or with the results of the finished game |
| GameRuns.SentResultsAreFinal | trivia_backend/src/managers/gameManager.cpp:84-89 | If every sleeper wakes before his question's slot ends, no record ever changes after it was submitted |
| GameRuns.WakeKeepsFinalIff | trivia_backend/src/managers/game.cpp:24-27 | One wake-up keeps the submitted results final if and only if the sleeper was not submitted yet or repeats what his record holds |
| GameRuns.AlwaysFinalIff | trivia_backend/src/managers/gameManager.cpp:84-89 | Over any run of a game, no record ever differs from the result sent of it if and only if every wake-up is of somebody not submitted yet, or repeats what his record holds |
| GameProjections.StepProjects | trivia_backend/src/managers/gameManager.cpp:25-59 | A step of the server is no event of a given game, or one that is possible in it, and the game, its sleepers and its erasure follow that event |
| ServerGames.GameBegins | trivia_backend/src/requestHandlers/roomAdminRequestHandler.cpp:45-58 | Starting a game on the server is the beginning of a run of `GameRuns` |
| ServerGames.RunProjects | trivia_backend/src/managers/gameManager.cpp:33-65 | Over every admissible run of the server, the steps that concern a game, from its start until it is erased, are a possible run of `GameRuns` whose game is the server's and whose sleepers are the sleeping sessions; it has ended exactly when the game is erased |
| ServerGames.ResultsAreSentOnce | trivia_backend/src/managers/gameManager.cpp:50-59 | Over every admissible run of the server: each game sends each player's record at most once, has sent that of everybody offline, and of every player exactly once when it is erased |
| ServerGames.AcceptedAnswersAreFair | trivia_backend/src/requestHandlers/gameRequestHandler.cpp:51-90 | Over every admissible run of the server: one accepted answer per player and question of a game, and none at or after the moment anybody is told the correct index, be it on waking or with the results of the finished game |
| ServerGames.SentRecordsAreFinal | trivia_backend/src/managers/gameManager.cpp:84-89 | Over every admissible run of the server whose sleepers in a game wake before their slots end, a record that was sent is what the game says of its player at the end, or when it was erased |
| ServerGames.RecordsStayFinalIff | trivia_backend/src/managers/gameManager.cpp:84-89 | Over every admissible run of the server, up to and including the step that erases a game, no record of it ever differs from what was sent of it if and only if everybody who wakes in it was not submitted yet or repeats what his record holds |
| ServerGames.LedgerOverRun | trivia_backend/src/utils/databaseAccess/sqliteDatabase.cpp:355-368 | Over every admissible run, a verified user keeps his account, and his row is the history of his first row, his ledger at the beginning and exactly what the removals from games wrote for him since |
| ServerGames.OneOutcomePerGame | trivia_backend/src/utils/databaseAccess/sqliteDatabase.cpp:330-373 | If the database takes every result of a player, each game he plays in writes at most one outcome to his ledger, exactly one by the time it is erased, and it is the outcome of the record the game sent of him |
| ServerGames.GamesPlayedAreCounted | trivia_backend/src/utils/databaseAccess/sqliteDatabase.cpp:355-368 | Over every admissible run in which the database takes every result of a verified user, his row grows by one outcome for each game that sends his record, and no game sends it twice: his games, right and wrong answers grow (modulo 2^32) by exactly what those records hold |
| ServerGames.PlayersAreCounted | trivia_backend/src/managers/gameManager.cpp:50-59 | So it is for everybody a game starts with, and by the time it is erased his one record of it is among those counted |
| GameRuns.PlayersStay | trivia_backend/src/managers/game.h:82-88 | Players, questions, limit and start of a game never change |
| GameRecords.RecordsTellTheRun | trivia_backend/src/managers/game.cpp:22-28 | Over every run of a game its records are exactly what the events say: a question holds the choice and the second of the answer accepted to it, once its player has woken up, and index 5 at the limit otherwise; punished exactly if he left while the first reading found the game unfinished, submitted exactly if he left or somebody did with the last reading finished, online exactly if he did not leave |
| GameRecords.AnswersComeFirst | trivia_backend/src/managers/game.cpp:14-28 | In terms of the events alone: no two answers of a player to a question are accepted, and none at or after the time of a wake-up or of results that tell its correct index |
| ServerRecords.RecordsTellTheServersRun | trivia_backend/src/managers/gameManager.cpp:33-65 | The same over every admissible run of the server, from the start of a game up to its erasure: punishments, submissions and answers in its records are those of the steps that concern it |
| ServerRecords.AnswerIsRecorded | trivia_backend/src/managers/game.cpp:4-29 | An answer that puts its player to sleep is recorded as submitted when he wakes up, whatever others do in between: his record of the question holds his choice and the second of the slot at which it was judged |
| ServerRecords.WakeUpFiles | trivia_backend/src/managers/game.cpp:26-28 | Waking up writes the choice and the time to the one answer, of the one player, of the one game, and changes nothing else |
| ServerRecords.PlayerStaysInGame | trivia_backend/src/managers/gameManager.cpp:56-59 | While others act, a player's game stays in the list, with its questions, time limit and start |
| ServerRecords.PasswordDecides | trivia_backend/src/managers/loginManager.cpp:34-61 | A verified account keeps its password over every admissible run: after it, whoever gives that password is logged in, nobody else, and only while the user has no session |
| Examples.JoiningARunningGameBreaksInv | trivia_backend/src/requestHandlers/menuRequestHandler.cpp:147-151 | A concrete good state and a join that breaks it |
| Examples.ReusingARoomIdBreaksInv | trivia_backend/src/managers/roomManager.cpp:47-50 | A concrete good state and a new room that breaks it |
| Examples.LeavingWithoutTheDatabaseBreaksInv | trivia_backend/src/requestHandlers/gameRequestHandler.cpp:111-115 | A concrete good state and a failed database write that breaks it |
| Examples.AnsweringAtTheFinishBreaksInv | trivia_backend/src/requestHandlers/gameRequestHandler.cpp:56-59 | A concrete good state and an answer to a question that does not exist, accepted at the finish |
| Examples.UndeletedAccountBreaksInv | trivia_backend/src/requestHandlers/loginRequestHandler.cpp:97-101 | A concrete sign-up whose email and whose rollback fail |
| Examples.UnreadLoginBreaksInv | trivia_backend/src/managers/loginManager.cpp:30-49 | A concrete sign-up whose account is stored and whose login cannot be read |
| Examples.AskingAtTheFinishFails | trivia_backend/src/requestHandlers/gameRequestHandler.cpp:34-39 | A concrete request for a question that indexes past the last one |
| Examples.ListingADesertedRoomFails | trivia_backend/src/requestHandlers/menuRequestHandler.cpp:79 | A concrete admissible run, in which one player leaves the game and the other the room, after which the list of rooms looks up a game that is gone |
| Examples.LateWakeRewritesASentResult | trivia_backend/src/managers/gameManager.cpp:50-52 | A concrete run in which a late sleeper rewrites a record after it was submitted |
| Examples.QuickAnswersHaveNoScore | trivia_backend/src/managers/game.h:45-58 | A concrete run in which a player answers both questions correctly in the first second of their slots, and his score divides by an average of zero |
| ServerExamples.LateWakeRewritesOnServer | trivia_backend/src/managers/gameManager.cpp:50-52 | The late sleeper as three admissible steps of the server, after which a record differs from what was sent of it |
| ServerExamples.QuickAnswersHaveNoScoreOnServer | trivia_backend/src/managers/game.h:45-58 | The quick answers as four admissible steps of the server |
| TimeWindows.AcceptsExactlyInWindow | trivia_backend/src/managers/game.cpp:6-27 | Question i takes answers exactly in the first T seconds of its slot of T+5, as far as that window fits in 32 bits; the release is its end, and the recorded time is the position in the slot, below T |
| TimeWindows.ElapsedReaches | trivia_backend/src/managers/game.cpp:6-8 | The game's clock shows at least s seconds exactly from s whole seconds after the start, and only the distance from the start counts |
| TimeWindows.AcceptedTimeInSlot | trivia_backend/src/managers/game.cpp:17-27 | For every 32-bit T, even one whose slot length wraps, the recorded time is the position in the slot and below T |
| TimeWindows.UnfinishedSchedule | trivia_backend/src/managers/game.cpp:55-62 | While an unfinished game's schedule fits in 32 bits the current question exists and takes answers exactly in its window |
| TimeWindows.AcceptedIsDueBeforeTheEnd | trivia_backend/src/managers/game.cpp:79-84 | Every accepted answer is due, with five seconds to spare, before the game finishes |
| TimeWindows.AcceptedIndexInRange | trivia_backend/src/managers/game.cpp:27-28 | An accepted answer names an existing question if and only if the game is unfinished at the reading it is judged by |
| TimeWindows.CurrentIndexInRange | trivia_backend/src/managers/game.cpp:59-61 | `getQuestion` indexes an existing question if and only if the game is unfinished at its second reading, or its slot number has come round 2^32, which takes longer than 2^32 seconds |
| TimeWindows.GuardCanGoStale | trivia_backend/src/requestHandlers/gameRequestHandler.cpp:51-59 | A concrete crossing between guard and judgement |
| TimeWindows.WindowsAreDisjoint | trivia_backend/src/managers/game.cpp:14-15 | No two questions take answers at the same moment |
| TimeWindows.UnfinishedMeansPositiveSlot | trivia_backend/src/managers/game.cpp:9-10 | An unfinished game never divides by zero |
| TimeWindows.TimelyMeansUnfinished | trivia_backend/src/managers/game.cpp:83 | A moment before the end of a question's own slot lies in an unfinished game |
| Scores.CountsAddUp | trivia_backend/src/managers/game.h:27-33 | Correct and wrong answers, counted independently, add up to the questions |
| Scores.CorrectIsTheNumber | trivia_backend/src/managers/game.h:27-29 | The count is the size of the set of questions answered with their correct index |
| Scores.AverageIsTheFloor | trivia_backend/src/managers/game.h:35-38 | The average is the largest integer whose product with the number of answers is within the sum of the times |
| Scores.UnansweredIsWrong | trivia_backend/src/managers/game.h:21-25 | A record nobody touched has no correct answer and the time limit as its average |
| Scores.AverageWithinLimit | trivia_backend/src/managers/game.h:35-38 | The floor average never exceeds the limit |
| Scores.RecordChangesOne | trivia_backend/src/managers/game.h:40-43 | An answer changes one entry, the count and the sum accordingly |
| Scores.RecordKeepsConsistent | trivia_backend/src/managers/game.h:40-43 | Recording files exactly the given choice and time under the question, changes nothing else, and keeps the record consistent with its questions |
| Scores.ScoreLowerBound | trivia_backend/src/managers/game.h:45-58 | With an average of at least 1, a score is at least 30 per correct answer, minus 10 per wrong one, minus 20 if punished |
| Scores.ScoreIsTheRoundedRatio | trivia_backend/src/managers/game.h:45-58 | The score exactly: with ten points back for every wrong answer and twenty for a punishment it is the integer nearest to 30 * correct * limit / average, halves up |
| Scores.FasterIsNotWorse | trivia_backend/src/managers/game.h:49-50 | The same answers in less time never lower the score |
| Scores.CorrectingIsWorthForty | trivia_backend/src/managers/game.h:49-51 | One more correct answer at the same time is worth at least 40 |
| Scores.ScoreIsDefinedIff | trivia_backend/src/managers/game.h:49-50 | The score divides by zero exactly when the times add up to less than one second per question |
| Scores.NewGameData | trivia_backend/src/managers/game.h:21-25 | The constructor's loop files index 5 at the limit under every question |
| Statistics.Conservation | trivia_backend/src/utils/databaseAccess/sqliteDatabase.cpp:358-362 | After any history the stored games, correct and wrong answers are, modulo 2^32, the first row plus the sums over the submitted games |
| Statistics.OutcomeCountsQuestions | trivia_backend/src/utils/databaseAccess/sqliteDatabase.cpp:360-362 | Each game adds exactly its number of questions to correct plus wrong |
| Statistics.OutcomeTellsTheRecord | trivia_backend/src/utils/databaseAccess/sqliteDatabase.cpp:337-362 | What is submitted of a record is its number of right answers, the rest as wrong, its average rounded down, and its score with the punishment |
| Statistics.PunishmentIsStored | trivia_backend/src/utils/databaseAccess/sqliteDatabase.cpp:349-365 | With the same answers, a punished player's stored score is exactly twenty below an unpunished one's, down to zero, and no other column differs |
| Statistics.ScoreClosedForm | trivia_backend/src/utils/databaseAccess/sqliteDatabase.cpp:349-353 | The clamped score equals the unclamped sum minus the lowest point it had below zero, so it is never below that sum |
| Statistics.LowestIsTheMinimum | trivia_backend/src/utils/databaseAccess/sqliteDatabase.cpp:351-353 | That lowest point is the minimum over all prefixes of the changes |
| Statistics.ScoreColumn | trivia_backend/src/utils/databaseAccess/sqliteDatabase.cpp:365 | The stored score column is that clamped sum |
| Statistics.AverageDrift | trivia_backend/src/utils/databaseAccess/sqliteDatabase.cpp:337-347 | From an empty row with every game average at least 1, the running average never exceeds the answer-weighted mean, falls short of the exact total by at most the sum of (answers so far - 1) over the later games, and stays between the smallest and largest game average |
| Statistics.DriftIsExact | trivia_backend/src/utils/databaseAccess/sqliteDatabase.cpp:339-344 | Under the same conditions every stored average is the floor of the weighted mean of the previous one and the new game's |
| Statistics.MachineMeanIsExactIff | trivia_backend/src/utils/databaseAccess/sqliteDatabase.cpp:338-344 | For a row with an average, the server's 32-bit expression is the floor of the weighted mean if and only if the exact sum fits in 32 bits |
| Statistics.MachineMeanCanWrap | trivia_backend/src/utils/databaseAccess/sqliteDatabase.cpp:340-344 | A concrete row for which the 32-bit expression is not the weighted mean |
| Statistics.AverageIsWeightedMeanIff | trivia_backend/src/utils/databaseAccess/sqliteDatabase.cpp:318-347 | The update is the weighted mean if and only if, for a row with an average, the sum fits in 32 bits, and for one without, no answers are behind the stored zero or the game's average is zero too |
| Statistics.ZeroAverageIsForgotten | trivia_backend/src/utils/databaseAccess/sqliteDatabase.cpp:318-347 | A concrete history of two games whose stored average is not the weighted mean |
| Questions.FromDatabase | trivia_backend/src/managers/question.cpp:5-17 | For every shuffle, the four answers are a permutation of the database's, the index is below 4, and it points at the first answer equal to the correct text |
| Framing.LengthRoundTrip | trivia_backend/src/utils/socketHelper/socketHelper.cpp:103-115 | The four-byte big-endian encoding and the length reader are inverse to each other in both directions |
| Framing.EveryRequestIsRead | trivia_backend/src/utils/socketHelper/socketHelper.cpp:38-101 | Byte by byte: each of the 23 requests, sent as its code, four length bytes with the most significant first, and its payload, is read back as that request when readable; every other byte is an EXIT |
| Framing.SizeToBytes | trivia_backend/src/utils/conversionHelper/conversionHelper.cpp:5-16 | The descending shift loop produces that encoding of the length modulo 2^32 |
| Framing.FrameRoundTrip | trivia_backend/src/utils/socketHelper/socketHelper.cpp:77-101 | A frame is read back, and exactly its bytes are consumed, unless its payload is empty and the socket library refuses a read of nothing, or its length or payload arrives in pieces; then reading throws |
| Framing.StreamRoundTripIff | trivia_backend/src/utils/socketHelper/socketHelper.cpp:75-101 | Any concatenation of frames is served as exactly those frames up to the first EXIT, with nothing of the next one, if and only if none of them is such a one; otherwise reading throws |
| Framing.NothingInPieces | trivia_backend/src/utils/socketHelper/socketHelper.cpp:4-24 | If all that was sent has arrived whenever it is read, only an empty payload can go wrong |
| Framing.CutFrame | trivia_backend/src/utils/socketHelper/socketHelper.cpp:86-98 | A frame cut off before its first byte is read as an EXIT; cut off anywhere later, it throws, against the comment above the function |
| Framing.BrokenConnection | trivia_backend/src/utils/socketHelper/socketHelper.cpp:75-101 | A client that goes away between requests has all of them served and one EXIT; one that goes away inside a request has those before it served and then reading throws |
| Framing.Socket.GetRequestInfo | trivia_backend/src/utils/socketHelper/socketHelper.cpp:77-101 | The reader's three reads, one after the other, are the frame parser, the throwing branches included |
| Framing.Socket.GetRequestId | trivia_backend/src/utils/socketHelper/socketHelper.cpp:38-73 | Reads one byte; only the listed ids pass |
| Framing.Socket.GetRequestLength | trivia_backend/src/utils/socketHelper/socketHelper.cpp:103-115 | Reads four bytes as a length |
| Framing.Socket.GetPart | trivia_backend/src/utils/socketHelper/socketHelper.cpp:4-24 | One read: it consumes what has arrived, up to what was asked for, and is an error unless that is all of it |
| Databases.Database.AddUser | trivia_backend/src/utils/databaseAccess/sqliteDatabase.cpp:72-114 | Adds the user with an empty row unless the name or the email is taken or the transaction fails, and changes nothing otherwise |
| Databases.Database.RemoveUser | trivia_backend/src/utils/databaseAccess/sqliteDatabase.cpp:375-386 | Removes the user together with his row, or changes nothing when there is no such user or the deletion fails |
| Databases.Database.GetUserStatistics | trivia_backend/src/utils/databaseAccess/sqliteDatabase.cpp:306-328 | Returns the row, with a stored average of zero reported as absent and the total of answers derived in 32 bits |
| Databases.Database.SubmitGameStatistics | trivia_backend/src/utils/databaseAccess/sqliteDatabase.cpp:330-373 | Replaces exactly the user's row by the row after one more game, its counters and its score (punishment included, clamped at zero) stated from the record, or changes nothing |
| GameManagers.Game.GetCurrentQuestion | trivia_backend/src/managers/game.cpp:55-62 | The index is within the questions exactly when the game is unfinished at this reading, unless its slot number has come round; it is that of the slot the clock is in, counted from the game's start |
| GameManagers.Game.SubmitAnswer | trivia_backend/src/managers/game.cpp:4-24 | Decides as `Games.Decide`, guard included; told by the clock: what is accepted, when, with which choice, time and release |
| GameManagers.Game.RecordAnswer | trivia_backend/src/managers/game.cpp:26-28 | Records as `Games.Woken` and returns the correct index |
| GameManagers.GameManager.CreateGame | trivia_backend/src/managers/gameManager.cpp:4-31 | Adds one game of the room's users, all with blank records, under the room's id, exactly when as many questions as asked for were found |
| GameManagers.GameManager.GetGameById | trivia_backend/src/managers/gameManager.cpp:68-73 | Finds the one game of that id |
| GameManagers.GameManager.SubmitAllGameStatsToDB | trivia_backend/src/managers/gameManager.cpp:75-92 | The loop marks every record, and submits exactly those not marked before, in any order of the players |
| GameManagers.GameManager.RemovePlayerFromGame | trivia_backend/src/managers/gameManager.cpp:33-65 | In place: the game becomes what `Games.Leave` says, the database gets exactly `Games.Submissions`, the game is erased exactly when nobody is online, and an error is reported exactly when the leaver's own result was not written |
| GameManagers.GameManager.RemovePlayerFromGameById | trivia_backend/src/managers/gameManager.cpp:94-99 | The same, found by id, stated for the whole game list |
| GameManagers.GameManager.Erase | trivia_backend/src/managers/gameManager.cpp:56-59 | Erases that game and no other |
| GameManagers.WritingInTwo | trivia_backend/src/managers/gameManager.cpp:44-54 | Submitting the leaver first and the rest afterwards leaves the tables as one submission of all of them |
| Names.WithoutAppended | trivia_backend/src/managers/room.cpp:17-21 | Removing a user removes every occurrence and keeps the order of the others, from whichever end the list is built |
| Rooms.Room.AddUser | trivia_backend/src/managers/room.cpp:4-15 | Appends the user exactly when there is space and he is not in the room |
| Rooms.RoomManager.CreateRoom | trivia_backend/src/managers/roomManager.cpp:7-13 | Adds one room under a free id |
| Rooms.RoomManager.RemovePlayerFromRoom | trivia_backend/src/managers/roomManager.cpp:69-76 | Removes the user, and the room with its last one |
| LoginManagers.LoginManager.Login | trivia_backend/src/managers/loginManager.cpp:34-61 | Logs in exactly an existing, matching, not yet logged-in user |
| LoginManagers.LoginManager.Signup | trivia_backend/src/managers/loginManager.cpp:7-31 | Adds a valid new user and logs him in if he can be read, or changes nothing |
| Handlers.Factory.LoginRequest | trivia_backend/src/requestHandlers/loginRequestHandler.cpp:10-31 | The login handler on the shared objects does to their abstract value what the protocol model does |
| Handlers.Factory.LoginLogin | trivia_backend/src/requestHandlers/loginRequestHandler.cpp:33-63 | On the objects: the menu exactly for a readable account with that password and a name not in the list, which is then appended |
| Handlers.Factory.LoginSignup | trivia_backend/src/requestHandlers/loginRequestHandler.cpp:65-109 | Signing up on the shared objects does what the protocol model says, with the rollback when the email fails |
| Handlers.Factory.VerificationRequest | trivia_backend/src/requestHandlers/verificationHandler.cpp:11-26 | The verification handler, whose code and count of tries change in place, does what the protocol model says |
| Handlers.Factory.GiveUp | trivia_backend/src/requestHandlers/verificationHandler.cpp:73-78 | Tells the database to delete the account, whether it does or not, and logs the user out |
| Handlers.Factory.MenuRequest | trivia_backend/src/requestHandlers/menuRequestHandler.cpp:17-49 | The menu does what the protocol model says; registered rooms and games keep their identity |
| Handlers.Factory.MenuGetRooms | trivia_backend/src/requestHandlers/menuRequestHandler.cpp:61-83 | Lists exactly the rooms that are empty or whose users can be read, each with whether its game is finished, given that the game of every active one of them is there |
| Handlers.Factory.MemberRequest | trivia_backend/src/requestHandlers/roomMemberRequestHandler.cpp:9-22 | The member's handler does what the protocol model says, and changes its room object only while that is registered |
| Handlers.Factory.MemberLeaveRoom | trivia_backend/src/requestHandlers/roomMemberRequestHandler.cpp:24-61 | Leaves through the game first when the room is active, and touches nothing when the room is gone |
| Handlers.Factory.AdminRequest | trivia_backend/src/requestHandlers/roomAdminRequestHandler.cpp:11-30 | The admin's handler does what the protocol model says |
| Handlers.Factory.AdminStartGame | trivia_backend/src/requestHandlers/roomAdminRequestHandler.cpp:45-58 | Creates the game from the room's users and activates the room, both or neither |
| Handlers.Factory.GameRequest | trivia_backend/src/requestHandlers/gameRequestHandler.cpp:12-32 | The player's handler does what the protocol model says |
| Handlers.Factory.GameLeave | trivia_backend/src/requestHandlers/gameRequestHandler.cpp:92-124 | Leaves the game, and then the room unless the removal reported an error |
| Handlers.Factory.GameGetQuestion | trivia_backend/src/requestHandlers/gameRequestHandler.cpp:34-49 | Returns nothing exactly when the game is finished at the first reading, and otherwise the question whose slot the second reading is in |
| Handlers.Factory.GameGetResults | trivia_backend/src/requestHandlers/gameRequestHandler.cpp:67-90 | Returns nothing of an unfinished game, and otherwise the player's answers with their questions, and of every player whether he is online, his score, his right and wrong answers, and his average |
| Handlers.Factory.GameRecordAnswer | trivia_backend/src/requestHandlers/gameRequestHandler.cpp:59-64 | An answer that wakes up changes the one record of its player and returns the correct index |
| Handlers.Factory.HandleExit | trivia_backend/src/utils/communicator/communicator.cpp:99-102 | The EXIT of every handler does what the protocol model says, from wherever the client is |
| Handlers.Factory.StillRefers | trivia_backend/src/requestHandlers/roomMemberRequestHandler.cpp:24-61 | While other clients are served, the room or game object a handler holds stays the registered one for as long as its id is registered and not reused |

## Left out

- Scores.ScoreChange: the quotient of floats is an exact rational rounded half away from zero, because how
  IEEE single precision rounds is not the point; for an average of zero the undefined conversion is a
  parameter, the same one for every record of a step.
- Scores.TimeSum: the original accumulates into a signed 32-bit integer; the sum here is unbounded, and agrees
  while questions times limit stays below 2^31.
- Statistics.MachineMeanIsExactIff: for fewer than 2^32 answers; at exactly 2^32 the server divides by zero,
  which gives `fault`, an arbitrary value.
- Statistics.ScoreClosedForm: holds as long as the clamped sum fits in 32 bits, the width of the column.
- Connections.HandleClient: works on the state as a value, since the steps of the other threads that run
  meanwhile cannot be methods on shared objects here; that the handlers do the same on objects is in
  `Handlers`. An exception ends the process, with every other session, and an index past the last question
  leaves its behaviour undefined; the runs of the server contain no such step.
- Handlers.Factory.HandleExit: the objects' methods run to completion one at a time; interleaving is only in
  the value layer.
- kissnet, the socket library, is not part of this model; what matters of it is a parameter of `Framing`.
- Locks: requests are atomic. The check and the mark in `submitAllGameStatsToDB` are not under one lock, so
  exactly-once is a claim about requests handled one at a time.
- Requests that read only what is certain to be there (players, high scores, profile) have no effect
  on the shared state; they are the request `Other`.
- Profile updates and password recovery: they would add members about single fields only.
- JSON, logging, configuration, the console, high-score ordering, fetching questions over HTTP, regular
  expressions and calendars, sending email: libraries and input/output.
