# Remote process manager: a verified model

A C server runs `ps`, forks commands and kills processes for clients on a TCP socket; an
ncurses client types commands, shows the process list and refreshes it. This project models
the logic of both programs in Dafny, proves the loops that work in place on buffers against
plain specifications, and proves properties of those specifications over all inputs and runs.

`dafny verify dfyconfig.toml` checks everything.

## How it is built

Bytes are `char`, a C string is the text before the first NUL of its buffer, and the character
classes are those of the C locale. A process id is an unbounded natural number. What comes from
outside (clock readings, keys, received bytes, the output of `ps`, the results of `fork`,
`waitpid` and `kill`) is a parameter, and every statement holds for all values of it.

| file | content |
|---|---|
| CText, CBuffer, Options, Decimal | C strings, buffer functions, optional values, numerals |
| ProcessText, ProcessPrint | the meaning of a process list's text, cutting it, printing it |
| ProcessParts | what is listed of a text that arrives in parts |
| ProcessList | the client's parser over its doubling array, and the rows it draws |
| PsReport | the server's bounded report of `ps` |
| Tokens, Argv | `strtok` in place, the words of a command, the vector for `execvp` |
| Verbs, Requests, Server | synonyms, request splitting, STOP, START, the session loop |
| Replies, Delivery | the texts of the server's replies, messages and the chunks they come in |
| Reaper | exited children, coalesced SIGCHLD, `waitpid` from several threads |
| InputLine, Panels | the line editor, the panel heights and the scroll window |
| ClientModel, ClientPasses, ClientRuns, Tui | the client's loop as a state machine, its passes and runs, and the loop in place |
| EndToEnd, Listing | both programs together: from keys to signals, from `ps` to the list |

## What it found

Where the code does not do what its documentation or comments say, the model keeps the code and
states exactly when the promise holds.

- `LIST` is promised to show all processes, up to 64 KB (README.md:67). The client receives once for
  a command and once in the connection dialog, and whatever arrives later replaces the list by itself,
  its first line taken for a heading (src/client/tui.c:202-235, 645-672 and 789-809). So the list holds the
  entries after the line in which the part shown begins; when every line of the output has an entry,
  it is complete if and only if the output fits the server's buffer and that part begins in the heading
  (`Listing.ReplyArrives`, `Listing.ListPipeline`, `Listing.ListedInFull`, `Listing.SecondPartReplaces`). Two replies
  received at once are listed one after the other (`ProcessParts.TwoRepliesAtOnce`).
- The answer to a typed command that is no synonym of LIST replaces the list too, by nothing: the
  client shows no process until the next report (`Listing.OtherAnswersEmptyList`). Only HELP and EXIT,
  which receive nothing, and RUN, whose answer goes into the status bar, leave the list alone.
- When `ps` prints nothing the reply to LIST has no bytes, so nothing reaches the client; every other
  reply has some (`Replies.NoBytesExact`).
- A command typed on the line is upper-cased before it is sent, so `START sleep 100` (README.md:68)
  asks the server for `SLEEP 100`. The argument arrives as typed exactly when it has no lower-case
  letter; the launch dialog keeps it (`EndToEnd.TypedStartArgument`, `EndToEnd.SleepUpperCased`,
  `EndToEnd.LaunchedCommandRuns`).
- The server accepts commands of 1024 bytes but its child copies 1023. `Argv.LastByteLost` says
  exactly when the lost byte changes the arguments, `Argv.LongWordCut` gives a command for which it does.
- The check after `fork` looks for a zombie with the child's pid. It reports the child's end exactly
  when the child is that zombie; a child that the SIGCHLD handler has reaped is reported as started,
  however it ended, unless its pid has been given out again and is a zombie's, in which case the reply
  describes that other child (`Reaper.CheckExact`, `Reaper.EndedIsOwn`, `Reaper.FailureReportedAsStarted`,
  `Reaper.OtherChildReported`).
- The server takes each received chunk for one command. However the messages of a connection are cut
  into chunks, the command lines of the chunks are the messages exactly when the chunks are the
  messages, and each is then answered, up to the one that ends the session (`EndToEnd.RunDelivered`, `Delivery.RequestsExact`). A STOP message of which only some digits have arrived
  names another process (`EndToEnd.FragmentedStop`, `EndToEnd.FragmentKillsAnother`), and a second message
  in the same chunk is ignored (`EndToEnd.CoalescedMessagesLost`).
- A numeral too large for an `int` may kill another process than it names, and only such a one
  (`Server.KillNamesItsPid`, `Server.OverflowKillsAnother`).
- The layout's guarantee of 60 % for the list (src/client/panels.c:43-57) never takes effect: it holds
  exactly from 20 terminal lines on (and below 4), and the panels fit exactly from 10 lines on (`Panels.LayoutPromises`).
- A printed list parses back exactly when no name is over 255 bytes, holds a newline or NUL, or
  starts with white space (`ProcessPrint.PrintParse`).

## Model

| member | source | states |
|---|---|---|
| ProcessLists.ProcessList.Parse | src/client/process.c:21-121 | the pointer parser stores exactly the entries of the text's specification, for a null pointer, an empty string and any C string; the capacity is 32 doubled some number of times, is 32 or below twice the count, and the elements counted one by one in the reallocations are capacity - 32 |
| ProcessLists.ProcessList.ParseLines | src/client/process.c:46-118 | the line loop ends, stays inside the string, and adds up to the whole list |
| ProcessLists.ProcessList.ReadLine | src/client/process.c:47-117 | one pass keeps: entries so far, followed by those of the text not read yet, are those of the whole text; it copies nothing, or each element of one array that it replaces |
| ProcessLists.ScanLine | src/client/process.c:58-82 | the three scans find the entry of a line, or that it has none |
| ProcessLists.ReadPid | src/client/process.c:67-74 | the digit loop computes the value of the longest run of digits |
| ProcessLists.CopyName | src/client/process.c:98-106 | the name is the rest of the line, cut to 255 bytes |
| ProcessLists.ProcessList.Append | src/client/process.c:84-108 | appending keeps every earlier entry and the growth invariant; it doubles the array, copying every element once, if and only if it is full |
| ProcessLists.ProcessList.Free | src/client/process.c:126-137 | freeing leaves an empty list |
| ProcessLists.ProcessList.VisibleRows | src/client/process.c:152-189 | the row loop reads only entries of the list, at any offset and panel size, and shows the window at the offset |
| CText.ToUpperExact | src/client/input.c:37-46 | each small letter becomes the capital at its place in the alphabet, and no other character changes |
| CText.UpperExact | src/server/main.c:193-199 | upper-casing makes two texts equal if and only if they agree letter by letter |
| CText.ClassesExact | src/client/process.c:62-79 | the character classes, each by the characters in it |
| ProcessText.JoinOfLines | src/client/process.c:46-53 | joining the lines of a text with newlines gives the text back, and no line holds a newline |
| ProcessText.LinesOfJoin | src/client/process.c:46-53 | splitting joined lines gives the lines back |
| ProcessText.LineEntryOfPrefix | src/client/process.c:62-106 | a cut line yields no entry or the entry with its last pid digits dropped and no name, or with a prefix of its name |
| ProcessText.Truncation | src/client/process.c:46-118 | cutting a text anywhere leaves at most as many entries, all but the last unchanged, the last a cut of its original |
| ProcessText.CutAtLine | src/client/process.c:114-117 | cutting after a whole line leaves a prefix of the entries |
| ProcessText.EntryCountBound | src/client/tui.c:657-671 | a received buffer has at least one line more than entries, even when the parser stops at a NUL and the line counter does not |
| ProcessParts.PartEntries | src/client/process.c:43-118 | any part of a text lists a run of its entries, those after the line the part begins in, only the last of which can be cut |
| ProcessParts.LastPart | src/client/process.c:43-118 | a part that runs to the end loses exactly the entries up to the end of the line it begins in, so none if and only if there is none |
| ProcessParts.CompleteFromHeading | src/client/process.c:43-118 | when every line has an entry, such a part loses none if and only if it begins in the heading |
| ProcessParts.TwoRepliesAtOnce | src/client/process.c:43-118 | two replies received at once are listed one after the other |
| Decimal.DropDigitsIsDivision | src/client/process.c:70-74 | dropping the last k digits is division by 10^k |
| ProcessPrint.PrintParse | src/client/process.c:43-120 | printing entries under a heading, with any leading blanks and with or without a final newline, and parsing the result gives the same list if and only if every name is one the format can carry |
| ProcessPrint.FirstPrinted | src/client/process.c:62-106 | the first entry read back has the printed pid and the name up to its first newline or NUL, trimmed and cut |
| PsReport.ListProcesses | src/server/main.c:17-37 | the accumulated buffer holds exactly the specified report, terminated inside the buffer |
| PsReport.Fgets | src/server/main.c:19-29 | one read takes the stream through the next newline, or 1034 bytes |
| PsReport.ReportIsPrefix | src/server/main.c:28-35 | the report is a prefix of the output of length at most size - 2, and the next chunk would not have fitted |
| PsReport.ReportIsCString | src/server/main.c:28-35 | whatever `ps` prints, NULs included, the report holds none |
| PsReport.LongestWholeLines | src/server/main.c:28-35 | when every line fits one read, the report is the longest prefix of whole lines of length at most size - 2 |
| PsReport.ReportThenParse | src/server/main.c:28-35 | when every line fits one read, the client's entries of the report are a prefix of those of the full output |
| PsReport.ReceivedThenParse | src/server/main.c:28-35 | with lines of any length, and the reply cut anywhere on its way, only the last entry received can differ |
| Tokens.Scanner.Next | src/server/main.c:136-140 | one `strtok` call returns the next token in place, ends it with a NUL, changes no other byte, and keeps the rest |
| Tokens.NextWord | src/server/main.c:136-140 | each call with a space takes the next word of the words of the text, which one pass over its characters defines |
| Tokens.WordsOfJoin | src/server/main.c:136-140 | the words of words joined by single spaces are those words |
| Argv.BuildArgv | src/server/main.c:127-141 | the 16-slot vector holds pointers to the first 15 words of the first 1023 bytes, each still terminated in the buffer, then a null pointer |
| Argv.ArgvOfJoinedArgv | src/server/main.c:128-141 | joining the arguments by single spaces gives a command with the same vector |
| Argv.LastByteLost | src/server/main.c:103-134 | the vector is that of the whole command if and only if the command has fewer than 1024 bytes, or its last byte is a space, or that byte adds to no argument that is kept |
| Argv.LongWordCut | src/server/main.c:103-134 | a word of 1024 letters is accepted and loses its last |
| Verbs.NormalizeCommand | src/server/main.c:187-250 | the loop and the two bounded buffers compute the specified canonical word |
| Verbs.VerbExact | src/server/main.c:193-250 | for words of any length the branch taken is that of the one synonym set that holds the upper-cased word: the sets are disjoint, and no buffer limit makes or loses a match |
| Verbs.NormalizedTwice | src/server/main.c:187-250 | normalizing is idempotent |
| Verbs.NormalizedExact | src/server/main.c:193-250 | what is stored is the canonical word of the verb, or the first 63 characters of an unknown word, upper-cased |
| Verbs.VerbByLetters | src/server/main.c:193-245 | a word takes a verb's branch if and only if it agrees, letter by letter whether small or capital, with one of the verb's synonyms |
| Verbs.Synonym | src/server/main.c:201-249 | the comparisons with the synonyms, one by one, choose the word of the table that holds it |
| Verbs.NormalizedIgnoresCase | src/server/main.c:193-199 | words that agree letter by letter, small or capital, have the same canonical word and branch |
| Requests.Split | src/server/main.c:265-277 | cutting the line and the two `strtok` calls in place give the specified command word and argument |
| Requests.FramingRoundTrip | src/server/main.c:266-277 | verb, space, argument and newline are split back into exactly that verb and argument if and only if the verb is a non-empty word, the argument is not empty, and neither holds CR, LF or NUL |
| Requests.AliasPreserved | src/client/tui.c:585-593 | rewriting "RUN x" to "START x" changes neither the branch nor the argument, for every x, the empty one included |
| Requests.LaterLinesIgnored | src/server/main.c:266-277 | only the bytes before the first CR, LF or NUL of a chunk are read |
| Requests.CommandLineExact | src/server/main.c:267 | the command line ends before the first NUL, CR or LF, and only there |
| Requests.LineEndings | src/server/main.c:267-277 | a line is read alike with LF and with CR and LF behind it |
| Requests.NoCommandWord | src/server/main.c:276-280 | there is no command word exactly when the line is all spaces |
| Server.StopProcess | src/server/main.c:40-92 | the digit loop and the checks give the specified reply and signals |
| Server.KillIsGuarded | src/server/main.c:47-83 | a kill is sent at most once, after a successful probe of the same pid, for an all-digit argument, to a pid of at least 2 |
| Server.KillExact | src/server/main.c:47-83 | exactly the process that `atoi` makes of an all-digit argument is killed, if and only if its number is at least 2 and the probe succeeds |
| Server.StoppedExact | src/server/main.c:82-91 | the reply says stopped exactly when the kill was sent and succeeded |
| Server.KillNamesItsPid | src/server/main.c:55-83 | whatever `atoi` makes of an overflow, only the named process can be killed, if and only if an int can hold the value |
| Server.OverflowKillsAnother | src/server/main.c:55-83 | 4294967298 kills process 2 when `atoi` keeps the low 32 bits |
| Server.LeadingZero | src/server/main.c:47-55 | leading zeros do not change the pid |
| Server.StartProcess | src/server/main.c:95-184 | the checks, the fork and the wait give the specified reply, and the child's vector is the specified one |
| Server.Child | src/server/main.c:126-154 | the strings at the vector's pointers are the arguments, and nothing is run without one |
| Server.HandleChunk | src/server/main.c:265-315 | one pass over the server's own buffers gives the specified outcome |
| Server.HandleClient | src/server/main.c:253-316 | the receive loop sends exactly the specified trace |
| Server.SessionTrace | src/server/main.c:265-316 | every chunk gets exactly one send, of the reply to its own command line, and nothing is sent after the reply to EXIT |
| Server.GoodbyeExact | src/server/main.c:300-303 | a session is closed by the server exactly for a synonym of EXIT in any letter case |
| Server.OneReplyPerChunk | src/server/main.c:265-315 | a chunk of several lines gets the reply to its first line |
| Server.EmptyCommandExact | src/server/main.c:276-280 | the empty-command reply is given exactly for a blank first line |
| Server.StopReplies | src/server/main.c:69-91 | each reply that tells what became of a STOP is given if and only if the probe and the kill had that result, for the process named |
| Server.StopRefusals | src/server/main.c:42-67 | each reply that refuses a STOP is given if and only if its own reason holds |
| Server.StartReplies | src/server/main.c:124-182 | each reply that tells what became of a START is given if and only if the fork and the wait had that result, for the command given |
| Server.StartRefusals | src/server/main.c:97-125 | each reply that refuses a START is given if and only if its own reason holds |
| Server.ExecExact | src/server/main.c:122-151 | a child runs a vector if and only if a command was started and these are the first 15 words of its first 1023 bytes |
| Server.OtherReplies | src/server/main.c:279-312 | the replies to empty, unknown, LIST and EXIT requests are given if and only if the request is one |
| Server.BlockedExact | src/server/main.c:109-120 | a command is refused as dangerous if and only if it holds one of the eight texts |
| Server.SessionKills | src/server/main.c:294-296 | over a whole session an exchange kills a process if and only if its word is a STOP synonym, its argument is all digits and stands for that process, which is neither 0 nor 1, and the probe succeeds |
| Reaper.StepKeepsInv | src/server/main.c:122-183 | every step of forks, exits, signal delivery, handler and checks keeps: zombies are noticed, used pids differ, the reap log is exact, replies are justified, each by a reap of its own |
| Reaper.RunTold | src/server/main.c:122-183 | over every run the pids, the exits, what each thread waits for, who is in the handler, whether the signal is pending and about whom each reply is are those that the steps alone tell |
| Reaper.StepsPossible | src/server/main.c:122-183 | a thread checks only the child it forked last and has not checked, a blocking wait ends only after that child's exit, and the handler is entered only for a pending signal |
| Reaper.EachChildOnce | src/server/main.c:122-162 | no child is waited for by two threads, checked twice, or waited for after its check |
| Reaper.Reachable | src/server/main.c:324-341 | in every interleaving a zombie implies a pending signal or a running handler; each child is reaped at most once, with the status it exited with; a reply that a child ended rests on a reap of that pid by the replying thread's own wait, a different one for each reply; each reply is about the child its thread forked last; no two threads wait for one child and no two replies are about one |
| Reaper.LivesMoveForward | src/server/main.c:324-327 | over every run a child keeps its pid and only goes from running to zombie to reaped |
| Reaper.HandlerDrains | src/server/main.c:324-327 | a handler left alone ends after one step for each zombie and one more, with none left |
| Reaper.EveryZombieCanBeReaped | src/server/main.c:324-341 | from every reachable state, signal delivery and handler steps alone reap every zombie |
| Reaper.CheckExact | src/server/main.c:160-182 | the reply, exactly, where the own child is the one that the steps say the thread forked last: ended if and only if a zombie has the child's pid at the check; about another child if and only if the own child was reaped and its pid is a zombie's again; started if and only if the own child runs, or was reaped and its pid is no zombie's |
| Reaper.EndedIsOwn | src/server/main.c:167-178 | in every run a reply that a child ended names the thread and the child of its check as the steps tell them, and is about that child if and only if it had not been reaped before, so always while no pid is given out twice |
| Reaper.FailureReportedAsStarted | src/server/main.c:157-181 | a run in which a command that fails at once is reported as started |
| Reaper.OtherChildReported | src/server/main.c:160-174 | a run in which a reused pid makes a thread report another thread's child |
| InputLines.Memmove | src/client/input.c:95-97 | the overlapping move copies the old bytes in either direction and leaves the others alone |
| InputLines.InputLine.InsertKey | src/client/input.c:106-115 | in every valid state inserting appends to the text before the cursor, keeps the text after it, and ends the buffer |
| InputLines.InputLine.EraseKey | src/client/input.c:92-102 | in every valid state backspace removes the last character before the cursor and keeps the text after it |
| InputLines.InputLine.ToUppercase | src/client/input.c:37-46 | the loop upper-cases the whole text in place and keeps the zeros behind it |
| InputLines.InputLine.HandleKey | src/client/input.c:74-119 | every key does to the buffer what it means for a line with a cursor, and keeps printable text followed by zeros |
| InputLines.InputLine.Clear | src/client/input.c:23-31 | clearing leaves the empty line |
| InputLines.EraseUndoesInsert | src/client/input.c:91-116 | backspace undoes every accepted insert, wherever the cursor is |
| InputLines.KeysExact | src/client/input.c:74-119 | what each key code does to a line, wherever the cursor is |
| InputLines.CursorStaysAtEnd | src/client/input.c:10-119 | from an empty line every key sequence keeps the cursor at the end of at most 255 printable characters |
| InputLines.PressIsTyping | src/client/input.c:74-119 | with the cursor at the end the editor does what plain typing means |
| Panels.CalcDimensions | src/client/panels.c:32-63 | the computed heights are the model's closed form |
| Panels.LayoutPromises | src/client/panels.c:25-62 | the terminal heights for which the panels fit, the list has 60 %, and a row is shown, each exactly |
| Panels.ScrollClamp | src/client/panels.c:232-254 | the offset lands in range, is the wanted one when that is in range, and otherwise the nearest end |
| Panels.FullWindow | src/client/process.c:186-189 | at an offset in range exactly min(entries, rows) rows are shown |
| Panels.EveryEntryReachable | src/client/tui.c:861-876 | from any offset finitely many arrow keys bring any entry into a window that has a row; without a row nothing is shown |
| ClientModel.CacheAgreement | src/client/tui.c:648-672 | in every state reachable from the start the parsed list is the parse of the stored text, the counter is its lines, and there are fewer entries than lines |
| ClientModel.StepAgrees | src/client/tui.c:721-904 | every key, alias, dialog, receive and timer step keeps that agreement |
| ClientModel.ListIsLastShown | src/client/tui.c:202-809 | in every reachable state the list is the parse of the bytes that the last shown read brought, a slice of all that was read on the connection |
| ClientModel.CommandsAreTyped | src/client/tui.c:893-903 | in every run the commands handled are exactly the upper-cased net texts typed, each of 1 to 255 printable characters without lower case, and the line holds what was typed since |
| ClientPasses.StepExact | src/client/tui.c:721-904 | whether the loop goes on, both timers, the messages sent, the focus, the panel's height and the offset after a pass, each told by itself from the key, the line and the clock |
| ClientPasses.StartExact | src/client/tui.c:704-721 | the state in which the loop starts |
| ClientPasses.ReadsExact | src/client/tui.c:509-809 | what a pass reads from the socket, and whether it replaces the list |
| ClientPasses.RunGoesOn | src/client/tui.c:721-904 | the loop goes on if and only if no pass presses Ctrl-C, completes EXIT, or finds the connection lost |
| ClientPasses.TimerNeedsMessage | src/client/tui.c:821-903 | over every run the periodic timer is restarted only together with a message sent |
| ClientPasses.ListsKeepComing | src/client/tui.c:831-837 | in every run a pass without a key sends a LIST if for 10 s no command has been completed and no LIST sent |
| ClientPasses.RefreshFollows | src/client/tui.c:530-837 | in every run a RUN, START, STOP or launch makes a refresh due 5 s later, which the first pass without a key from then on has sent, unless a newer one waits |
| ClientPasses.NoneBeforeInterval | src/client/tui.c:718-837 | in every run no periodic LIST is sent within 10 s of the start |
| ClientPasses.DialogIsTyping | src/client/tui.c:493-559 | the dialog's own editing is plain typing: ESC gives it up, Enter takes the text typed if there is any |
| ClientRuns.FramingLimits | src/client/tui.c:505-634 | each of the three framings is left whole by its buffers exactly up to a length, which for the RUN alias is the longest command there is |
| ClientRuns.MessagesWhole | src/client/tui.c:572-634 | in every run from the start every message sent is the whole command it stands for |
| ClientRuns.IdleOnTime | src/client/tui.c:821-837 | from any state whatever, a pass without a key leaves the last LIST under 10 s old and no refresh overdue |
| ClientRuns.PassOnTime | src/client/tui.c:785-838 | in every run, after each pass without a key the last LIST is under 10 s old and no refresh is overdue |
| ClientRuns.RunTimely | src/client/tui.c:718-903 | over every run from the start with a clock that does not go back, the timers' invariant holds at the last clock reading |
| ClientRuns.AutomaticListRate | src/client/tui.c:821-837 | in every run a periodic LIST comes 10 s or more after any automatic one, deferred ones are 5 s apart, and a window of w seconds holds at most w/5 + 2 of both together |
| ClientRuns.RefreshNotLost | src/client/tui.c:821-828 | from every moment of every run on, a waiting refresh ends only by being sent, not before it is due, or by being replaced with one due no earlier |
| ClientRuns.ArrowFillsWindow | src/client/tui.c:862-876 | after an arrow key the window shows as many rows as it can, however the list or the panel changed before |
| ClientRuns.EntryComesIntoView | src/client/tui.c:862-876 | from every state with the list focused, arrow keys alone make any entry visible if the terminal has at least 12 lines; with fewer no offset shows it |
| Tui.TuiState.StoreResponse | src/client/tui.c:652-671 | replacing the raw text, counting its lines and parsing it into the freed list gives the model's received state |
| Tui.LineCount | src/client/tui.c:657-666 | the loop counts the lines of the text |
| Tui.TuiState.Command | src/client/tui.c:572-694 | handling a command updates the state as the model says, in every branch |
| Tui.TuiState.Tick | src/client/tui.c:785-838 | a pass without a key receives and runs both timers as the model says |
| Tui.TuiState.RunDialog | src/client/tui.c:429-566 | the launch dialog's own editing loop sends what the model says |
| Tui.TuiState.Submit | src/client/tui.c:894-903 | a completed line is handled, the line emptied and the periodic timer restarted |
| Tui.TuiState.Pass | src/client/tui.c:783-903 | one pass of the loop is one step of the model |
| Tui.TuiState.Loop | src/client/tui.c:721-904 | the whole loop ends in the model's final state and draws in each pass the window of the state it starts from |
| Tui.TuiState.constructor | src/client/tui.c:202-239 | the state after the connection dialog, with or without a response |
| EndToEnd.TypeCommand | src/client/tui.c:894-900 | typing a text and Enter handles its upper-case form and sends its message |
| EndToEnd.TypedStopKillsThatPid | src/server/main.c:294-296 | for every pid from 2 to 2^31-1, typing STOP and its digits in any letter case sends one message, to which the server probes and, if the probe succeeds, kills exactly that pid |
| EndToEnd.FragmentedStop | src/server/main.c:265-277 | with only the first k digits received the server acts on the pid without its other digits, which is the pid meant if and only if all digits are there |
| EndToEnd.TypedStartArgument | src/client/input.c:86-88 | a START argument typed on the line arrives upper-cased, so it arrives as typed if and only if it has no lower-case letter |
| EndToEnd.LaunchedCommandRuns | src/client/tui.c:504-507 | the launch dialog's text arrives as entered, and a child that can be forked runs its first 15 words |
| EndToEnd.AliasEndToEnd | src/client/tui.c:584-593 | a RUN command, sent rewritten, reaches START with the argument it would have had unrewritten |
| EndToEnd.MessageIsOneLine | src/client/tui.c:632-634 | the server reads every message of the client whole, up to its newline |
| EndToEnd.CoalescedMessagesLost | src/server/main.c:265-267 | more bytes in the same chunk do not change the answer to a message, and get none |
| EndToEnd.FragmentKillsAnother | src/server/main.c:265-277 | with two digits of STOP 1234 received, process 12 is killed |
| EndToEnd.SleepUpperCased | src/client/input.c:86-88 | START sleep 100 arrives as a request for SLEEP 100 |
| EndToEnd.RunDelivered | src/server/main.c:265-316 | over a whole connection, from the dialog's LIST on and however the client's bytes are cut into chunks, the command lines of the chunks are its messages if and only if the chunks are the messages; then each gets its own answer, up to the one that ends the session |
| Delivery.DeliveredExact | src/server/main.c:265-267 | any non-empty one-line messages cut anyhow are each read, and nothing else, if and only if the chunks are the messages |
| Delivery.RequestsExact | src/server/main.c:265-277 | messages without blanks at their ends cut anyhow make their own requests, and no others, if and only if the chunks are the messages |
| Delivery.BlanksMoved | src/server/main.c:276-277 | with a blank before the second message, chunks that are not the messages make the same requests |
| Delivery.EachAnswered | src/server/main.c:265-315 | with a message in each chunk, each gets its own answer up to the farewell |
| Replies.RespondQuotesLines | src/server/main.c:43-311 | no reply quotes a word or command with a line break |
| Replies.WordingExact | src/server/main.c:72-173 | the sentences that tell what became of a process |
| Replies.WordingOfStopErrors | src/server/main.c:50-89 | the sentences that tell what went wrong with a STOP |
| Replies.WordingOfErrors | src/server/main.c:104-311 | the sentences that tell what went wrong otherwise |
| Replies.MoreLinesExact | src/server/main.c:171-310 | the lines that follow them |
| Replies.ReplyListsNothing | src/server/main.c:43-311 | no part of any reply but a process report has an entry for the client's parser |
| Replies.FailedReportListsNothing | src/server/main.c:23-26 | no part of the report of a failed `ps` has one either |
| Replies.ReportExact | src/server/main.c:286-287 | the reply is a process report exactly for a synonym of LIST in any letter case |
| Replies.NoBytesExact | src/server/main.c:28-37 | the only answer without a byte is that to LIST when `ps` prints nothing |
| Listing.RespondList | src/server/main.c:286-287 | the client's LIST message is answered with the bounded report |
| Listing.ListFraming | src/client/tui.c:632-634 | the command LIST is sent as that message |
| Listing.ReplyArrives | src/client/tui.c:202-809 | however a reply arrives, and whichever of the dialogs, RUN, commands and idle passes read its parts, the text shown is the part of it that the last shown read brought |
| Listing.ListPipeline | src/client/tui.c:202-809 | from `ps` to the client's list, in every reachable state that shows a part of the reply: the list is a run of the full output's entries, those after the line in which the part begins, only its last entry can be cut, and when the reply ends there only the entries before are lost |
| Listing.ListedInFull | src/client/tui.c:202-809 | when every line has an entry and fits one read, a reply whose end is shown is listed in full if and only if the output fits the server's buffer and the part shown begins in the heading |
| Listing.OtherAnswersEmptyList | src/client/tui.c:645-809 | in every reachable state that shows a part of the answer to a command that is no synonym of LIST, the list is empty |
| Listing.SecondPartReplaces | src/client/tui.c:202-809 | a reply in two parts, the first read by the connection dialog, of which the second alone is listed, without its first process |

## Left out

- Drawing, colours, prompts, status messages, the dialogs' layout and the cursor: display only; of the drawing only the choice of rows is kept.
- The system's error messages are parameters, each taken to be one line.
- Sockets, `select`, Winsock and shutdown by signal: receiving is an arbitrary byte chunk, nothing, an error or a closed connection; sending is an entry in a trace.
- The connection dialog's editing of address and port, and its retries: the model starts when a connection has been made and the first LIST sent; what the dialog reads is a parameter.
- The writing of replies other than the process report into the response buffer: a value stands for each format, and its text, cut as `snprintf` does, is a function of that value.
- Allocation failure, and the pid loop's overflow for digit runs beyond an `int`: pids in the parsed list are unbounded. The overflow of `atoi` is modelled as an arbitrary result.
- The state of `strtok` shared by the server's threads: each connection's splitting is taken as undisturbed by the others.
- `process_list_parse` without a list: it is a method of the list here.
- The blocked-command list is kept as a branch of START, but nothing is claimed about what it protects.
- The time passing inside `usleep` and `napms`: other steps may happen there, and clock readings may be any that do not go back.
- ProcessLists.ProcessList.VisibleRows: does not model the columns into which a row is formatted.
- Tui.TuiState.RunDialog: keys that run out without Enter or ESC are taken for a dialog that was left, because the dialog blocks for more.
- Scripts, build files, the demonstration commands and the documents.
