# Verified model of SinguGen's cores

SinguGen supervises an agent process, feeds messages to a Claude session, lets the agent reorganise
its memory while idle, keeps a kanban board and skills as files, and can update its own code. This
project models the parts of it that decide something, in Dafny, and proves what they keep over all
inputs, all interleavings and all runs. `dafny verify dfyconfig.toml` checks everything.

| file | models |
|---|---|
| `Supervisor.dfy` | the circuit breaker's pruned log and the restart loop it guards |
| `Agent.dfy` | the agent's queue, lifecycle, idle dreaming, drain and shutdown, as atomic steps in any interleaving and as a program that follows them |
| `Claude.dfy` | reading events, relaying them for one message, and the handler's view of a request |
| `Chunker.dfy` | splitting long messages (on bytes) |
| `Dreaming.dfy`, `Memory.dfy` | the dream-response format, its parser, and the update of the memory store |
| `Skills.dfy` | the skill document's printer and parser, and the directories of skills |
| `Kanban.dfy`, `KanbanPrompt.dfy` | the board's files, ids and operations, and the task list of each agent |
| `SelfUpdate.dfy` | the update pipeline against an arbitrary command runner |
| `Approval.dfy` | the approval queue under concurrent callbacks |
| `Text.dfy`, `Wrappers.dfy` | Go's `strings` functions, options and results |

How the surroundings enter the model:

- **Clock.** Every call takes the readings it makes; they never go back. Timers follow Go 1.23: stopping or
  resetting one leaves no stale tick.
- **Concurrency.** `Agent.Next` and `Approval.Next` are the atomic steps of all goroutines; a run is any sequence
  of enabled steps. The classes `Agent.Agent` and `Approval.ApprovalQueue` log the step each of their atomic
  sections takes, so what is proved of runs holds of them; the agent performs every run.
- **Environment.** Child lives, cancellations, command outputs, directory listings and write failures are
  parameters. Where Go ranges over a map, the model picks in arbitrary order.
- **Text** is a sequence of code points (well-formed UTF-8), except that the chunker works on bytes.

Where the code and its comments disagree, the model follows the code:

- The breaker's comment says it trips on *more than* `maxRestarts` restarts; it trips at `maxRestarts`
  (`internal/supervisor/circuitbreaker.go:8-9` and `:42`).
- `LoadAll` says it sorts alphabetically; it sorts paths, so `a-b.md` comes before `a.md`. `Memory.PathOrderIsNameOrder`
  says for any two names exactly when the two orders differ.
- `Run` is said to drain the remaining queue items before it returns; one accepted after the drain saw the queue empty
  is never served (`Agent.StoppedForGood`, `Agent.SomeRunLeavesResidue`).
- A dream response whose first end marker precedes its first start marker makes the parser's slice fail at run time;
  the model has this as the outcome `Panics`, and `Dreaming.PanicsExactlyWhenEndComesFirst` says exactly when.
- A callback is answered with the verdict that was pressed even when its action was already gone (`Approval.ApprovalQueue.HandleCallback`).
- A task whose title holds three dashes is added without complaint but not read back: the parser cuts its header at
  them (`Kanban.TaskRoundTrip`, `Kanban.DashesInTitle`).
- A slug is trimmed before it is cut to 30 characters, so a cut slug may end in a hyphen
  (`Kanban.SlugEndsInHyphenExactly`, `Kanban.CutSlugWithHyphen`).
- Board numbers are unique on the board, not over time: `Kanban.NumberIsNewExactly` says exactly when a number comes back,
  and `Kanban.NumberComesBack` gives a run.

## Model

| member | source | states |
|---|---|---|
| Supervisor.CircuitBreaker.Record | internal/supervisor/circuitbreaker.go:28-34 | the full history gains the reading; the kept log stays what can still count of it, and grows by at most one entry |
| Supervisor.CircuitBreaker.IsOpen | internal/supervisor/circuitbreaker.go:37-43 | open exactly when at least `maxRestarts` of all records since the last reset are not before now minus the window, although old records were dropped |
| Supervisor.CircuitBreaker.Reset | internal/supervisor/circuitbreaker.go:46-51 | log and history are empty |
| Supervisor.CircuitBreaker.Prune | internal/supervisor/circuitbreaker.go:54-63 | dropping from the front leaves as many entries as the full history counts within the window |
| Supervisor.Supervisor.Run | internal/supervisor/supervisor.go:50-92 | the loop on the pruned log starts, records and ends exactly as the loop that remembers every exit; its log never exceeds `maxRestarts` |
| Supervisor.RunEndsExactly | internal/supervisor/supervisor.go:51-91 | a run goes through the turns that go on and ends at the first that does not: cancelled before its check without a start, with an open breaker without a start, cancelled in the child with a start and no recorded exit, cancelled in the backoff with both |
| Supervisor.StartsAreSpread | internal/supervisor/supervisor.go:51-91 | starts `maxRestarts` apart in a run are more than a window apart in time |
| Supervisor.RateBound | internal/supervisor/supervisor.go:50-92 | any closed interval no longer than the window holds at most `maxRestarts` child starts, for any child lives, cancellations and earlier history |
| Supervisor.TripsExactly | internal/supervisor/supervisor.go:51-91 | from a fresh breaker and uncancelled, a run trips exactly at the first check that comes within a window of the exit `maxRestarts` turns earlier |
| Supervisor.CrashLoopTrips | internal/supervisor/supervisor.go:51-91 | a check after the `maxRestarts`-th exit within a window of the first exit ends the run after exactly `maxRestarts` starts |
| Supervisor.SpacedExitsNeverTrip | internal/supervisor/supervisor.go:51-91 | exits at least g apart with g * (maxRestarts - 1) above the window never trip the breaker |
| Agent.StepConserves | internal/agent/agent.go:82-89 | every step of every party keeps: accepted requests are completed, then in flight, then queued, in order, and the queue keeps its capacity |
| Agent.StepTells | internal/agent/agent.go:154-183 | every step keeps: the completed requests are, in order, those whose handler got exactly one completion, after the events the session gave, with an error exactly when sending failed or the last event is an error result |
| Agent.StepKeepsResidue | internal/agent/agent.go:186-195 | once the drain saw the queue empty, completed is what was accepted until then and the queue is what was accepted since |
| Agent.StepKeepsLives | internal/agent/agent.go:93-152 | the stored states follow Starting, Ready, rounds of Processing or Idle back to Ready, and Stopped last |
| Agent.StepKeepsIdle | internal/agent/agent.go:122-132 | every OnIdle comes a full timeout after the start of the run, the last finished request and the last OnIdle, with the queue seen empty |
| Agent.DreamsAreLate | internal/agent/agent.go:93-132 | in any run, a dream comes a full timeout after the beginning and after every completion and return from a dream before it, with nothing queued |
| Agent.DreamsWhenDue | internal/agent/agent.go:97-132 | with nothing to do, OnIdle is called as soon as the timeout has passed |
| Agent.NoDreamIfBusy | internal/agent/agent.go:122-132 | a tick that finds something queued brings no dream, and the timer is armed again |
| Agent.StepKeepsCancelled | internal/agent/agent.go:134-149 | only a cancelled agent drains or stops |
| Agent.RunKeeps | internal/agent/agent.go:82-195 | the whole invariant holds at every point of every interleaving |
| Agent.StoppedForGood | internal/agent/agent.go:134-149 | when stopped, the agent was cancelled, the only residue is what was accepted after the drain saw an empty queue, the hook ran exactly once if set, and nothing but submissions, clock and cancellation can follow, which complete nothing and call nothing |
| Agent.LateSubmissionStays | internal/agent/agent.go:82-149 | every run up to a drain of an empty queue goes on to one in which a request accepted after the queue was seen empty is still queued when the agent has stopped |
| Agent.SomeRunLeavesResidue | internal/agent/agent.go:82-149 | so, from its creation on, any agent has a run that ends stopped with a request accepted and never served |
| Agent.DrainServesAll | internal/agent/agent.go:186-195 | left alone, the drain completes everything queued, in order and whatever the session gives, and then sees the queue empty |
| Agent.StuckExactly | internal/agent/agent.go:105-151 | the goroutine has nothing to do exactly when it is done, or waits in its select with an empty queue, no due tick and no cancellation |
| Agent.WorkIsBounded | internal/agent/agent.go:93-195 | in any interleaving the goroutine takes at most four steps for each one of its surroundings, beyond a fixed number |
| Agent.CancellationStops | internal/agent/agent.go:134-149 | once cancelled, whatever happens, the agent takes a bounded number of steps and has one to take until it is done |
| Agent.CancelledStops | internal/agent/agent.go:134-149 | a cancelled agent left alone reaches the stopped state within that number of steps |
| Agent.Agent.constructor | internal/agent/agent.go:43-69 | a new agent is at the start of its script, Starting with an empty queue; a queue size of 0 means 64, and idle detection needs a positive timeout and a callback |
| Agent.Agent.Submit | internal/agent/agent.go:82-89 | accepted exactly when there is room, and then queued last; logged as one step |
| Agent.Agent.ProcessRequest | internal/agent/agent.go:154-183 | performs its part of the script exactly, to the completion of the request in hand or the end of the script; the completed request and the calls of its handler are recorded last |
| Agent.Agent.Drain | internal/agent/agent.go:186-195 | performs its part of the script exactly, until it has seen the queue empty or the script ends |
| Agent.Agent.Run | internal/agent/agent.go:93-152 | performs any script of enabled steps exactly, submissions after an empty drain included, and has returned at its end exactly when stopped |
| Agent.Perform | internal/agent/agent.go:58-152 | every run of the protocol is performed, step for step, by a new agent |
| Claude.ReadEvents | internal/claude/reader.go:15-58 | sends, in order, the events of the non-empty well-formed lines of a prefix of the stream: all of it unless the context is cancelled, and then up to that line |
| Claude.DecodedInOrder | internal/claude/reader.go:33-54 | each readable line yields its event at the place given by the readable lines before it |
| Claude.DecodedOnlyReadable | internal/claude/reader.go:33-54 | every event comes from a readable line, in its place |
| Claude.OthersAreSkipped | internal/claude/reader.go:37-46 | an empty or malformed line yields nothing |
| Claude.Session.Start | internal/claude/session.go:57-82 | starting a running session does nothing; otherwise it runs exactly when the launch succeeds |
| Claude.Session.Restart | internal/claude/session.go:171-176 | after a restart the session runs exactly when the launch succeeded, and keeps its session id |
| Claude.Session.Send | internal/claude/session.go:86-160 | fails exactly when not started or not writable; otherwise puts out what the relay's moves give, and leaves the session id of the delivered result or else of the last init event received |
| Claude.Undisturbed | internal/claude/session.go:111-156 | without timeout or cancellation the relay delivers the stream up to its first result, or all of it, and ends |
| Claude.Disturbed | internal/claude/session.go:111-156 | a disturbance after some delivered events ends the relay: a timeout adds the watchdog's error, a cancellation or a lost receiver nothing |
| Claude.WatchdogIsError | internal/claude/session.go:146-150 | what the watchdog adds is an error result |
| Claude.RelayedIDIs | internal/claude/session.go:120-140 | a delivered result that names a session decides the session id, otherwise the init events taken |
| Claude.TrackedIs | internal/claude/session.go:120-126 | of these the last one counts, and without one the id stays |
| Claude.RelayIsRelayed | internal/claude/session.go:111-156 | in any case a prefix of the stream comes out, at most the watchdog's error after it, with at most one result, which is last |
| Claude.ProcessRequest | internal/agent/agent.go:154-183 | the handler sees every event of the channel in order, then exactly one completion |
| Claude.CompletionIsTheLastEvent | internal/agent/agent.go:166-181 | when only the last event can be a result, it alone decides the completion's result and error |
| Claude.CallsAreWell | internal/agent/agent.go:158-181 | when only the last event can be a result, the handler gets the events and then a completion that says exactly what that event, or the failure to send, says |
| Claude.Exchange | internal/claude/session.go:86-160 | what one message gives is a prefix of the decoded stream and at most one watchdog error, a result only last; it fails exactly when not started or not writable; the session id is then unchanged, and otherwise that of the delivered result or the last init event received |
| Claude.HandleMessage | internal/agent/agent.go:154-183 | end to end: exactly these events, then one completion, with an error exactly when sending failed or the last event is an error result, which it is after a timeout |
| Chunker.CutPoint | internal/telegram/chunker.go:21-26 | the last line break strictly inside the window, or the window's end when there is none |
| Chunker.ChunkText | internal/telegram/chunker.go:11-42 | terminates with exactly the chunks of the specification; nothing for the empty text |
| Chunker.SpansBounded | internal/telegram/chunker.go:20-39 | every chunk is non-empty and at most `maxLen` long |
| Chunker.Lossless | internal/telegram/chunker.go:28-34 | the text is the chunks in order, with one line break after exactly those that one follows in the text |
| Chunker.CutAtLastBreak | internal/telegram/chunker.go:20-26 | wherever more than `maxLen` bytes are left, the chunk cut ends at the last line break of its window; it has full length exactly when there is none after the first byte |
| Chunker.CutExactlyIfFollowed | internal/telegram/chunker.go:20-39 | a chunk is cut in the loop exactly when another chunk, or only a line break, follows it |
| Chunker.PairsAreLong | internal/telegram/chunker.go:20-35 | any two neighbouring chunks cut in the loop are together at least `maxLen - 1` long, also when only a line break follows |
| Chunker.CountBound | internal/telegram/chunker.go:20-39 | k chunks need a text of at least floor((k-1)/2) * (maxLen-1) bytes |
| Memory.ValidateName | internal/memory/validate.go:8-24 | accepts exactly the names of 1 to 64 characters in [a-z0-9_-] that begin with a letter or digit |
| Memory.ValidNamesAre | internal/memory/validate.go:8-24 | the pattern of valid names, written out |
| Memory.DefaultsAreValid | internal/memory/store.go:14-50 | the default files have names the store accepts |
| Memory.Store.Init | internal/memory/store.go:34-50 | creates the missing default files empty and leaves existing content alone |
| Memory.Store.Load | internal/memory/store.go:53-67 | succeeds exactly for valid names with a file, with its content |
| Memory.Store.LoadAll | internal/memory/store.go:70-93 | every readable file exactly once with its content, in ascending path order |
| Memory.Store.Save | internal/memory/store.go:96-110 | overrides one file when the name is valid and the write succeeds, otherwise changes nothing |
| Memory.Store.Delete | internal/memory/store.go:113-127 | removes one existing file with a valid name, otherwise changes nothing |
| Memory.PathOrderIsNameOrder | internal/memory/store.go:69-83 | for any two names, path order is name order exactly when neither is the other followed by something that sorts, with the suffix, before the suffix |
| Memory.OvertakesByHyphen | internal/memory/store.go:69-83 | for names the store accepts that something begins with a hyphen |
| Memory.NotAlphabetical | internal/memory/store.go:69-83 | `a-b` and `a b` are listed before `a` |
| Dreaming.ParseDreamResponse | internal/dreaming/parser.go:24-80 | the early exits and the loop compute the parse that the lemmas below are about |
| Dreaming.ParseWithoutBody | internal/dreaming/parser.go:24-42 | an empty response, one with the no-change marker, and one without a start or an end marker each have their own outcome and write nothing |
| Dreaming.NoBracketsNoFiles | internal/dreaming/parser.go:44-78 | a body without closing brackets holds no files and is refused |
| Dreaming.PartIsNamed | internal/dreaming/parser.go:50-72 | a part is read as the trimmed text before its first closing brackets, without the suffix, and the trimmed text after them |
| Dreaming.CollectFiles | internal/dreaming/parser.go:47-79 | the loop reads the parts in order, later files override earlier ones, the first invalid name ends it |
| Dreaming.UpdatesAreSaveable | internal/dreaming/parser.go:65-72 | every name of an update passes the store's own check, and `changed` means there are files |
| Dreaming.PanicsExactlyWhenEndComesFirst | internal/dreaming/parser.go:34-44 | the slice fails at run time exactly when, without a no-change marker, both markers occur and the first end precedes the first start |
| Dreaming.EndThenStartPanics | internal/dreaming/parser.go:34-44 | the end marker directly before the start marker is such a response |
| Dreaming.RoundTrip | internal/dreaming/parser.go:24-80 | rendering valid names with trimmed, marker-free contents in the prompted format, inside marker-free text, and parsing gives back those files in writing order |
| Dreaming.InvalidNameRefusesAll | internal/dreaming/parser.go:65-72 | a rendering with an invalid file name is refused as a whole, with the first such name |
| Dreaming.LastFileCounts | internal/dreaming/parser.go:47-72 | of several files with one name the last one counts |
| Dreaming.RoundTripAnyOrder | internal/dreaming/parser.go:24-80 | for a map of files the result is that map, whatever the writing order |
| Dreaming.PromptedFormatIsRendering | internal/dreaming/dreamer.go:108-114 | the example in the prompt is itself such a rendering |
| Dreaming.ReplyIs | internal/dreaming/dreamer.go:55-67 | an error result anywhere fails the dream; otherwise the last result counts, and an empty one, or none, fails |
| Dreaming.ReadReply | internal/dreaming/dreamer.go:55-67 | the loop over the events gives this reply |
| Dreaming.Dreamer.Dream | internal/dreaming/dreamer.go:36-87 | the store becomes the old store overridden by the reply's files whose write succeeds; any other outcome leaves it unchanged, and each failure gives its own outcome |
| Dreaming.Dreamer.SaveAll | internal/dreaming/dreamer.go:79-83 | saving in any order overrides exactly the writable files and keeps omitted ones |
| Dreaming.DreamOfRendering | internal/dreaming/dreamer.go:36-87 | a session whose last result is the rendering of some files makes the dream write exactly those files |
| Skills.ParseSkillMD | internal/extensions/skills.go:126-149 | the loop over header lines computes the parse that the lemmas below are about |
| Skills.ParseFailsExactly | internal/extensions/skills.go:127-130 | a text is refused if and only if the dashes do not occur twice in it, one after the other |
| Skills.LastLineCounts | internal/extensions/skills.go:135-146 | of several header lines with one key the last one sets the field, to what follows the key |
| Skills.PrintableReadsBack | internal/extensions/skills.go:126-149 | a printable skill comes back from its own document under any directory name, even if its content holds `---` |
| Skills.ParsedIsPrintable | internal/extensions/skills.go:132-148 | a parsed skill has the directory's name or a clean one, a clean description and trimmed content |
| Skills.NormalForm | internal/extensions/skills.go:126-149 | printing a parsed skill and parsing it again gives the same skill |
| Skills.ReadLinesSet | internal/extensions/skills.go:137-146 | header lines change a field exactly when one of them begins with its key |
| Skills.ReadNameExactly | internal/extensions/skills.go:132-146 | of all names without dashes, of one line or more, exactly the surviving ones are read back |
| Skills.RoundTripExactly | internal/extensions/skills.go:30-44 | an installed skill reads back as given if and only if its name survives (a name of one line, if it has no dashes and is blank or has no trailing white space), its description is one line without dashes and trailing white space, and its content is trimmed |
| Skills.ComponentIsChild | internal/extensions/skills.go:31-31 | joined to the base, the name of one directory is that directory inside it |
| Skills.PathInTwo | internal/extensions/skills.go:31-31 | a path leads where its second half leads from where its first half leads |
| Skills.SpecialNames | internal/extensions/skills.go:31-31 | nothing and a dot stay, two dots go up, but not above the root |
| Skills.DotsAreHidden | internal/extensions/skills.go:60-63 | exactly the directories whose name begins with a dot are not listed, disabled ones among them |
| Skills.SkillManager.Install | internal/extensions/skills.go:30-44 | for any name, makes the directory that the name leads to, with those it is in, and writes the printed document there; nothing else changes |
| Skills.SkillManager.List | internal/extensions/skills.go:47-81 | each skill is listed once for every visible directory in the base whose document reads as it, and no other, in the order of the directories |
| Skills.SkillManager.Disable | internal/extensions/skills.go:84-92 | for any name, renames where it leads out of sight, exactly if the rename can be made |
| Skills.SkillManager.Enable | internal/extensions/skills.go:95-103 | renames it back under the same conditions |
| Skills.RenamedAt | internal/extensions/skills.go:87-87 | after a rename each path holds what was where it comes from; the source and all inside it has moved |
| Skills.RenameBack | internal/extensions/skills.go:87-98 | every rename that can be made can be undone |
| Skills.InstalledAt | internal/extensions/skills.go:30-81 | after an installation the listing finds the document in the directory the name leads to, and elsewhere what it found before |
| Skills.InstalledIsActive | internal/extensions/skills.go:30-81 | under the name of one directory, a skill is then listed as given if and only if it survives printing and is not hidden |
| Skills.NamelessIsNeverListed | internal/extensions/skills.go:30-81 | a skill without a name is written into the base directory and never listed |
| Skills.DisableEnable | internal/extensions/skills.go:84-103 | for the name of a directory in the base, disabling takes exactly that directory from the listing, and enabling restores the state |
| Kanban.AtoiOfPad3 | internal/kanban/task.go:87-97 | zero-padded printing is undone by the 64-bit decimal reading |
| Kanban.Pad3IsWide | internal/kanban/task.go:97-97 | numbers below a thousand have three digits, others are printed as they are |
| Kanban.AtoiReadsNumbers | internal/kanban/task.go:88-89 | digits with or without a sign are read, within 64 bits |
| Kanban.AtoiReadsNothingElse | internal/kanban/task.go:88-89 | anything else is no number |
| Kanban.NumberNeedsSuffix | internal/kanban/task.go:80-91 | files without the suffix, and those that begin with a hyphen, carry no number |
| Kanban.NumberOfNewId | internal/kanban/task.go:82-97 | the number in a new file name is read back from it, whatever the slug |
| Kanban.NewIdSays | internal/kanban/board.go:43-48 | an id is the padded number, and the slug after a hyphen if there is one |
| Kanban.NumbersWrapAround | internal/kanban/task.go:90-97 | behind the largest 64-bit number comes an id with a minus, which carries no number |
| Kanban.NextID | internal/kanban/task.go:59-98 | scanning directories and files in any order gives the number after the largest one present |
| Kanban.Slugify | internal/kanban/board.go:217-234 | the slug characters of the lower-cased title without outer hyphens, cut to 30 |
| Kanban.SlugCharIs | internal/kanban/board.go:218-226 | letters and digits stay, spaces, hyphens and underscores become hyphens, all else is dropped |
| Kanban.SlugOfLowered | internal/kanban/board.go:217-226 | each character of a title counts as its lower case does |
| Kanban.SlugOfWords | internal/kanban/board.go:217-227 | the slug characters of two words are theirs with a hyphen between |
| Kanban.SlugEndsInHyphenExactly | internal/kanban/board.go:228-233 | a slug ends in a hyphen if and only if it was cut and its thirtieth character is one |
| Kanban.CutSlugWithHyphen | internal/kanban/board.go:217-234 | 29 letters, a hyphen and a letter make such a title |
| Kanban.TaskRoundTrip | internal/kanban/task.go:26-56 | a task is read back from its file if and only if its encoded header holds no dashes and its description is trimmed |
| Kanban.DashesInTitle | internal/kanban/task.go:26-56 | a title with three dashes, written as it is, makes the file read back wrongly |
| Kanban.ParseTaskFails | internal/kanban/task.go:26-40 | a file is refused for its frontmatter if and only if the dashes do not occur twice, and for its header if and only if that does not decode |
| Kanban.Board.Init | internal/kanban/board.go:29-36 | creates the missing columns and leaves existing ones alone |
| Kanban.Board.FindTask | internal/kanban/board.go:174-184 | the task in the first column that holds it, or the error of reading it, or not found |
| Kanban.Board.Add | internal/kanban/board.go:39-69 | writes the serialised task under the next number and the title's slug into the backlog |
| Kanban.Board.Move | internal/kanban/board.go:80-97 | succeeds exactly for a readable task and an existing column; then its file is in that column |
| Kanban.Board.Delete | internal/kanban/board.go:124-135 | removes the file of a readable task |
| Kanban.StepKeeps | internal/kanban/board.go:39-135 | every operation keeps the four columns with positive, pairwise distinct numbers; an addition takes the number after the largest |
| Kanban.RunIsWellFormed | internal/kanban/board.go:39-135 | so does every run from `Init` |
| Kanban.IdsInOneColumn | internal/kanban/board.go:174-184 | in every run each id is in at most one column |
| Kanban.AdditionsCountUp | internal/kanban/task.go:59-98 | in a run without deletions the n-th addition gets the number n |
| Kanban.NumberIsNewExactly | internal/kanban/task.go:59-98 | a new number was never given before exactly when the highest number ever given is still on the board |
| Kanban.NumberComesBack | internal/kanban/task.go:59-98 | after adding a task and deleting it, the next addition gets the same number |
| Kanban.AddedIsFound | internal/kanban/board.go:39-69 | an added task was not there before, is found in the backlog with its content, and nothing else changes |
| Kanban.AddThenGet | internal/kanban/board.go:39-78 | an added task is then read back from the backlog under its id if and only if its encoded header holds no dashes and its description is trimmed |
| Kanban.AddThenDelete | internal/kanban/board.go:39-135 | deleting a readable task just added gives back the board as it was |
| Kanban.MovedIsFound | internal/kanban/board.go:80-97 | a moved task is found in its new column with its content, and nothing else changes |
| Kanban.DeletedIsGone | internal/kanban/board.go:124-135 | a deleted task is found no more, and nothing else changes |
| Kanban.MoveKeepsContents | internal/kanban/board.go:80-97 | a move preserves the multiset of ids and contents over all columns |
| KanbanPrompt.ListColumn | internal/kanban/board.go:186-215 | exactly the readable task files of a column, each once, in the order of the listing |
| KanbanPrompt.LineTells | internal/kanban/board.go:158-163 | a line tells the id, the title, the column's name, and whether the task is assigned to the reader |
| KanbanPrompt.FormatColumn | internal/kanban/board.go:151-164 | the lines of exactly the tasks shown to the agent, in order, each with its column and label |
| KanbanPrompt.ShownInOrder | internal/kanban/board.go:151-164 | what is shown of a column keeps the order of its tasks |
| KanbanPrompt.FormatForAgent | internal/kanban/board.go:140-172 | the text is the heading and the agent's lines in some order of the columns, or empty if there are none |
| KanbanPrompt.ShownAllCount | internal/kanban/board.go:146-165 | an agent's list holds each item as often as the board lists it if it is the agent's and not done, and otherwise not |
| KanbanPrompt.ColumnOrderDoesNotMatter | internal/kanban/board.go:146-165 | the multisets of shown items and of their lines are the same for every order of the columns |
| KanbanPrompt.RosterPartitions | internal/kanban/board.go:147-165 | over distinct named agents the lists, each in any column order, together hold each active task exactly as often as the board if its owner is among them, and otherwise not |
| KanbanPrompt.ExactlyOneReader | internal/kanban/board.go:147-165 | a listed task that is not done and unassigned or assigned within the roster is in exactly one agent's list, in whatever column orders |
| KanbanPrompt.DoneIsShownToNobody | internal/kanban/board.go:147-149 | a task that is done is in no list |
| SelfUpdate.TouchesIsComponentPrefix | internal/selfupdate/validate.go:66-72 | the string test means that the directory's path components begin the file's |
| SelfUpdate.CheckProtectedDirs | internal/selfupdate/validate.go:61-75 | passes exactly when no file is in a protected directory, and otherwise names the first one that is and the first directory that protects it |
| SelfUpdate.ArgvTellsCommand | internal/selfupdate/git.go:20-78 | different commands of the model are different command lines, so the trace says what was run |
| SelfUpdate.CommandLines | internal/selfupdate/git.go:20-78 | the command lines, as they are run |
| SelfUpdate.OutputIsTrimmed | internal/selfupdate/git.go:21-27 | what a command is taken to say is its output without the white space at the ends, or nothing if it failed |
| SelfUpdate.ListedFilesAreLines | internal/selfupdate/git.go:30-42 | the listed files are the lines of the trimmed output, none if it is blank |
| SelfUpdate.Updater.Validate | internal/selfupdate/validate.go:30-58 | build, vet and test in order, stopping at the first failure |
| SelfUpdate.Updater.CommitAll | internal/selfupdate/git.go:45-53 | staging, then committing only if staging succeeded |
| SelfUpdate.Updater.Apply | internal/selfupdate/updater.go:52-105 | against any runner the issued commands are the pipeline up to the first one it may not reach; it pushes exactly after a commit, with auto-push on and a branch set; flags, diff, hash and error follow from how far it went, and the error is that of the diff exactly when the diff failed |
| SelfUpdate.StopsWhere | internal/selfupdate/updater.go:52-105 | where it stops says which command failed, or that there was nothing to update, a protected file, or no push wanted |
| SelfUpdate.CommittedExactly | internal/selfupdate/updater.go:52-105 | committed exactly when diff, build, vet, test, add and commit succeeded, files were listed and none lies in a protected directory by its components |
| Approval.StepKeeps | internal/telegram/approval.go:41-107 | every step keeps each recorded action in exactly one of pending, approved and rejected, and runs only approved ones, once |
| Approval.OthersUntouched | internal/telegram/approval.go:41-107 | a step concerns its own action only: every other is pending, decided, waiting or run as before |
| Approval.RunKeeps | internal/telegram/approval.go:41-107 | so does every interleaving of requests, approvals and rejections |
| Approval.DecidedOnce | internal/telegram/approval.go:72-107 | a rejected action never runs, no action runs twice, and an approved one has run unless its callback is still on the way |
| Approval.FirstDecides | internal/telegram/approval.go:72-107 | of an approval and a rejection the first to take the lock decides, and the other finds nothing |
| Approval.ButtonsParse | internal/telegram/approval.go:44-49 | a button's data is read back as its verdict and id, whatever the id |
| Approval.OnlyButtonsParse | internal/telegram/approval.go:110-131 | and only such data is understood |
| Approval.ApprovalQueue.Request | internal/telegram/approval.go:41-69 | records the action exactly when its message was sent |
| Approval.ApprovalQueue.Approve | internal/telegram/approval.go:72-91 | runs a pending action once and removes it, whether or not it succeeds, and leaves every other action where it is |
| Approval.ApprovalQueue.Reject | internal/telegram/approval.go:94-107 | removes a pending action without running it, and leaves every other action where it is |
| Approval.ApprovalQueue.HandleCallback | internal/telegram/approval.go:110-131 | acts on well-formed data only, and answers with the verdict pressed |

## Left out

- Supervisor.Supervisor.Run: the restart token and its watcher goroutine, and the length of the backoff; a child may end at any time for any reason.
- Agent.Agent.Run: the shutdown hook's own timeout; what the session gives for a request is part of the script, under the guarantee of `Claude.Exchange`.
- Claude.ReadEvents: the scanner's buffer and its limit on line length (`lines` is what the scanner yields), and events split between the readers of successive messages.
- Claude.Session.Send: how long the watchdog waits; a timeout may come at any point, also while events are arriving.
- Claude.Exchange: a relay whose script ends early is taken to stop there.
- Claude.Session.Start: the process itself, its pipes and its argument list.
- Chunker.ChunkText: a `maxLen` below 1 on a non-empty text, where the loop need not end; character boundaries inside a chunk.
- Memory.Store.LoadAll: globbing and sorting themselves; the listing is given in path order.
- Dreaming.Dreamer.Dream: the wording of the prompt apart from the response format; a failed write leaves the file as it was.
- Skills.SkillManager.List: `Archive` and `IsInstalled`.
- Skills.SkillManager.Install: I/O failures, plain files in the way, links, and a base directory that is not an absolute path.
- Kanban.Board.Add: I/O failures other than a missing backlog; the date's format.
- Kanban.Board.Move: directory names that alias others (empty, `.`, with separators), ids with path separators, and failing renames between existing directories.
- Kanban.TaskRoundTrip: the YAML library; it is taken to write whole lines that it decodes to the header again.
- Kanban.RunIsWellFormed: runs with more additions than a 64-bit number can count, where the next number wraps around.
- SelfUpdate.Updater.Apply: the validation's output text and duration, the commit message's date, and `RevertLast`.
- Approval.ApprovalQueue.Request: random ids are taken to be fresh; a repeated id would replace the earlier action.
- Telegram, MTProto, HTTP and web-app layers, HMAC, JSON and query codecs: I/O and wrappers over libraries.
- Process launching, signals and tunnels: foreign effects.
- The agent pool, the message bus, routing, configuration and prompts: lookups, defaults and concatenation that would add only easy members.
