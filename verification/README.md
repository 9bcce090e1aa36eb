# collegamento: request/response correlation, modelled in Dafny

collegamento is a small Python package for inter-process communication.
A client process sends requests to a worker process over one queue. The
worker answers over a second queue. Each message carries an id in
`[1, id_max]` that the client picks at random among the free ids. Every
command the client can request is registered in a command table, either as
a bare function or as a pair `(function, allows_multiple_requests)`. The
package comes in three generations:

- **The authoritative pair** (`client_server/server.py`, `client_server/client.py`,
  `client_server/utils.py`).
  - **Worker.** It keeps, per command, a list of pending requests and their ids.
    Each pass of `run_tasks` does four things:
    - it drains the request queue;
    - it cancels every id seen this pass that no pending request carries;
    - it sorts the pending requests stably by `command_sort_func`, so priority commands come first;
    - it runs them one after another.

    A registration (`add-command`) is applied as soon as it is read.
  - **Client.** It records the ids it has sent, keeps per command the id of the
    latest request (0 once answered), and stores the answers until
    `get_response` collects them.
- **The file variant** (`files_variant.py`). The client keeps a table of file
  contents and mirrors each change to the worker as a `FileNotification`
  request. The worker keeps its own table. It runs notifications before any
  other request, and it substitutes the stored contents for the `file` field
  of any other request.
- **The one-slot variant** (`simple_client_server/server.py`, `client.py`,
  `misc.py`). Each command keeps only its newest request. The worker answers
  notifications immediately. A registration is applied when it is executed.
- **The rewrite in progress** (`simple_client_server/new_impl.py`). Its worker
  brings the list-based bookkeeping and the priority schedule into the newer
  package without an `add-command` branch in `parse_line`. Its client stops
  after allocating an id.

## How the model is built

Each worker and each client is a Dafny `class` whose fields are those of the
Python object. Its methods update those fields in place. Each method is
proved against a pure specification function over a snapshot of those
fields:

| specification module | class |
|---|---|
| `DispatchSpec` | `Dispatch.Server` |
| `LedgerSpec` | `Correlation.Client` |
| `SimpleSpec` | `SimpleWorker.SimpleServer` |
| `SimpleLedgerSpec` | `SimpleCorrelation.SimpleClient` |
| `DraftSpec` | `DraftWorker.DraftServer` |

The class for the draft client, `DraftCorrelation.DraftClient`, has no
specification module. The pass-level promises are stated as lemmas about
those functions, in `Accounting`, `SimpleAccounting`, `DraftAccounting` and
`FileReplay`. They cover three things: every message read in a pass gets
exactly one response, only the newest request per command runs, and the
execution order.

Python exceptions are values: `Status`, `Result` and `Error`. Every error is
kept in the model, including a missing dict key, an absent list element, an
unhashable lookup and the package's own CollegamentoError. They are not
turned into preconditions.

User handlers are opaque. They are a parameter `userFn` applied to a handler
key and the request. The queues are sequences: the messages read in one pass
are a parameter, and the response queue is the sequence of everything put on
it. Dict iteration order is kept as an explicit `order` list next to the maps.

## Model

| member | source | states |
|---|---|---|
| Messages.Merge | collegamento/client_server/client.py:132-137 | `dict.update`: every caller key outside the envelope wins over the built one; a caller `id` (int), `type` or `command` (str) replaces the envelope's; the free fields are exactly the union of both maps minus the envelope names |
| Messages.MergeKeepsEnvelope | collegamento/client_server/client.py:132-137 | a caller map naming no envelope key leaves id, type and command as the client built them and adds its entries |
| Messages.Normalise | collegamento/client_server/client.py:65-73 | a bare function becomes `(function, False)`; a pair is kept as given |
| Messages.SimpleResponse | collegamento/client_server/server.py:57-63 | `simple_id_response` carries only the id and the cancellation flag: no command, no result |
| Messages.RemoveFirst | collegamento/client_server/client.py:149 | `list.remove`: ValueError exactly when the value is absent; otherwise exactly one occurrence fewer |
| Messages.RemoveFirstOrder | collegamento/client_server/client.py:149 | `list.remove` takes out the first occurrence, at `list.index`, and keeps every other element in its order |
| Messages.IndexOf | collegamento/client_server/server.py:23 | `list.index` returns the first position holding the value |
| Scheduling.CommandSortKey | collegamento/client_server/server.py:16-28 | a priority command gets `(False, its first index)`, any other `(True, 0)` |
| Scheduling.PriorityOrder | collegamento/client_server/server.py:16-28 | every priority command sorts strictly before every other; priority commands sort by rank; non-priority commands tie |
| Scheduling.SortByKey | collegamento/client_server/server.py:146-151 | `sorted` returns a permutation of its input |
| Scheduling.SortIsSorted | collegamento/client_server/server.py:146-151 | the sorted schedule is ordered by the key |
| Scheduling.SortIsStable | collegamento/client_server/server.py:146-151 | among requests with equal keys the sort keeps arrival order |
| Scheduling.SortKeepsCommandOrder | collegamento/client_server/server.py:146-151 | one command's requests leave the sort in the order they entered |
| FileTable.UpdateFiles | collegamento/files_variant.py:21-28 | a truthy `remove` pops the file (KeyError if absent); otherwise `contents` is stored; KeyError for a missing field; every other file unchanged |
| FileTable.Substitute | collegamento/files_variant.py:117-120 | a non-notification request naming a file gets the stored contents in `file` (KeyError if the worker lacks it); any other request passes unchanged |
| DispatchSpec.Initial | collegamento/client_server/server.py:48-51 | the constructor gives every command empty pending lists; the state is valid and idle |
| DispatchSpec.Register | collegamento/client_server/server.py:74-82 | registration installs the entry and empties the name's lists; a new name joins the end of the dict order |
| DispatchSpec.RegisterKeepsValid | collegamento/client_server/server.py:74-82 | registration keeps the bookkeeping consistent |
| DispatchSpec.ParseStep | collegamento/client_server/server.py:65-91 | `parse_line` keeps the bookkeeping consistent and never drops a command |
| DispatchSpec.AddCommandStep | collegamento/client_server/server.py:74-82 | the `add-command` branch keeps the bookkeeping consistent and only adds commands |
| DispatchSpec.RecordStep | collegamento/client_server/server.py:84-91 | an ordinary request leaves the command table alone and keeps the bookkeeping consistent |
| DispatchSpec.Record | collegamento/client_server/server.py:84-91 | the id joins the seen ids; table and dict order unchanged |
| DispatchSpec.RecordedList | collegamento/client_server/server.py:86-91 | after recording, the command's id list matches its request list, holds only its requests, and has exactly one element for a single-request command |
| DispatchSpec.RecordKeepsValid | collegamento/client_server/server.py:84-91 | recording keeps the bookkeeping consistent |
| DispatchSpec.DrainAll | collegamento/client_server/server.py:134-135 | the drain loop keeps the bookkeeping consistent |
| DispatchSpec.DrainKeepsCommands | collegamento/client_server/server.py:134-135 | draining never removes a command |
| DispatchSpec.DrainFailurePersists | collegamento/client_server/server.py:134-135 | an exception while draining a prefix ends the whole drain with that exception |
| DispatchSpec.StaleResponses | collegamento/client_server/server.py:93-106 | exactly the seen ids that no pending request carries are answered, as cancelled and commandless |
| DispatchSpec.StaleResponsesStep | collegamento/client_server/server.py:100-104 | the first seen id is answered exactly when it is not accepted, before the rest |
| DispatchSpec.Answer | collegamento/client_server/server.py:108-127 | the response has the request's id and command, is cancelled exactly when the command is unknown, and carries the handler's result otherwise; the built-in `update_files` raises TypeError on the base worker, and only the file worker's table ever changes |
| DispatchSpec.AnswerAll | collegamento/client_server/server.py:153-158 | one response per scheduled request, with its id and command, in schedule order |
| DispatchSpec.Cleared | collegamento/client_server/server.py:106 | after a pass every pending list is empty and no id is seen; table and order kept |
| DispatchSpec.Settle | collegamento/client_server/server.py:137-158 | cancel then execute: the worker ends idle and consistent, and raises exactly when a handler raises |
| DispatchSpec.RunPass | collegamento/client_server/server.py:130-158 | an empty queue changes nothing; a non-empty one leaves the worker idle and consistent |
| DispatchSpec.RetireId | collegamento/client_server/server.py:128 | KeyError for a command without lists, ValueError for an id not pending; otherwise exactly one occurrence goes and every other list is untouched |
| DispatchSpec.Handle | collegamento/client_server/server.py:108-128 | the answer goes on the queue before the id is retired; an exception in the handler puts nothing on the queue |
| DispatchSpec.RetireRequest | collegamento/client_server/server.py:158 | KeyError or ValueError exactly when the request is not pending; otherwise only that list changes |
| DispatchSpec.FlattenWithCommand | collegamento/client_server/server.py:139-144 | filtering the flattened pending requests by a command gives back that command's list |
| DispatchSpec.SchedulePending | collegamento/client_server/server.py:139-151 | at the start of the execute loop each command's pending lists are exactly its part of the schedule |
| DispatchSpec.RetireHead | collegamento/client_server/server.py:153-158 | the head of the schedule heads its command's lists, so both removals succeed |
| DispatchSpec.PendingAdvance | collegamento/client_server/server.py:153-158 | after one iteration the pending lists track the rest of the schedule |
| DispatchSpec.ExecMatchesAnswers | collegamento/client_server/server.py:153-158 | the loop's removals never fail: it raises exactly when an answer raises, and otherwise empties every list and queues the answers of `AnswerAll` |
| Accounting.PendingIds | collegamento/client_server/server.py:94-98 | `accepted_ids` has one id per pending request |
| Accounting.ParseStepAccount | collegamento/client_server/server.py:65-91 | one `parse_line` either answers the message's id at once or adds it to the seen ids |
| Accounting.DrainAccount | collegamento/client_server/server.py:134-135 | over the drain, drained ids = answered ids + seen ids (as multisets) |
| Accounting.StaleSplit | collegamento/client_server/server.py:93-106 | the stale cancellations and the accepted ids together make up the seen ids |
| Accounting.SortIds | collegamento/client_server/server.py:146-151 | sorting neither adds nor drops an id |
| Accounting.SettleAccount | collegamento/client_server/server.py:137-158 | cancelling and executing answer each seen id exactly once |
| Accounting.ExactlyOneResponse | collegamento/client_server/server.py:130-158 | a pass from the idle state over messages with distinct ids answers each id exactly once and no other id |
| Dispatch.Server.constructor | collegamento/client_server/server.py:34-51 | the fields equal `DispatchSpec.Initial`; no priority commands; nothing queued |
| Dispatch.Server.FileServer | collegamento/files_variant.py:102-115 | the file worker: empty file table, `FileNotification` as the only priority command, substitution on |
| Dispatch.Server.SimpleIdResponse | collegamento/client_server/server.py:57-63 | appends exactly one `SimpleResponse` to the queue |
| Dispatch.Server.ParseLine | collegamento/client_server/server.py:65-91 | state and queue after the call are those of `DispatchSpec.ParseStep`; on an exception nothing is queued |
| Dispatch.Server.ParseAddCommand | collegamento/client_server/server.py:74-82 | the registration branch, as `DispatchSpec.AddCommandStep`, answering one cancelled response |
| Dispatch.Server.RegisterCommand | collegamento/client_server/server.py:78-80 | the fields become `DispatchSpec.Register` of the old ones |
| Dispatch.Server.RecordRequest | collegamento/client_server/server.py:84-91 | the id is appended to the seen ids even when the lookup then raises; on success the fields are `DispatchSpec.RecordStep` |
| Dispatch.Server.CancelOldIds | collegamento/client_server/server.py:93-106 | the queue gets `DispatchSpec.StaleResponses` of the seen and pending ids; the seen ids are forgotten |
| Dispatch.Server.HandleRequest | collegamento/client_server/server.py:108-128 | fields after the call are `DispatchSpec.Handle` (so `update_files` on the base worker raises TypeError and queues nothing); the file table and queue change only when the answer succeeds |
| Dispatch.Server.RunTasks | collegamento/client_server/server.py:130-158 | state, file table and queue after the pass are those of `DispatchSpec.RunPass` |
| Dispatch.Server.DrainQueue | collegamento/client_server/server.py:134-135 | state and queue after the loop are those of `DispatchSpec.DrainAll` |
| Dispatch.Server.SettleTasks | collegamento/client_server/server.py:137-158 | state and queue after cancel-and-execute are those of `DispatchSpec.Settle` |
| Dispatch.Server.ExecutePhase | collegamento/client_server/server.py:139-158 | the sort and the loop produce `DispatchSpec.AnswerAll` on the schedule and leave `DispatchSpec.Cleared` |
| Dispatch.Server.ExecuteSchedule | collegamento/client_server/server.py:153-158 | the loop over the schedule empties every list and queues the answers in order |
| Dispatch.Server.ExecuteAll | collegamento/client_server/server.py:153-158 | the loop's effect is `DispatchSpec.ExecFrom`, step for step |
| LedgerSpec.Setup | collegamento/client_server/client.py:54-73 | every command is normalised and gets an empty answer buffer; no id outstanding |
| LedgerSpec.FreeIdExists | collegamento/client_server/client.py:111-114 | with fewer than `id_max` outstanding ids some id in `[1, id_max]` is free |
| LedgerSpec.FreeIdIff | collegamento/client_server/client.py:111-114 | the rejection loop can stop exactly when fewer than `id_max` ids are outstanding; otherwise every id is taken |
| LedgerSpec.AppendFresh | collegamento/client_server/client.py:111-114 | appending a fresh id keeps the ids distinct and in range |
| LedgerSpec.RequestMessage | collegamento/client_server/client.py:132-137 | with no envelope key among the kwargs the message is the envelope plus the kwargs |
| LedgerSpec.Absorb | collegamento/client_server/client.py:146-167 | ValueError (nothing changed) for an id not outstanding; otherwise exactly one occurrence is released; table and buffer keys unchanged |
| LedgerSpec.AbsorbKeepsValid | collegamento/client_server/client.py:146-167 | parsing keeps the ids distinct and in range and releases an outstanding id for good |
| LedgerSpec.AbsorbAll | collegamento/client_server/client.py:169-172 | `check_responses` leaves nothing unread unless a parse raises |
| LedgerSpec.AbsorbAllKeepsValid | collegamento/client_server/client.py:169-172 | reading every answer keeps the ledger valid |
| LedgerSpec.AllReleased | collegamento/client_server/client.py:146-172 | when every outstanding id is answered once and all answers are read, no id is outstanding |
| LedgerSpec.Take | collegamento/client_server/client.py:181-191 | the buffer is emptied; None when it was empty, the first buffered answer (`response[0]`) for a single-request command, the rest being discarded; the whole list otherwise |
| LedgerSpec.TakeTwice | collegamento/client_server/client.py:181-191 | a second read with nothing new in between returns None |
| LedgerSpec.RequestAnswered | collegamento/client_server/client.py:139-163 | request then answer: the id is released, the answer is appended to the buffer, the command marked answered, and a multi-request id mapping dropped |
| LedgerSpec.AbsorbMulti | collegamento/client_server/client.py:159-164 | an answer for a multi-request command is appended and its id mapping popped |
| LedgerSpec.AddCommandAnswered | collegamento/client_server/client.py:204-218 | the worker's cancelled answer to a registration only releases its id |
| LedgerSpec.AddCommandAccepted | collegamento/client_server/server.py:74-82 | the worker installs exactly the entry the client installed and answers one cancellation |
| LedgerSpec.TwoRequestsTwoResponses | collegamento/client_server/client.py:3-14 | two requests to a multi-request command, both answered, read back as a two-element list in answer order |
| Correlation.Client.constructor | collegamento/client_server/client.py:44-73 | the fields equal `LedgerSpec.Setup`; queues empty |
| Correlation.Client.CreateMessageId | collegamento/client_server/client.py:105-120 | returns a free id in `[1, id_max]` and appends it to the outstanding ids |
| Correlation.Client.Request | collegamento/client_server/client.py:122-144 | CollegamentoError for an unknown command and TypeError for a kwarg named `command` or `self`, with nothing changed; otherwise a fresh id, `Requested` bookkeeping and the merged message queued |
| Correlation.Client.RequestAny | collegamento/client_server/client.py:122-144 | the same for a command that is not a string: a list or dict raises TypeError, any other non-string CollegamentoError |
| Correlation.Client.ParseResponse | collegamento/client_server/client.py:146-167 | fields and status after the call are those of `LedgerSpec.Absorb` |
| Correlation.Client.CheckResponses | collegamento/client_server/client.py:169-172 | fields, status and unread answers are those of `LedgerSpec.AbsorbAll` |
| Correlation.Client.GetResponse | collegamento/client_server/client.py:174-191 | CollegamentoError for an unknown command before reading; otherwise read everything, then `LedgerSpec.Take` |
| Correlation.Client.AddCommand | collegamento/client_server/client.py:193-218 | `add-command` itself is refused; otherwise a fresh id, the pair installed with an empty buffer, and the registration queued |
| FileVariant.UpdateNotice | collegamento/files_variant.py:74-79 | the update notification names the file, a falsy `remove` and the contents |
| FileVariant.RemoveNotice | collegamento/files_variant.py:90-94 | the removal notification names the file and a truthy `remove` |
| FileVariant.NoticeRequest | collegamento/files_variant.py:74-81 | a notification names no envelope key, so the client sends it unchanged |
| FileVariant.Notices | collegamento/files_variant.py:51-54 | the replay sends one update notification per file, in table order, each with its own id |
| FileVariant.FileCheck | collegamento/files_variant.py:60-65 | a request naming a file the client does not hold raises CollegamentoError, or TypeError for an unhashable name |
| FileVariant.FileClient.constructor | collegamento/files_variant.py:37-44 | corrected (Findings row 2): an empty file table and a base client set up with the caller's commands plus `FileNotification` registered as `(update_files, True)`, so it allows multiple requests |
| FileVariant.FileClient.AsWritten | collegamento/files_variant.py:37-44 | as written: an empty file table and a base client set up with the caller's commands plus the bare `update_files`, which the base client normalises to `(update_files, False)` |
| FileVariant.FileClient.Request | collegamento/files_variant.py:56-67 | corrected: the file check, then the base request with the dict unpacked |
| FileVariant.FileClient.RequestAsWritten | collegamento/files_variant.py:56-67 | as written: after the file check the call raises TypeError and sends nothing |
| FileVariant.FileClient.UpdateFile | collegamento/files_variant.py:69-81 | corrected: the table stores the contents and exactly one update notification is queued |
| FileVariant.FileClient.UpdateFileAsWritten | collegamento/files_variant.py:69-81 | as written: the table is updated, then TypeError, and nothing is sent |
| FileVariant.FileClient.RemoveFile | collegamento/files_variant.py:83-96 | corrected: an unknown file raises CollegamentoError; otherwise one removal notification is queued and the client keeps its copy |
| FileVariant.FileClient.RemoveFileAsWritten | collegamento/files_variant.py:83-96 | as written: CollegamentoError for an unknown file, TypeError otherwise; nothing sent |
| FileVariant.FileClient.ReplayFiles | collegamento/files_variant.py:46-54 | the replay rebuilds the same table and queues one notification per file, in table order |
| FileVariant.FileClient.ReplayNext | collegamento/files_variant.py:53-54 | one replay round keeps the replay invariant one name further |
| FileVariant.FileCommands | collegamento/files_variant.py:42 | corrected: `FileNotification` is registered to allow multiple requests; other commands untouched |
| FileVariant.FileCommandsAsWritten | collegamento/files_variant.py:42 | as written: `FileNotification` is a bare function, so it allows a single pending request |
| FileReplay.UpdateApplied | collegamento/files_variant.py:21-28 | an update notification stores the client's contents and is answered uncancelled |
| FileReplay.RemoveApplied | collegamento/files_variant.py:21-28 | a removal drops the file from the worker's table; KeyError if the worker does not hold it |
| FileReplay.RemovedFileStillAccepted | collegamento/files_variant.py:117-120 | after `remove_file` the client still accepts requests naming the file, but the worker raises KeyError when it substitutes it |
| FileReplay.NotificationsFirst | collegamento/files_variant.py:110-115 | in the file worker's schedule every notification runs before every other request |
| FileReplay.DrainNotices | collegamento/client_server/server.py:84-91 | with multiple requests allowed, the drain keeps every notification in arrival order and answers none yet |
| FileReplay.AnswerNotices | collegamento/files_variant.py:21-28 | executing update notifications one after another stores each file and answers each uncancelled |
| FileReplay.NoneStale | collegamento/client_server/server.py:100-104 | no seen id is cancelled when every one of them is still pending |
| FileReplay.ScheduleOneCommand | collegamento/client_server/server.py:146-151 | when only one command has pending requests, they run in arrival order |
| FileReplay.ReplayPassRebuilds | collegamento/files_variant.py:46-54 | with the corrected registration, the pass after a replay leaves the worker's table equal to the client's |
| FileReplay.SingleRegistrationDropsFile | collegamento/files_variant.py:42 | with the registration as written, two notifications in one pass lose the first file: it is cancelled and never stored |
| FileReplay.SingleKeepsLast | collegamento/files_variant.py:42 | with a single-request registration the worker stores only the second of two files and cancels the first id |
| FileReplay.TwoNoticesSingle | collegamento/client_server/server.py:86-91 | the second notification of a single-request command replaces the first; both ids are seen |
| FileReplay.RecordTwice | collegamento/client_server/server.py:86-91 | two requests for a single-request command: only the second stays pending |
| SimpleSpec.Initial | collegamento/simple_client_server/server.py:35-38 | an empty slot and id 0 for every command; valid and idle |
| SimpleSpec.ParseStep | collegamento/simple_client_server/server.py:57-81 | an unknown type is answered cancelled, a notification uncancelled, neither stored; a request is stored, or raises KeyError without a command |
| SimpleSpec.StoreReplaces | collegamento/simple_client_server/server.py:78-81 | a stored request wipes out its command's previous one; every other slot untouched |
| SimpleSpec.Drain | collegamento/simple_client_server/server.py:147-149 | the drain loop keeps the slots valid |
| SimpleSpec.DrainFailurePersists | collegamento/simple_client_server/server.py:147-149 | an exception while draining a prefix ends the whole drain with it |
| SimpleSpec.ParseAccount | collegamento/simple_client_server/server.py:57-81 | one parse answers the message's id or records it, never both |
| SimpleSpec.DrainAccount | collegamento/simple_client_server/server.py:147-149 | over the drain, drained ids = answered ids + seen ids |
| SimpleSpec.Call | collegamento/simple_client_server/server.py:135 | only a user function can be called with the request alone; anything else raises TypeError |
| SimpleSpec.Handle | collegamento/simple_client_server/server.py:106-140 | one response with the id `newest_ids` holds, cancelled exactly for `add-command` or an unknown command; that id resets to 0; `add-command` raises exactly for a missing key or an unhashable name, and a non-string name leaves the table as commands see it |
| SimpleSpec.ExecAnswers | collegamento/simple_client_server/server.py:158-164 | the execute loop answers each stored request once, with its id, in dict order |
| SimpleSpec.ExecEmpties | collegamento/simple_client_server/server.py:158-164 | the execute loop leaves every slot empty with id 0 and no slot appears or disappears |
| SimpleSpec.RunPass | collegamento/simple_client_server/server.py:142-165 | an empty queue changes nothing |
| SimpleAccounting.SettleKeyed | collegamento/simple_client_server/server.py:158-164 | the slots are ready for the execute loop: distinct commands with matching ids, every other slot empty |
| SimpleAccounting.SettleAccount | collegamento/simple_client_server/server.py:84-104 | cancel and execute answer each seen id exactly once |
| SimpleAccounting.PassExactlyOnce | collegamento/simple_client_server/server.py:142-165 | a pass from the idle state over distinct ids answers each read message exactly once |
| SimpleAccounting.SettleEmpties | collegamento/simple_client_server/server.py:158-164 | after the loop every slot is empty with id 0; order and slots kept |
| SimpleAccounting.PassLeavesIdle | collegamento/simple_client_server/server.py:142-165 | a pass that read anything leaves the worker idle and never removes a slot |
| SimpleAccounting.DrainKeepsSlots | collegamento/simple_client_server/server.py:147-149 | draining never removes a slot |
| SimpleAccounting.DrainNewest | collegamento/simple_client_server/server.py:78-81 | after the drain each slot holds the newest request for its command from the queue, or what it held before |
| SimpleAccounting.ParseSlot | collegamento/simple_client_server/server.py:57-81 | one parse touches only the slot of the request it stores |
| SimpleAccounting.DrainSeen | collegamento/simple_client_server/server.py:78 | every request drained has its id among the seen ids |
| SimpleAccounting.NotPending | collegamento/simple_client_server/server.py:84-104 | a request followed in the same pass by a newer one for its command never reaches the execute loop |
| SimpleAccounting.Superseded | collegamento/simple_client_server/server.py:84-104 | only the newest request per command runs: an older one is answered as cancelled, without command or result |
| SimpleAccounting.SettleCancels | collegamento/simple_client_server/server.py:93-101 | a seen id that no slot holds is answered as cancelled |
| SimpleWorker.SimpleServer.constructor | collegamento/simple_client_server/server.py:19-38 | the fields equal `SimpleSpec.Initial`; nothing queued |
| SimpleWorker.SimpleServer.SimpleIdResponse | collegamento/simple_client_server/server.py:46-55 | appends exactly one `SimpleResponse` |
| SimpleWorker.SimpleServer.ParseLine | collegamento/simple_client_server/server.py:57-82 | state and queue after the call are those of `SimpleSpec.ParseStep`; a commandless request raises after its id is recorded |
| SimpleWorker.SimpleServer.CancelAllIdsExceptNewest | collegamento/simple_client_server/server.py:84-104 | every seen id no slot holds is answered cancelled, in order seen; the seen ids are forgotten |
| SimpleWorker.SimpleServer.HandleRequest | collegamento/simple_client_server/server.py:106-140 | fields after the call are `SimpleSpec.Handle`; nothing changes when it raises |
| SimpleWorker.SimpleServer.RunTasks | collegamento/simple_client_server/server.py:142-165 | state and queue after the pass are those of `SimpleSpec.RunPass` |
| SimpleWorker.SimpleServer.DrainQueue | collegamento/simple_client_server/server.py:147-149 | state and queue after the loop are those of `SimpleSpec.Drain` |
| SimpleWorker.SimpleServer.SettleTasks | collegamento/simple_client_server/server.py:151-165 | state and queue after cancel-and-execute are those of `SimpleSpec.Settle` |
| SimpleWorker.SimpleServer.ExecuteAll | collegamento/simple_client_server/server.py:158-165 | the loop over the slots is `SimpleSpec.ExecFrom` over the stored requests |
| SimpleLedgerSpec.Setup | collegamento/simple_client_server/client.py:31-40 | id 0 and no answer for every command; the slots are ready |
| SimpleLedgerSpec.NotificationMessage | collegamento/simple_client_server/client.py:92-97 | a notification naming no envelope key is the envelope plus the caller's map |
| SimpleLedgerSpec.RequestMessage | collegamento/simple_client_server/client.py:124-130 | the request built from details naming the command carries that command |
| SimpleLedgerSpec.Added | collegamento/simple_client_server/client.py:182-202 | corrected registration: the name gets an id slot and an answer slot; readiness kept |
| SimpleLedgerSpec.Absorb | collegamento/simple_client_server/client.py:136-157 | ValueError for an id not outstanding, KeyError for a command without a slot; only the latest request's answer is kept; readiness kept |
| SimpleLedgerSpec.AbsorbKeepsValid | collegamento/simple_client_server/client.py:136-157 | parsing keeps the ids distinct and in range and releases an outstanding id for good |
| SimpleLedgerSpec.AbsorbAll | collegamento/simple_client_server/client.py:159-163 | nothing stays unread unless a parse raises |
| SimpleLedgerSpec.AbsorbAllKeepsValid | collegamento/simple_client_server/client.py:159-163 | reading every answer keeps the ledger valid |
| SimpleLedgerSpec.AllReleased | collegamento/simple_client_server/client.py:136-163 | answering each outstanding id once and reading everything leaves no id outstanding |
| SimpleLedgerSpec.Take | collegamento/simple_client_server/client.py:176-180 | the slot's answer is returned and the slot emptied; KeyError exactly when the command has no slot |
| SimpleLedgerSpec.TakeTwice | collegamento/simple_client_server/client.py:176-180 | a second read with nothing new in between returns None |
| SimpleLedgerSpec.RequestAnswered | collegamento/simple_client_server/client.py:151-157 | request then its answer: the id is released and the answer stored |
| SimpleLedgerSpec.AnswerRead | collegamento/simple_client_server/client.py:176-180 | the next read after an answer returns it and empties the slot |
| SimpleLedgerSpec.StaleDiscarded | collegamento/simple_client_server/client.py:151-153 | an answer to a request replaced by a newer one is released and otherwise ignored |
| SimpleLedgerSpec.RequestedTwice | collegamento/simple_client_server/client.py:124 | two requests for a command leave the second id in its slot |
| SimpleLedgerSpec.NotificationReleased | collegamento/simple_client_server/client.py:142-144 | the commandless answer to a notification only releases the id |
| SimpleLedgerSpec.AddCommandReleased | collegamento/simple_client_server/client.py:148-149 | the worker's answer to `add-command` only releases the id |
| SimpleLedgerSpec.AddedNameUnreadable | collegamento/simple_client_server/client.py:182-202 | as written, reading a command added after construction raises KeyError |
| SimpleLedgerSpec.AddedNameReadable | collegamento/simple_client_server/client.py:182-202 | with the corrected registration the same read returns None |
| SimpleCorrelation.SimpleClient.constructor | collegamento/simple_client_server/client.py:31-40 | the fields equal `SimpleLedgerSpec.Setup`; queues empty |
| SimpleCorrelation.SimpleClient.CreateMessageId | collegamento/simple_client_server/client.py:67-84 | returns a free id in `[1, id_max]` and appends it |
| SimpleCorrelation.SimpleClient.NotifyServer | collegamento/simple_client_server/client.py:86-100 | a fresh id, and the notification queued |
| SimpleCorrelation.SimpleClient.Request | collegamento/simple_client_server/client.py:102-134 | KeyError without `command`, TypeError for a list or dict, CollegamentoError for an unknown command, with nothing changed; otherwise a fresh id in the command's slot and the message queued |
| SimpleCorrelation.SimpleClient.ParseResponse | collegamento/simple_client_server/client.py:136-157 | fields and status are those of `SimpleLedgerSpec.Absorb` |
| SimpleCorrelation.SimpleClient.CheckResponses | collegamento/simple_client_server/client.py:159-163 | fields, status and unread answers are those of `SimpleLedgerSpec.AbsorbAll` |
| SimpleCorrelation.SimpleClient.GetResponse | collegamento/simple_client_server/client.py:165-180 | CollegamentoError for an unknown command; otherwise read everything, then `SimpleLedgerSpec.Take`; never raises for a command set up at construction |
| SimpleCorrelation.SimpleClient.AddCommandAsWritten | collegamento/simple_client_server/client.py:182-202 | as written: the name joins the table only |
| SimpleCorrelation.SimpleClient.AddCommand | collegamento/simple_client_server/client.py:182-202 | corrected: the name also gets its id and answer slots; readiness kept |
| DraftSpec.Initial | collegamento/simple_client_server/new_impl.py:65-68 | empty lists for every command in table order; valid and idle |
| DraftSpec.Record | collegamento/simple_client_server/new_impl.py:99-108 | the id joins the seen ids; a single-request command's lists are replaced (created at the end of the order if missing), a multi-request command's appended to |
| DraftSpec.RecordKeepsValid | collegamento/simple_client_server/new_impl.py:99-108 | recording keeps the bookkeeping consistent |
| DraftSpec.ParseStep | collegamento/simple_client_server/new_impl.py:87-109 | non-requests are answered cancelled; KeyError without a command, for an unknown one, or for a multi-request command without lists |
| DraftSpec.DrainAll | collegamento/simple_client_server/new_impl.py:179-181 | the drain loop keeps the bookkeeping consistent |
| DraftSpec.DrainFailurePersists | collegamento/simple_client_server/new_impl.py:179-181 | an exception while draining a prefix ends the whole drain with it |
| DraftSpec.CallHandler | collegamento/simple_client_server/new_impl.py:167 | a user handler returns its result |
| DraftSpec.Answer | collegamento/simple_client_server/new_impl.py:135-172 | `add-command` checks the name (KeyError, then TypeError) before the function, installs the carried entry and is cancelled; an unknown command is cancelled; otherwise the handler's result is sent; id and command always those of the request |
| DraftSpec.AnswerAll | collegamento/simple_client_server/new_impl.py:203-210 | one response per scheduled request, each against the table the earlier ones left |
| DraftSpec.Handle | collegamento/simple_client_server/new_impl.py:135-172 | the answer is queued (and the table updated) before the id is retired |
| DraftSpec.ExecMatchesAnswers | collegamento/simple_client_server/new_impl.py:203-210 | the loop's removals never fail, whatever registrations do to the table: it raises exactly when an answer raises and otherwise empties every list |
| DraftSpec.Schedule | collegamento/simple_client_server/new_impl.py:189-201 | the schedule is a permutation of the pending requests, ordered by the sort key |
| DraftSpec.SchedulePending | collegamento/simple_client_server/new_impl.py:189-201 | at the start of the loop each command's lists are exactly its part of the schedule |
| DraftSpec.Cleared | collegamento/simple_client_server/new_impl.py:132 | after a pass every list is empty, no id seen, and the table is the one registrations left |
| DraftSpec.Settle | collegamento/simple_client_server/new_impl.py:186-210 | cancel then execute; the worker ends idle and consistent |
| DraftSpec.RunPass | collegamento/simple_client_server/new_impl.py:174-210 | an empty queue changes nothing; otherwise drain then settle |
| DraftSpec.AddCommandRefused | collegamento/simple_client_server/new_impl.py:99-108 | an `add-command` request raises KeyError at parse time unless the table has an entry with that name |
| DraftSpec.RegisteredLater | collegamento/simple_client_server/new_impl.py:103-108 | a command registered during execution has no lists: its first request raises KeyError if it is multi-request, or creates its lists at the end of the order |
| DraftSpec.AnswersInPriorityOrder | collegamento/simple_client_server/new_impl.py:196-210 | a pass answers in schedule order after the stale cancellations, so priority commands are answered first |
| DraftAccounting.PendingIds | collegamento/simple_client_server/new_impl.py:114-118 | `accepted_ids` has one id per pending request |
| DraftAccounting.ParseStepAccount | collegamento/simple_client_server/new_impl.py:87-109 | one `parse_line` answers the id at once or adds it to the seen ids |
| DraftAccounting.DrainAccount | collegamento/simple_client_server/new_impl.py:179-181 | over the drain, drained ids = answered ids + seen ids |
| DraftAccounting.SettleAccount | collegamento/simple_client_server/new_impl.py:186-210 | cancelling and executing answer each seen id exactly once |
| DraftAccounting.ExactlyOneResponse | collegamento/simple_client_server/new_impl.py:174-210 | a pass from the idle state over distinct ids answers each id exactly once and no other |
| DraftWorker.DraftServer.constructor | collegamento/simple_client_server/new_impl.py:47-68 | the fields equal `DraftSpec.Initial`; nothing queued |
| DraftWorker.DraftServer.SimpleIdResponse | collegamento/simple_client_server/new_impl.py:76-85 | appends exactly one `SimpleResponse` |
| DraftWorker.DraftServer.ParseLine | collegamento/simple_client_server/new_impl.py:87-109 | state and queue after the call are those of `DraftSpec.ParseStep` |
| DraftWorker.DraftServer.RecordRequest | collegamento/simple_client_server/new_impl.py:99-109 | the id is recorded before the lookup; on success the fields are `DraftSpec.Record` |
| DraftWorker.DraftServer.CancelOldIds | collegamento/simple_client_server/new_impl.py:111-133 | the queue gets the stale cancellations; the seen ids are forgotten |
| DraftWorker.DraftServer.HandleRequest | collegamento/simple_client_server/new_impl.py:135-172 | fields after the call are `DraftSpec.Handle` |
| DraftWorker.DraftServer.RunTasks | collegamento/simple_client_server/new_impl.py:174-210 | state and queue after the pass are those of `DraftSpec.RunPass` |
| DraftWorker.DraftServer.DrainQueue | collegamento/simple_client_server/new_impl.py:179-181 | state and queue after the loop are those of `DraftSpec.DrainAll` |
| DraftWorker.DraftServer.SettleTasks | collegamento/simple_client_server/new_impl.py:186-210 | state and queue after cancel-and-execute are those of `DraftSpec.Settle` |
| DraftWorker.DraftServer.ExecutePhase | collegamento/simple_client_server/new_impl.py:189-210 | sort and loop produce `DraftSpec.AnswerAll` and leave `DraftSpec.Cleared` |
| DraftWorker.DraftServer.ExecuteAll | collegamento/simple_client_server/new_impl.py:203-210 | the loop's effect is `DraftSpec.ExecFrom`, step for step |
| DraftCorrelation.DraftClient.constructor | collegamento/simple_client_server/new_impl.py:247-259 | a bare function becomes a single-request entry, a pair is kept; no ids, empty answer maps |
| DraftCorrelation.DraftClient.CreateMessageId | collegamento/simple_client_server/new_impl.py:296-316 | returns a free id in `[1, id_max]` and appends it |
| DraftCorrelation.DraftClient.Request | collegamento/simple_client_server/new_impl.py:318-350 | KeyError without `command`, TypeError for a list or dict, CollegamentoError for an unknown command; otherwise only a fresh id is taken |

## Left out

- Processes, queues and timing: `create_server`, `kill_IPC`, `__del__`, `freeze_support` and the polling loop with its `sleep` are not modelled. A pass reads the messages queued before it as one sequence, and the worker's endless loop is one call of `run_tasks` per pass.
- The restart branch of `create_message_id` is not modelled. It runs when `is_alive()` is false. For the file client, the replay that follows a restart is modelled as `FileClient.ReplayFiles`. In the authoritative client, `create_server` also drains the response queue and forgets the outstanding ids; that is not modelled.
- Randomness: `randint` is a nondeterministic choice among the free ids. Each `CreateMessageId` requires fewer than `id_max` outstanding ids. `LedgerSpec.FreeIdIff` shows that this is exactly when the rejection loop can stop. With every id taken, the source loops forever.
- Logging (`logger.*` calls) has no effect on state and is not modelled.
- User handlers are opaque. A call's result is `userFn(key, request)`: it cannot depend on the server object the source passes to the handler (`self` at server.py:125 and new_impl.py:167). A handler that raises, or that mutates the server, is not modelled. The built-in `update_files` is modelled.
- Runtime type checks: a file name or contents that is not a string, and an `add-command` name or function of the wrong shape where the worker annotates them (the authoritative worker and the rewrite), are modelled as TypeError or KeyError values. The one-slot worker does not check them; only an unhashable name raises there. beartype's exact messages are not modelled.
- Messages.Merge: a caller `id` that is not an int, or a `type` or `command` that is not a string (e.g. `request("c", id="x")`), replaces the envelope field in the source but is dropped here, because the message keeps those fields typed. In the source the allocated id is then never answered, and the answer for "x" raises ValueError in `parse_response`. The model sends and releases the allocated id instead.
- DraftSpec.CallHandler: the file variant's `update_files` has no file table in the rewrite, so calling it there is modelled as TypeError.
- State after a worker-side exception is the state at the point of the raise. The source's worker process dies there; what happens after is not modelled.
- FileVariant.FileClient.constructor: builds the corrected registration `(update_files, True)` (Findings row 2). The registration as written in files_variant.py:42 is built by `FileVariant.FileClient.AsWritten` from `FileCommandsAsWritten`.
- Dispatch.Server.FileServer: the file worker is the base worker with substitution switched on and `FileNotification` as its priority, not a subclass.
- `kill_IPC` and process termination are not modelled.

## Findings

| source | as written | input that shows it | evidently intended | confidence | as-written member | corrected member |
|---|---|---|---|---|---|---|
| collegamento/files_variant.py:67 | `FileClient.request`, `update_file` and `remove_file` pass the whole dict as the base `request`'s `command` argument (also lines 81 and 96) | `update_file("a.py", "x")`: the base method evaluates `dict in self.commands`, which raises TypeError (unhashable dict); nothing is sent | call the base method with the dict's `command` as the command and the other entries as keyword arguments | not executed | FileVariant.FileClient.RequestAsWritten, FileVariant.FileClient.UpdateFileAsWritten, FileVariant.FileClient.RemoveFileAsWritten | FileVariant.FileClient.Request, FileVariant.FileClient.UpdateFile, FileVariant.FileClient.RemoveFile |
| collegamento/files_variant.py:42 | `FileNotification` is registered as a bare function, so it allows a single pending request | two `update_file` calls, or a replay of two files, read in the same pass: the first notification is cancelled and its file never reaches the worker's table | register `(update_files, True)` so every notification of a pass is kept | not executed | FileVariant.FileCommandsAsWritten, FileVariant.FileClient.AsWritten, FileReplay.SingleRegistrationDropsFile | FileVariant.FileCommands, FileVariant.FileClient.constructor, FileReplay.ReplayPassRebuilds |
| collegamento/simple_client_server/client.py:202 | `add_command` adds the name to the command table only | `add_command("f", g)`, then `get_response("f")` before any `request("f")` has been answered: `newest_responses["f"]` raises KeyError (once an answer for "f" is parsed, the slot exists) | set up `current_ids[name] = 0` and `newest_responses[name] = None` as the constructor does | not executed | SimpleLedgerSpec.AddedNameUnreadable, SimpleCorrelation.SimpleClient.AddCommandAsWritten | SimpleLedgerSpec.AddedNameReadable, SimpleCorrelation.SimpleClient.AddCommand |
