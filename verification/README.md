# IEC 61850 stack: verified model

A Dafny model of the stateful parts of an IEC 61850 stack written in Rust: the MMS server and client,
the GOOSE publisher and subscriber, the SHA-256 and HMAC used to sign frames, and the BER and
Ethernet codecs. Each file is one component and can be read alone; `Prelude.dfy` holds what they
share. `dafny verify dfyconfig.toml` checks everything.

Code that changes fields or buffers in place is modelled by classes and loops whose contracts give
the whole new state as a function of the old one. What the components are for is stated about those
functions: over every run of a transition system where the component is a protocol, over every input
where it is a codec. No proof needs automatic induction; it is switched off where the hypothesis that Dafny
would generate is not confined to values of the right type.

| file | component |
|---|---|
| `Brcb.dfy` | buffered report control blocks: shared buffer, cursors, replay, purge, overflow |
| `Urcb.dfy` | unbuffered report control blocks: changes, general interrogation, integrity |
| `UrcbGroups.dfy` | the same for members that are structures |
| `Reservation.dfy` | reservation of report control blocks among connections |
| `Control.dfy` | select-before-operate, interlocks, command termination |
| `SettingGroups.dfy`, `SettingItems.dfy` | the flat setting store as N groups and an edit buffer; the same by the texts of items |
| `Assembly.dfy` | structures assembled from the flat namespace |
| `SclOrder.dfy` | the order of their components |
| `ObtainFile.dfy`, `FileBlocks.dfy`, `Paging.dfy` | the protocols whose two ends are both in the stack |
| `Uploads.dfy`, `UploadRuns.dfy` | uploads that overlap |
| `Demux.dfy` | responses matched to requests by invokeID |
| `Auth.dfy` | SHA-256 against FIPS 180-4, HMAC against RFC 2104 |
| `HashMeaning.dfy`, `HashAnswer.dfy` | what words, functions and tables of the hash mean; a known digest |
| `Goose.dfy` | publisher, subscriber, and the two joined |
| `BerPrim.dfy`, `BerTlv.dfy`, `BerData.dfy`, `Utf8.dfy` | the BER codec of MMS `Data` |
| `Eth.dfy` | signed and unsigned application frames |
| `Namespace.dfy` | resolving references and enumerating attributes |

## What the code does not meet

Each of these is a promise that fails for some input. The model keeps the code as it is, shows the
failure, and proves exactly when the promise holds, or holds under the stated assumption.

- A connection can lose buffered entries without the overflow flag. The flag belongs to the buffer, and
  the first connection to drain lowers it for all: two connections enable, 65 changes come, the first
  drains, and the second is not told that entry 1 is gone (`Brcb.SilentLossInTheCode`; for every
  capacity `Brcb.SilentLossWithTwoConsumers`). `Brcb.SilentGapIff` says, for any buffer and cursor,
  when a batch is silent about a gap, and `Brcb.SilentLossIff` when that happens over a run without
  purges and EntryIDs: entries the connection had not seen have been dropped, and some connection has
  been sent something since the last change. It never happens on a block that is not purged and whose
  EntryID is not written, as long as at most one connection has it enabled at any time
  (`Brcb.NoSilentLoss`); after a purge or an EntryID of its own a single consumer can meet a silent gap
  too.
- A general interrogation, or an integrity report that is due, of a member that is a structure does not
  update the value that changes are compared with. It is harmless if and only if no change of the
  member has been reported since the block was enabled, or the last one reported is current
  (`UrcbGroups.GroupSafeIff`). Otherwise writing the leaves back to the last reported value draws no
  report, and the client keeps the interrogated one (`UrcbGroups.LostByWriteBack`). Two writes to one leaf
  lead there (`UrcbGroups.HarmReached`). Leaf members always converge (`Urcb.Convergence`).
- An owner that gives up its reservation while it has the block enabled lets a second connection
  enable it too (`Reservation.EnabledExcludesUnlessReleased`).
- Selecting another group to edit does not empty the edit buffer, so a value staged for one group can be
  confirmed into another. It goes where EditSG points at the confirmation
  (`SettingGroups.StagedGoesToEdited`), and stays with its group if and only if the last accepted
  SelectEditSG in between selects that group, or there is none, or the groups already held the value
  (`SettingGroups.StagedStaysIff`). `SettingGroups.StagedStrays` is the failing run.
- The advertised time to live is a 32-bit count of whole milliseconds. With an interval below 1 ms, or
  of 2^32 - 1 ms and more, a healthy publisher is declared expired (`Goose.NoFalseAlarmIff`).
- Length and tag length of a frame are cut to 16 bits, and pcp and vid to 3 and 12
  (`Eth.FrameRoundTripIff`).
- Invoke identifiers come round again after 2^32 - 1 requests (`Demux.FirstCollision`). Issuing a request
  can make one request, the old or the new, end as if the connection had been closed if and only if
  another request holds the identifier it gets (`Demux.IssueLosesIff`); such a state is reached
  (`Demux.ClashReached`). Without such an issue no request loses its answer, whatever their number
  (`Demux.DemuxIsCorrect`). That does not say whose answer it is: one that comes after its own request is
  finished is given to another that waits if and only if the two have the same identifier
  (`Demux.LateAnswerIff`, `Demux.LateAnswerReached`), which cannot be before request number 2^32.
- Calls of `upload_file` that overlap can go wrong, for the server does not look at the invokeIDs of
  the answers to its own requests. One call after the other is always faithful
  (`UploadRuns.OneAfterTheOther`). `Uploads.UploadEnds` says of every upload how it ends:
  - Accepted with nothing outstanding it succeeds with what is offered under its source name when its
    open is served, and that is its own file if and only if no other call has replaced or withdrawn it
    (`Uploads.OwnOctetsIff`). Two calls with one source name break that
    (`UploadRuns.SameSourceReached`). If nothing is offered, the server waits for good and refuses every
    further upload (`UploadRuns.BlockedIff`, `UploadRuns.BlockedForGood`); a call that gives up early
    leads there (`UploadRuns.BlockedReached`).
  - A further request is refused while an upload is in progress, and accepted after its write. It
    succeeds if and only if the answer to the close of the one before has been taken by then
    (`UploadRuns.FurtherServedIff`, `UploadRuns.LateReached`).
  - After an upload has failed in that way, its leftover open can be taken for that of the next one:
    this fails, or, if its own file is gone, stores the other file (`UploadRuns.MisledReached`).
- The reference of a logical node without a name denotes its device (`Namespace.EnumerationResolvesIff`).
- The comment above `assemble_structured` promises components in SCL order
  (crates/iec61850-mms/src/server.rs:905-911), but the namespace it walks is sorted (lines 841-844). The
  order survives if and only if the SCL lists all siblings below the item in ascending order
  (`SclOrder.SclOrderIff`, `SclOrder.StructureInSclOrderIff`); `stVal` before `q` is an input where it
  does not (`SclOrder.QualityComesFirst`).

## Assumptions

- A store write and the notification it triggers are one step. Notifications are not dropped.
- Connection ids are never reused. Time is a number that never goes back; clocks and random values are
  inputs.
- Channels between two ends are first-in-first-out. GOOSE frames take a constant time and timers fire
  when due, where a theorem says so.
- One report control block at a time: blocks share no state, so `Brcb` models one key of the maps, and
  `Reservation` the table of all of them.
- Item names are parsed paths; a `$` in the text separates segments. Where a name is compared as text,
  as in the setting keys and in sorting, it is text; in `SclOrder` the other characters of a name come
  after `$`, as letters, digits and `_` do.
- `SettingGroups` follows the order in which a write is examined
  (crates/iec61850-mms/src/server.rs:2283-2370): attributes of report control blocks and control commands
  come before settings. `$GI`, `$EntryID` and `$PurgeBuf` store any item with such an ending; such
  items are assumed not to begin with `@`, as names of the namespace and of report control blocks do not.
  What a control command stores is an input there; `Control` says what it is.
- A call of `upload_file` has a number of its own, the invokeID of its request.
- The store starts without a structure at an item that has children
  (crates/iec61850-mms/src/server.rs:1157-1195 gives every item a leaf default). The theorems of
  `UrcbGroups` that start from the beginning of a run need only that the value there does not have the
  member's shape.
- The hash takes its tables as a parameter. `TableMeaning` says what the numbers of `SHA_256` are; that the
  numbers they are the roots of are the first primes is left to the reader.
- A read in `SettingItems` that is neither a selection, nor a whole control block, nor a setting looks the item
  up in the store; structures are in `Assembly`. Which base items are control blocks is an input.

## Model

| member | source | states |
|---|---|---|
| `Brcb.BrcbBuffer.Push` | crates/iec61850-mms/src/server.rs:1477-1491 | A covered change gets the next EntryID; the oldest entries go while there are more than the capacity, and the overflow flag goes up exactly then |
| `Brcb.BrcbBuffer.Clear` | crates/iec61850-mms/src/server.rs:2587-2596 | A purge empties the buffer and lowers the flag, and does not rewind the EntryIDs |
| `Brcb.Collect` | crates/iec61850-mms/src/server.rs:2600-2616 | What is to be sent are the entries past the cursor, in order |
| `Brcb.BrcbSession.Drain` | crates/iec61850-mms/src/server.rs:2600-2638 | One report for each entry past the cursor with consecutive SqNums and the flag as it was; the cursor ends on the last one; the flag goes down exactly when something was sent |
| `Brcb.BrcbSession.Enable` | crates/iec61850-mms/src/server.rs:2512-2542 | Enabling takes the written EntryID as cursor, or the newest entry when it is 0, restarts SqNum and drains |
| `Brcb.BrcbSession.SetEntryId` | crates/iec61850-mms/src/server.rs:2568-2584 | On an enabled block the written EntryID becomes the cursor and what lies past it is sent at once; otherwise nothing is |
| `Brcb.BrcbSession.Purge` | crates/iec61850-mms/src/server.rs:2587-2596 | Clears the shared buffer and rewinds the cursor of the connection that asked |
| `Brcb.BufferIsWindow` | crates/iec61850-mms/src/server.rs:599-618 | In every reachable state the buffer is exactly the last min(capacity, n) of the n entries since the last purge, numbered by their place in the whole run |
| `Brcb.RunConsecutive` | crates/iec61850-mms/src/server.rs:599-618 | Every run keeps the EntryIDs consecutive and ending just below `next_id` |
| `Brcb.PendingIsTail` | crates/iec61850-mms/src/server.rs:2600-2638 | What a drain sends is a final segment of the buffer: exactly the ids greater than the cursor |
| `Brcb.ExactlyOnce` | crates/iec61850-mms/src/server.rs:2464-2638 | Between two writes that set its cursor, under any interleaving of changes, drains, purges and other connections, a connection receives strictly increasing EntryIDs and each drain sends it exactly the buffered entries it has not had, unchanged |
| `Brcb.BatchSaysOverflow` | crates/iec61850-mms/src/server.rs:2600-2638 | Every report of a batch carries the flag as it stands, and a batch that is not empty lowers it |
| `Brcb.NumbersGoOn` | crates/iec61850-mms/src/server.rs:2600-2671 | Over every run from an enabling to the next enabling or disabling, everything sent to the connection for the block, batches and interrogations, is numbered 1, 2, 3, ... modulo 2^32 |
| `Brcb.EntryIdRoundTrip` | crates/iec61850-mms/src/server.rs:3001-3011 | Decoding the 8-octet big-endian EntryID gives the id back, for every 64-bit id |
| `Brcb.EnableReplays` | crates/iec61850-mms/src/server.rs:2512-2542 | Enabling with a written EntryID k >= 1 replays exactly the buffered entries past k, in order, numbered from 1 |
| `Brcb.WrittenIdReplays` | crates/iec61850-mms/src/server.rs:2568-2584 | An EntryID written by anybody is what the next enabling goes by, and on an enabled block is acted on at once |
| `Brcb.EntryIdOf` | crates/iec61850-mms/src/server.rs:3001-3011 | Of a longer octet string the last eight octets count, of a shorter one all; another type is no id |
| `Brcb.EnableFromEnd` | crates/iec61850-mms/src/server.rs:2512-2542 | Enabling with no EntryID replays nothing |
| `Brcb.SilentGapIff` | crates/iec61850-mms/src/server.rs:2600-2638 | A batch skips unseen entries without the flag exactly when the buffer is not accounted for: the flag is down and entries past the cursor are gone |
| `Brcb.NoSilentLoss` | crates/iec61850-mms/src/server.rs:2600-2638 | On a block never purged whose EntryID is never written, with at most one connection having it enabled at any time (any of them, over any enabling and disabling), every batch that skips entries carries the flag |
| `Brcb.BrcbSession.Interrogate` | crates/iec61850-mms/src/server.rs:2647-2671 | A general interrogation of an enabled block takes the next SqNum and moves neither cursor nor buffer |
| `Brcb.SilentLossWithTwoConsumers` | crates/iec61850-mms/src/server.rs:2624-2631 | With two consumers that fails for every capacity: both enable, one change more than the buffer holds, the first drain lowers the shared flag, and the second consumer misses the first entry without being told |
| `Brcb.SilentLossInTheCode` | crates/iec61850-mms/src/server.rs:309-618 | At the capacity the code has, 64, that run is two enablings and 65 changes |
| `Brcb.SilentLossIff` | crates/iec61850-mms/src/server.rs:2600-2638 | For any number of connections, on a block never purged whose EntryID is never written: the next batch of a connection skips entries silently if and only if entries it had not seen have been dropped and some connection has been sent something since the last change |
| `Urcb.MemberCovering` | crates/iec61850-mms/src/server.rs:2853-2861 | The first member that is the changed item or an ancestor of it, or none |
| `Urcb.UrcbSession.OnValueChange` | crates/iec61850-mms/src/server.rs:2791-2823 | For every enabled block: a report exactly when the covering member's value differs from the last one reported for it, and that value is remembered |
| `Urcb.UrcbSession.GeneralInterrogation` | crates/iec61850-mms/src/server.rs:2647-2671 | A report of every member's current value from an enabled block; the values remembered for change detection stay as they are |
| `Urcb.UrcbSession.ReportIntegrity` | crates/iec61850-mms/src/server.rs:2826-2847 | Every enabled block whose deadline has passed reports all members and waits one period from now |
| `Urcb.ReportIff` | crates/iec61850-mms/src/server.rs:2791-2823 | A change is reported if and only if the first covering member's value differs from the last one reported for it |
| `Urcb.ReportsInOrder` | crates/iec61850-mms/src/server.rs:2508-2847 | Over every run of an enabled block its reports are numbered 1, 2, 3, ... modulo 2^32, and an integrity report is sent exactly when a period has passed since the enabling or the last one |
| `Urcb.LeafValue` | crates/iec61850-mms/src/server.rs:2865-2874 | A leaf is reported as stored, and as false when it is not |
| `Urcb.Convergence` | crates/iec61850-mms/src/server.rs:2791-2861 | Leaf members, one atomic step per write: whenever an enabled block has worked off its queue, a client replaying its change, interrogation and integrity reports holds the store's value of every member, whatever was queued at enable time |
| `UrcbGroups.InterrogatedInStep` | crates/iec61850-mms/src/server.rs:2647-2671 | From any state: right after an interrogation, a due integrity report or an enabling the client is in step with the server exactly when the value that changes are compared with is current or cannot be reached by writes below the member |
| `UrcbGroups.ConvergesIff` | crates/iec61850-mms/src/server.rs:2791-2847 | From any state: on every harmless continuation the client agrees with the store whenever the queue is empty, if and only if the two are in step |
| `UrcbGroups.GroupSafeIff` | crates/iec61850-mms/src/server.rs:2647-2847 | After any run from the start, a general interrogation or a due integrity report of a structured member is harmless if and only if no change of the member has been reported since the block was enabled, or the last one reported is current |
| `UrcbGroups.GroupConverges` | crates/iec61850-mms/src/server.rs:2791-2847 | On every run in which each interrogation and each due integrity report meets that condition, the client is never left with a stale value once the queue is empty |
| `UrcbGroups.LostByWriteBack` | crates/iec61850-mms/src/server.rs:2791-2823 | How it goes wrong: the leaves are written back to the value last reported, no report is drawn, and the queue is empty while the client holds another value |
| `UrcbGroups.HarmReached` | crates/iec61850-mms/src/server.rs:2647-2847 | A harmful interrogation and a harmful integrity report are reached from any start: two writes to one leaf of the member, the first of them reported |
| `Reservation.Reservations.Check` | crates/iec61850-mms/src/server.rs:2384-2460 | Denied exactly while another connection's reservation holds; otherwise Resv, ResvTms and RptEna writes make, keep or give up the reservation; for how long is in the rows that follow |
| `Reservation.ResvTmsHolds` | crates/iec61850-mms/src/server.rs:2384-2460 | From any reachable state: ResvTms = n written as Int or Uint, n modulo 2^32 positive; until the writer dies only it is let in, as long as it does not set the reservation again; then nobody before n seconds, whatever happens, and everybody after them if the block has not been written |
| `Reservation.ResvTmsReleases` | crates/iec61850-mms/src/server.rs:2416-2440 | ResvTms written as 0, a negative number or no number, and Resv other than true, let everybody in |
| `Reservation.ResvEndsWithConnection` | crates/iec61850-mms/src/server.rs:658-678 | A reservation by Resv or by enabling a free block shuts the others out and ends with its connection |
| `Reservation.Reservations.DropConnection` | crates/iec61850-mms/src/server.rs:658-678 | When a connection dies its reservations without ResvTms go and those with n seconds last until n seconds later; all others stay |
| `Reservation.ReservationSafety` | crates/iec61850-mms/src/server.rs:631-679 | Over all runs: a reservation without expiry belongs to a live connection, one with expiry to a dead one, and two connections have one block enabled only if one of them gave its reservation up while enabled |
| `Reservation.EnabledExcludesUnlessReleased` | crates/iec61850-mms/src/server.rs:2384-2460 | A connection that has a block enabled and kept its reservation shuts out every write by others; having given it up, the next connection's RptEna is accepted and both have it enabled |
| `Reservation.WindowStands` | crates/iec61850-mms/src/server.rs:658-678 | The reservation left by a dead connection stays as it is, through any run, until it expires |
| `Reservation.WindowBlocks` | crates/iec61850-mms/src/server.rs:658-678 | The same from the entry of the table: its seconds are the window after its owner dies, for every write by anybody |
| `Control.ControlSession.Operate` | crates/iec61850-mms/src/server.rs:2677-2788 | Result, messages, new store and new selection of one Oper in every branch: unknown object, model, selection, expiry, interlock, direct and enhanced; an applied one leaves the control value in the status item and every other item as it was |
| `Control.FirstFieldIsStored` | crates/iec61850-mms/src/server.rs:2688-2704 | An applied Oper with a structure of `x` and whatever else stores `x` |
| `Control.AppliedStores` | crates/iec61850-mms/src/server.rs:2688-2788 | An applied Oper with no structure, or an empty one, stores the value itself; one not applied changes nothing |
| `Control.CommandValueStays` | crates/iec61850-mms/src/server.rs:2677-2788 | Over every run the status item holds the control value of the last command applied until something else is stored there |
| `Control.Untouched` | crates/iec61850-mms/src/server.rs:2677-2788 | Over every run an item holds what it held until something is stored at it |
| `Control.JudgedBy` | crates/iec61850-mms/src/server.rs:2677-2788 | By the number of the control model: when an Oper is applied, when it is answered with Write+, each cause of a refusal if and only if, and the messages of a success |
| `Control.SelectJudged` | crates/iec61850-mms/src/server.rs:2338-2361 | A select with value is granted under models 2 and 4 for the configured time, and refused under the others |
| `Control.CtlModelIs` | crates/iec61850-mms/src/server.rs:2878-2897 | The model is the number at `CF$<object>$ctlModel`, taken modulo 2^64 when unsigned, and 0 otherwise |
| `Control.SboTimeoutIs` | crates/iec61850-mms/src/server.rs:2900-2913 | The time of a selection is `sboTimeout`, or thirty seconds unless that is positive |
| `Control.InterlockedIff` | crates/iec61850-mms/src/server.rs:2689-2720 | Blocked if and only if the first bit of the sixth field asks for the check and `intlckBlk` is true |
| `Control.ResultAt` | crates/iec61850-mms/src/server.rs:2265-2378 | Each variable is answered in its place by what it does after those before it; a barred one does nothing |
| `Control.ControlSession.HandleWrite` | crates/iec61850-mms/src/server.rs:2247-2378 | A request of several variables, each at its own instant: results in order, errors before the answer, terminations after it; a variable without data, or barred by role or reservation, gets its failure and does nothing |
| `Control.ControlSession.HandleVariable` | crates/iec61850-mms/src/server.rs:2320-2378 | One variable: Oper, Cancel, select-with-value or a plain item, with its result and where its messages go |
| `Control.JudgeAnswers` | crates/iec61850-mms/src/server.rs:2677-2788 | Every failure past the status-item check comes with one LastApplError of the object; every success of an enhanced model with one CommandTermination, positive exactly when the value was applied |
| `Control.RequestMessages` | crates/iec61850-mms/src/server.rs:2247-2378 | The same for whole requests: the terminations owed, in order, and the errors of the refused commands, in order |
| `Control.StepSelection` | crates/iec61850-mms/src/server.rs:2320-2361 | A selection appears exactly by a granted select of its object on its connection, and ends exactly by Cancel, by the end of the connection, or by an Oper judged under a select-before-operate model, applied or refused |
| `Control.SelectIsHandled` | crates/iec61850-mms/src/server.rs:2338-2361 | A select in a run is what handling it as a variable of a Write does for its connection; others keep their selections |
| `Control.CancelIsHandled` | crates/iec61850-mms/src/server.rs:2333-2337 | The same for Cancel |
| `Control.OperIsHandled` | crates/iec61850-mms/src/server.rs:2320-2332 | The same for Oper |
| `Control.SboAuthorisation` | crates/iec61850-mms/src/server.rs:2677-2788 | On a run, an Oper under ctlModel 2 or 4 that is not interlocked is applied if and only if an earlier granted selection of the same object on the same connection is still in force and strictly inside its sboTimeout |
| `Control.SboInjective` | crates/iec61850-mms/src/server.rs:2677-2788 | No two applied Oper commands use the same selection |
| `SettingGroups.KeysInjective` | crates/iec61850-mms/src/server.rs:419-427 | Group keys and edit keys determine group and setting, and are disjoint from each other and from every client item |
| `SettingGroups.SgStore.ConfirmEditSgValues` | crates/iec61850-mms/src/server.rs:543-560 | Moving the staged values one by one gives exactly the confirmed store |
| `SettingGroups.ConfirmRefines` | crates/iec61850-mms/src/server.rs:543-560 | A confirm moves the staged values into the group being edited, leaves every other group, every unstaged setting and every other domain, and empties the buffer; with no valid EditSG it does nothing |
| `SettingGroups.SgWriteRefines` | crates/iec61850-mms/src/server.rs:495-539 | Every setting-group write on the flat store is the operation on N groups and an edit buffer that it stands for |
| `SettingGroups.StepRefines` | crates/iec61850-mms/src/server.rs:2283-2370 | So is every step of a run; writes that are taken for something else before they could be setting-group writes do not touch the groups |
| `SettingGroups.StoredIsForeign` | crates/iec61850-mms/src/server.rs:2283-2361 | Whatever attributes of report control blocks, control commands and plain items store, it is no key that the groups are kept under |
| `SettingItems.ItemsAgree` | crates/iec61850-mms/src/server.rs:2225-2232 | By text: `ln$SG$tail` reads the active group and `ln$SE$tail` the buffer, then the group being edited; an invalid selector reads group 1 |
| `SettingItems.EditedIsRead` | crates/iec61850-mms/src/server.rs:2225-2370 | Every LN without `$`, every tail: a write to `ln$SE$tail` that no earlier test takes succeeds, and reading that item then gives the value |
| `SettingItems.ActiveIsReadOnly` | crates/iec61850-mms/src/server.rs:2362-2365 | A write to `ln$SG$tail` is answered with access denied and changes nothing |
| `SettingItems.OtherReadsKept` | crates/iec61850-mms/src/server.rs:495-539 | A write to `ln$SE$tail` changes what is read at no other item, of whatever domain, the active view of the setting included |
| `SettingItems.ControlBlockWrites` | crates/iec61850-mms/src/server.rs:495-530 | ActSG and EditSG take a number from 1 to the number of groups and store it, anything else is invalid and changes nothing; CnfEdit takes everything and reads false afterwards |
| `SettingItems.MeaningOfText` | crates/iec61850-mms/src/server.rs:978-1031 | What writes to ActSG, EditSG, CnfEdit, `ln$SE$tail` and `ln$SG$tail` are taken for |
| `SettingItems.TextOfMeaning` | crates/iec61850-mms/src/server.rs:978-1031 | No other text is taken for that |
| `SettingItems.ConfirmedIsRead` | crates/iec61850-mms/src/server.rs:465-560 | A value written to `ln$SE$tail`, any run without a confirmation or another value for it, then a confirmation: `ln$SG$tail` reads the value if the group then edited is the active one, and is unchanged if another is |
| `SettingItems.ActiveItemStable` | crates/iec61850-mms/src/server.rs:465-560 | Over a run in which clients write neither ActSG nor CnfEdit of the domain, reading `ln$SG$tail` returns the same |
| `SettingItems.EditItemReadsLastWrite` | crates/iec61850-mms/src/server.rs:465-560 | Reading `ln$SE$tail` returns the last value written there, before and after confirms, until EditSG is written |
| `SettingGroups.ConfirmMovesStaged` | crates/iec61850-mms/src/server.rs:543-560 | Setting by setting: the value at each key after a confirm |
| `SettingGroups.StagedGoesToEdited` | crates/iec61850-mms/src/server.rs:495-560 | A staged value, then anything by anybody but a confirmation or another value for that setting, then a confirmation: the value lands in the group then edited and in no other, and nowhere if that is not a group |
| `SettingGroups.StagedStaysIff` | crates/iec61850-mms/src/server.rs:495-560 | It lands in the group it was staged for, and only there, if and only if the last accepted SelectEditSG in between, if any, selects that group; or the groups already held the value |
| `SettingGroups.StagedStrays` | crates/iec61850-mms/src/server.rs:495-539 | One SelectEditSG of another group in between does it, from every store |
| `Assembly.CollectChildren` | crates/iec61850-mms/src/server.rs:917-934 | The loop over the namespace gives the distinct next segments below an item, in order of first appearance |
| `Assembly.AssemblyIsComplete` | crates/iec61850-mms/src/server.rs:917-952 | Assembly returns nothing exactly when the item has no descendant; otherwise its leaves are exactly the descendants that no item extends, each once |
| `Assembly.AssembleFills` | crates/iec61850-mms/src/server.rs:917-952 | The assembled value is the tree of segments with each leaf read from the store or its default |
| `Assembly.FillReadsLeaves` | crates/iec61850-mms/src/server.rs:917-952 | It depends on the store at its leaves only: two stores that agree there give the same value |
| `Assembly.AssembleFrame` | crates/iec61850-mms/src/server.rs:917-952 | A write to anything that is not a leaf below the item, intermediate nodes included, does not change it |
| `SclOrder.SortDedupSorts` | crates/iec61850-mms/src/server.rs:841-844 | Sorting and removing duplicates leaves the items strictly ascending as text |
| `SclOrder.ChildrenAscend` | crates/iec61850-mms/src/server.rs:917-934 | In a sorted namespace the children of every item come in ascending order of their last segments, although items and not segments are compared |
| `SclOrder.SclOrderIff` | crates/iec61850-mms/src/server.rs:905-952 | The children of an item are those of the configuration, and in its order if and only if it lists them in ascending order |
| `SclOrder.StructureInSclOrderIff` | crates/iec61850-mms/src/server.rs:905-952 | The whole assembled structure is in the order of the configuration if and only if every list of siblings in it is ascending there |
| `SclOrder.QualityComesFirst` | crates/iec61850-mms/src/server.rs:841-952 | The failing input: with stVal before q in the configuration, the value comes with q first |
| `ObtainFile.ObtainSession.Step` | crates/iec61850-mms/src/server.rs:2088-2141 | What the server does with each reverse response while an upload runs, errors included |
| `ObtainFile.ReverseReads.Handle` | crates/iec61850-mms/src/client.rs:1022-1073 | The client's answers to fileOpen, fileRead and fileClose from the bytes it offers |
| `ObtainFile.StepAdvances` | crates/iec61850-mms/src/server.rs:2059-2141 | Every delivery takes the pair from one phase of the transfer to the next |
| `ObtainFile.LeftDecreases` | crates/iec61850-mms/src/server.rs:2059-2141 | Every delivery lowers the measure of phase and blocks left: the pair terminates |
| `ObtainFile.UploadIsFaithful` | crates/iec61850-mms/src/client.rs:596-621 | For every byte string and every delivery order of the two channels: exactly max(1, ceil(n/8192)) reverse reads, the server writes exactly the offered bytes, and the final answer is sent only after that write |
| `Uploads.OfferedFiles.Offer` | crates/iec61850-mms/src/client.rs:596-607 | The file is offered under its source name, in place of any other, before the request |
| `Uploads.OfferedFiles.Withdraw` | crates/iec61850-mms/src/client.rs:608-621 | After the answer, or without one, the source name goes, whoever offered it |
| `Uploads.ReturnsWhatItIsTold` | crates/iec61850-mms/src/client.rs:608-621 | In every run a call returns true if the server said that the file is stored, false if it reported an error, and no answer if it gave up before |
| `Uploads.RunInv` | crates/iec61850-mms/src/server.rs:2059-2141 | In every run of any number of overlapping calls: at most one reverse request is outstanding while no upload is in progress, and one older than its own while one waits for its open; what is read so far is always a prefix of the open file |
| `Uploads.UploadEnds` | crates/iec61850-mms/src/server.rs:2059-2141 | Every accepted upload, whatever was outstanding and whatever other calls do: the files stay as they are until it ends, and what it stores and answers then is decided by what became of its own open request and of one left over by an upload that failed |
| `Uploads.OwnOctetsIff` | crates/iec61850-mms/src/client.rs:596-621 | Accepted with nothing outstanding it succeeds, and stores given octets if and only if they are what was last offered under its source name, and not withdrawn, when its open was served |
| `Uploads.OfferIs` | crates/iec61850-mms/src/client.rs:596-621 | What is offered under a name after a run: the octets of the last call begun under it, and nothing once one has ended under it since |
| `UploadRuns.FurtherServedIff` | crates/iec61850-mms/src/server.rs:2088-2110 | After a file is stored, the next request the server accepts is answered with success if and only if the answer to the close has been taken before; otherwise with an error, and nothing is stored |
| `UploadRuns.StoredLeavesClose` | crates/iec61850-mms/src/server.rs:2112-2137 | Every file stored leaves that close outstanding |
| `UploadRuns.BlockedIff` | crates/iec61850-mms/src/server.rs:2088-2110 | An upload accepted with nothing outstanding waits for good if and only if nothing was offered under its source name when its open was served |
| `UploadRuns.BlockedForGood` | crates/iec61850-mms/src/server.rs:2059-2110 | From then on the server never changes again on that association |
| `UploadRuns.SameSourceReached` | crates/iec61850-mms/src/client.rs:602-621 | Two calls with one source name: the octets of the second are stored for the first, which is told of success |
| `UploadRuns.LateReached` | crates/iec61850-mms/src/server.rs:2088-2110 | A request delivered between the write of the one before and the answer to its close fails |
| `UploadRuns.BlockedReached` | crates/iec61850-mms/src/client.rs:596-621 | A call that gives up before its open is served leaves the server blocked |
| `UploadRuns.MisledReached` | crates/iec61850-mms/src/server.rs:2088-2137 | With three different source names: the file of a failed call is stored under the destination of a later one that has given up |
| `UploadRuns.AnsweredOnce` | crates/iec61850-mms/src/server.rs:2059-2141 | In every run: a call that waits has exactly one of its request, its upload and its answer on the way, one that gave up at most one, any other none |
| `UploadRuns.OneAfterTheOther` | crates/iec61850-mms/src/client.rs:596-621 | Any number of calls, each begun when the one before has returned: none is told of a failure, and the files are the initial ones with every file stored under its destination, in order |
| `FileBlocks.FileSession.OpenFile` | crates/iec61850-mms/src/server.rs:1954-1986 | With permission, a provider and the file: a new handle that reads from the requested position, or from the end when that is past it; otherwise an error and no change |
| `FileBlocks.FileSession.ReadFile` | crates/iec61850-mms/src/server.rs:1989-2003 | The next block of at most 8192 octets and whether more follow; the position advances by what was read |
| `FileBlocks.FileSession.CloseFile` | crates/iec61850-mms/src/server.rs:2006-2012 | Closing forgets the handle and no other |
| `FileBlocks.OpeningsAndBlocks` | crates/iec61850-mms/src/server.rs:1954-2003 | Opened exactly with permission, provider and file, under the next number; a block has 8192 octets or what is left, and more follows exactly if more is left |
| `FileBlocks.FileSession.DownloadFile` | crates/iec61850-mms/src/client.rs:516-528 | Download by blocks returns exactly the file, in max(1, ceil(n/8192)) reads, and closes its handle |
| `FileBlocks.BlocksConcatenate` | crates/iec61850-mms/src/server.rs:1954-2003 | However several open files are read in turn, the blocks read through one handle concatenate to its file from the start position |
| `Paging.NextPage` | crates/iec61850-mms/src/server.rs:3099-3116 | Asked to continue after a name, the server returns the next page of the sorted list and whether more follow |
| `Paging.ResumesAfter` | crates/iec61850-mms/src/server.rs:3099-3116 | The partition point of a name of the list is just after it |
| `Paging.GetNameListAll` | crates/iec61850-mms/src/client.rs:888-910 | The client loop returns exactly the list in max(1, ceil(n/page)) requests, for every page size of at least 1 |
| `Demux.Shared.Register` | crates/iec61850-mms/src/client.rs:258-291 | The next invokeID, skipping 0, with the request registered under it |
| `Demux.Shared.OnResponse` | crates/iec61850-mms/src/client.rs:928-1017 | A response completes the request registered under its invokeID; any other is ignored |
| `Demux.Shared.OnClosed` | crates/iec61850-mms/src/client.rs:928-1017 | Closing answers every pending request with ConnectionClosed and forgets them |
| `Demux.CompletedOnce` | crates/iec61850-mms/src/client.rs:264-291 | Once a request is done no event changes its outcome, for any number of requests of which none is issued with an invokeID that another one holds |
| `Demux.DemuxIsCorrect` | crates/iec61850-mms/src/client.rs:928-1017 | Under that condition, for any number of requests and every interleaving: a success carries the request's own invokeID, a response changes nothing or answers a request that holds its invokeID and has no answer, and close completes every waiting request |
| `Demux.WaitingEnds` | crates/iec61850-mms/src/client.rs:258-291 | After any run under that condition: the response to a waiting request, with all it carries, is its answer; without one it times out; either way its invokeID is free and a late response changes nothing |
| `Demux.FewAreFresh` | crates/iec61850-mms/src/client.rs:258-291 | Every run of fewer than 2^32 requests meets the condition |
| `Demux.FirstCollision` | crates/iec61850-mms/src/client.rs:258-260 | Request number 2^32 is the first to reuse an invokeID, that of the first |
| `Demux.IssueLosesIff` | crates/iec61850-mms/src/client.rs:258-291 | In every state of an open connection reached without such an issue: issuing a request makes it possible that some request ends with ConnectionClosed without any close if and only if another request holds the invokeID it gets |
| `Demux.ClashReached` | crates/iec61850-mms/src/client.rs:258-291 | Such a state is reached after 2^32 - 1 requests of which the first is still waiting |
| `Demux.SameIdIff` | crates/iec61850-mms/src/client.rs:258-260 | When two requests of a run of any length have one identifier |
| `Demux.LateAnswerIff` | crates/iec61850-mms/src/client.rs:928-1017 | An answer that comes after its request is finished is given to another waiting request if and only if that one has the same identifier |
| `Demux.LateAnswerReached` | crates/iec61850-mms/src/client.rs:928-1017 | That happens in a run without clash: a request that timed out, and one issued 2^32 - 1 requests later |
| `Auth.CompressBlock` | crates/iec61850-l2/src/auth.rs:196-233 | The in-place block function is section 6.2.2 of FIPS 180-4; what its parts mean is in the rows that follow |
| `WordMeaning.WordIsBe` | crates/iec61850-l2/src/auth.rs:198-200 | A word of a block is its four octets as a big-endian number |
| `WordMeaning.OctetsAreBe` | crates/iec61850-l2/src/auth.rs:280-284 | The octets of a word are the word as a big-endian number |
| `HashMeaning.DigestIsBe` | crates/iec61850-l2/src/auth.rs:280-284 | The digest is the eight words of the hash value in order, each big-endian |
| `WordMeaning.ChooseBits` | crates/iec61850-l2/src/auth.rs:210-211 | Ch takes each bit from the second word or the third, as the first says |
| `WordMeaning.MajorityBits` | crates/iec61850-l2/src/auth.rs:218-219 | Maj takes each bit that two of the three words have |
| `WordMeaning.BigSigma0Bits` | crates/iec61850-l2/src/auth.rs:218-218 | Each bit is the sum of the bits 2, 13 and 22 places up, around the word |
| `WordMeaning.BigSigma1Bits` | crates/iec61850-l2/src/auth.rs:210-210 | The same with 6, 11 and 25 |
| `WordMeaning.SmallSigma0Bits` | crates/iec61850-l2/src/auth.rs:202-202 | 7 and 18 places up around the word, and 3 places up without going around |
| `WordMeaning.SmallSigma1Bits` | crates/iec61850-l2/src/auth.rs:203-203 | 17 and 19 around, and 10 without |
| `TableMeaning.InitialHashIsRoots` | crates/iec61850-l2/src/auth.rs:158-160 | Each initial word is the first 32 fractional bits of the square root of its prime, by an inequality of integers |
| `TableMeaning.RoundConstantsAreRoots` | crates/iec61850-l2/src/auth.rs:162-171 | Each of the 64 round constants is the first 32 fractional bits of the cube root of its prime |
| `HashAnswer.AbcDigest` | crates/iec61850-l2/src/auth.rs:380-383 | The digest of `abc`, through all words and rounds, is the example of FIPS 180-4 |
| `HashMeaning.HmacMeans` | crates/iec61850-l2/src/auth.rs:309-336 | With the two pads given octet by octet, the tag is H(opad, H(ipad, m)), long keys hashed first and short ones filled with zeros |
| `Fips180.PaddingIsLeast` | crates/iec61850-l2/src/auth.rs:266-285 | Section 5.1.1 in bits: the fewest zero bits that make the length 448 modulo 512 |
| `Auth.Hasher.Consume` | crates/iec61850-l2/src/auth.rs:237-259 | Whatever was held and however long the input, the hasher has then absorbed the input after what it had: state of the whole blocks, buffer of the rest |
| `Auth.Hasher.Update` | crates/iec61850-l2/src/auth.rs:261-264 | The same, with the wrapping octet counter kept |
| `Auth.Hasher.Finalize` | crates/iec61850-l2/src/auth.rs:266-285 | The buffer is empty at the end, and the digest is the fold of the block function over the padded message with its bit length modulo 2^64 |
| `Auth.HashChunks` | crates/iec61850-l2/src/auth.rs:261-285 | For every way of cutting a message into updates the digest is that of the message; below 2^61 octets it is the standard's |
| `Auth.Sha256` | crates/iec61850-l2/src/auth.rs:289-293 | The one-shot digest is SHA-256 with the tables of the standard |
| `Auth.HmacKey.constructor` | crates/iec61850-l2/src/auth.rs:309-323 | The key blocks of section 2 of RFC 2104 for every key length |
| `Auth.HmacKey.Mac` | crates/iec61850-l2/src/auth.rs:326-336 | The tag is H(K xor opad, H(K xor ipad, m)) |
| `Auth.HmacKey.Verify` | crates/iec61850-l2/src/auth.rs:340-342 | Accepts that tag and no other octet string |
| `Auth.CtEq` | crates/iec61850-l2/src/auth.rs:354-363 | The comparison that looks at every octet is equality |
| `Goose.Publisher.OnValues` | crates/iec61850-goose/src/publisher.rs:81-141 | Unchanged values do nothing; changed ones take the next stNum (never 0), sqNum 0 and the shortest interval, and send one frame with those values, the configured name and simulation bit, and twice the whole milliseconds of the interval, at most 2^32 - 1, to live |
| `Goose.Publisher.OnTimer` | crates/iec61850-goose/src/publisher.rs:105-141 | A retransmission: next sqNum with wrap, doubled interval up to the limit, one frame with the values last published and the same stNum |
| `Goose.ValuesArrive` | crates/iec61850-goose/src/publisher.rs:68-155 | Publisher and subscriber joined, any configuration, delay and run: every event about a frame carries exactly the values of the publication that its state came from, stNum is 1 + (n - 1) mod (2^32 - 1) for the n-th state, sqNum the count of its retransmissions modulo 2^32 |
| `Goose.Units` | crates/iec61850-goose/src/subscriber.rs:176-195 | A second is advertised as two and waited for as such; nothing tracked is looked at again after 24 hours |
| `Goose.GateIff` | crates/iec61850-goose/src/subscriber.rs:296-315 | Over every sequence of frames: a real frame is kept back in simulation mode exactly when a simulated one of its control block has come since the mode was turned on |
| `Goose.ExpiresInTime` | crates/iec61850-goose/src/subscriber.rs:248-287 | In every run the next sweep is due no later than the first deadline, and takes out every control block whose deadline has come |
| `Goose.Backoff` | crates/iec61850-goose/src/publisher.rs:74-112 | After k retransmissions, with any publications of unchanged values in between, sqNum is k modulo 2^32 and the interval min(2^k t_min, t_max) |
| `Goose.Subscriber.SimGate` | crates/iec61850-goose/src/subscriber.rs:296-315 | Which frames pass in and out of simulation mode, and which control blocks stay latched |
| `Goose.Subscriber.TrackAndBuild` | crates/iec61850-goose/src/subscriber.rs:342-390 | The kind of each frame against the last one tracked, and the new deadline |
| `Goose.Subscriber.OnFrame` | crates/iec61850-goose/src/subscriber.rs:227-246 | Gate, event, and a sweep set to the earliest deadline |
| `Goose.Subscriber.OnSweep` | crates/iec61850-goose/src/subscriber.rs:248-276 | Exactly the overdue control blocks expire, once each, and the sweep is set again |
| `Goose.Subscriber.NextDeadline` | crates/iec61850-goose/src/subscriber.rs:281-287 | The earliest deadline, or a day ahead when nothing is tracked |
| `Goose.LossConserved` | crates/iec61850-goose/src/subscriber.rs:349-358 | In order and without duplicates, frames received plus frames reported missing make up the range from the first sqNum to the last |
| `Goose.TtlCovers` | crates/iec61850-goose/src/publisher.rs:119-133 | The advertised time to live exceeds the interval exactly from 1 ms up to, not including, 2^32 - 1 ms |
| `Goose.NoFalseAlarm` | crates/iec61850-goose/src/subscriber.rs:342-372 | Publisher and subscriber joined by a lossless channel of constant delay: every run gives StateChange for the first frame of each state, Retransmission for all others through both wraps, one event a frame, and never LossSuspected or Expired; stNum is never 0 |
| `Goose.NoFalseAlarmIff` | crates/iec61850-goose/src/publisher.rs:119-133 | No run of the pair ever raises a false alarm if and only if both t_min and t_max lie in that range |
| `BerPrim.EncodeLen` | crates/iec61850-ber/src/ber/length.rs:6-19 | Appends the shortest definite form of the length |
| `BerPrim.LenEncodedSize` | crates/iec61850-ber/src/ber/length.rs:22-33 | Is the number of octets EncodeLen appends |
| `BerPrim.DecodeLen` | crates/iec61850-ber/src/ber/length.rs:37-55 | The value and its size, or the error, on every input |
| `BerPrim.LenRoundTrip` | crates/iec61850-ber/src/ber/length.rs:6-55 | Every 64-bit length comes back, whatever follows it |
| `BerPrim.LenForm` | crates/iec61850-ber/src/ber/length.rs:6-19 | One octet below 128; above it, 128 plus the number of octets and the shortest big-endian form |
| `BerPrim.LenReads` | crates/iec61850-ber/src/ber/length.rs:37-55 | On every input the length, or the error it gets |
| `BerPrim.EncodeInteger` | crates/iec61850-ber/src/ber/prim.rs:44-57 | Drops redundant leading octets of the 8-octet word |
| `BerPrim.DecodeInteger` | crates/iec61850-ber/src/ber/prim.rs:59-69 | Two's complement of one to eight octets, otherwise an error |
| `BerPrim.IntBytesMean` | crates/iec61850-ber/src/ber/prim.rs:44-57 | The encoding has the value and no redundant first octet |
| `BerPrim.EncodeUnsigned` | crates/iec61850-ber/src/ber/prim.rs:73-86 | The shortest big-endian form, with a zero octet before a set first bit |
| `BerPrim.DecodeUnsigned` | crates/iec61850-ber/src/ber/prim.rs:88-106 | One leading zero dropped, at most eight octets |
| `BerPrim.IntegersRoundTrip` | crates/iec61850-ber/src/ber/prim.rs:44-106 | Every i64 and every u64 comes back |
| `BerPrim.IntegersAreShortest` | crates/iec61850-ber/src/ber/prim.rs:44-86 | No content in fewer octets has the value, signed or unsigned |
| `BerTlv.EncodeTag` | crates/iec61850-ber/src/ber/tag.rs:75-103 | Single octet below 31, otherwise base 128 with continuation bits |
| `BerTlv.TagRoundTrip` | crates/iec61850-ber/src/ber/tag.rs:75-127 | Every tag with a 32-bit number comes back, whatever follows it |
| `BerTlv.TagForm` | crates/iec61850-ber/src/ber/tag.rs:75-103 | Class, form and number in the bits of section 8.1.2 of X.690, large numbers in base 128 without a superfluous octet |
| `BerTlv.BerReader.ReadTlv` | crates/iec61850-ber/src/ber/reader.rs:44-56 | The triple at the position and the position after it, or the error and no movement |
| `BerTlv.TlvRoundTrip` | crates/iec61850-ber/src/ber/reader.rs:44-56 | A written triple is read back whole from anywhere in the input |
| `BerTlv.ShortTlvReads` | crates/iec61850-ber/src/ber/reader.rs:44-56 | On every input with a one-octet tag and a short length: the triple from its octets, or the error |
| `BerTlv.BerWriter.Primitive` | crates/iec61850-ber/src/ber/writer.rs:50-54 | Appends tag, length and content |
| `BerTlv.BerWriter.Close` | crates/iec61850-ber/src/ber/writer.rs:37-47 | The length slipped in before the content written since the tag |
| `BerData.Encode` | crates/iec61850-ber/src/data.rs:120-143 | Appends the encoding of the value, structures by back-patching |
| `BerData.DecodeList` | crates/iec61850-ber/src/data.rs:174-185 | The loop over members, with the depth check first and the first error deciding |
| `BerData.DecodeValue` | crates/iec61850-ber/src/data.rs:85-117 | Decoding by tag number and form, the class being ignored |
| `BerData.DataRoundTrip` | crates/iec61850-ber/src/data.rs:229-233 | For every encodable value and any trailing octets: the value if it nests at most 32 structures and arrays, DepthExceeded otherwise |
| `BerData.EncodingInjective` | crates/iec61850-ber/src/data.rs:120-143 | Two values within the limit never share an encoding |
| `BerData.DataOctets` | crates/iec61850-ber/src/data.rs:120-143 | The first octet of every kind of value, context class and constructed for lists, then length and content |
| `BerData.ContentOctets` | crates/iec61850-ber/src/data.rs:120-143 | The content of every kind, octet by octet, lists member by member |
| `BerData.DecodeRefuses` | crates/iec61850-ber/src/data.rs:85-117 | Which contents, numbers and depths are refused, and with which error |
| `Utf8.ValidIffText` | crates/iec61850-ber/src/data.rs:99-104 | The texts that are accepted are exactly the UTF-8 encodings of sequences of characters |
| `Eth.FrameBuffer.WriteEthAppid` | crates/iec61850-l2/src/eth.rs:54-73 | Addresses, VLAN tag, EtherType, APPID, simulation bit and placeholders, and where Length is |
| `Eth.FrameBuffer.FinishL2Frame` | crates/iec61850-l2/src/eth.rs:77-83 | Length patched, frame padded to 60 octets |
| `Eth.FrameBuffer.FinishL2FrameSigned` | crates/iec61850-l2/src/eth.rs:91-110 | Length and Reserved2 patched before signing, the tag of header and data appended |
| `Eth.EncodeFrame` | crates/iec61850-goose/src/frame.rs:33-48 | Headers, data and finish put together are the unsigned frame |
| `Eth.EncodeSigned` | crates/iec61850-goose/src/frame.rs:53-67 | The same signed: the tag is that of application header and data with Length and Reserved2 already in place |
| `Eth.SlicesAdjacent` | crates/iec61850-l2/src/eth.rs:141-209 | On every input that parses, header, data and tag lie one after the other inside it, and the signed octets end where the tag begins |
| `Eth.FrameRoundTripIff` | crates/iec61850-l2/src/eth.rs:141-209 | Parsing a finished frame gives back header, APPID, data, signed octets and tag if and only if pcp < 8 and vid < 4096, or there is no VLAN tag and the EtherType is not 0x8100, and 8 + data + tag is at most 65535 |
| `Eth.FrameOctets` | crates/iec61850-l2/src/eth.rs:54-110 | The finished frame octet by octet: 81 00 before a VLAN tag, 80 00 when simulated, zeros up to sixty octets and none beyond |
| `Eth.ParseReads` | crates/iec61850-l2/src/eth.rs:141-209 | On every input: which octets each field is read from, or the error |
| `Eth.SignedFrameAccepted` | crates/iec61850-l2/src/eth.rs:91-110 | Such a signed frame is accepted by a verifier that accepts its signer's tags |
| `Eth.SignedDataFixes` | crates/iec61850-l2/src/eth.rs:141-209 | The signed octets determine APPID, simulation bit, data and tag length |
| `Namespace.Resolve` | crates/iec61850-model/src/model.rs:67-86 | The nested search for a reference, device by device in the order of the IED names |
| `Namespace.NodeIsReached` | crates/iec61850-model/src/model.rs:59-86 | A device is found under its `ldName` or else IED name and instance, a logical node under prefix, class and instance |
| `Namespace.SearchFinds` | crates/iec61850-model/src/model.rs:67-86 | With names that are not unique: devices of the name without the logical node are passed over |
| `Namespace.IterDataAttributes` | crates/iec61850-model/src/model.rs:169-189 | The recursive collection of every attribute under its reference |
| `Namespace.SourceOrder` | crates/iec61850-model/src/model.rs:169-189 | An attribute comes before those inside it, siblings in their order |
| `Namespace.EnumerationResolvesIff` | crates/iec61850-model/src/model.rs:67-86 | With unique names, every enumerated reference resolves to its attribute if and only if every logical node with attributes has a name |
| `Namespace.ReachableIsListed` | crates/iec61850-model/src/model.rs:193-259 | Every attribute that a reference resolves to is enumerated under that reference, whatever the names |
| `Namespace.EnumeratedOnce` | crates/iec61850-model/src/model.rs:169-259 | With unique names no reference is enumerated twice |

## Left out

- Sockets, TLS, authentication, the runtime and raw capture: input and output.
- Octet formats of the MMS services: the protocols exchange abstract messages.
- Report encoding, option fields and the bit strings of inclusion beyond which members are in.
- Role permissions beyond the one flag the upload needs, quality bits and error-code tables: one-branch facts.
- Journals, dynamic data sets, file directories, rename and delete.
- Sampled values, packet capture files, key rings and ECDSA signatures: signing is an abstract function in `Eth`.
- `set_raw` into the internal setting keys, and the time limits that make a call of `upload_file` give up, which it may do at any moment.
- Simulation flag, filter and decoding of GOOSE frames before `Subscriber.OnFrame`, and the fields an
  event only copies (goID, datSet, APPID, addresses, time stamp).
- Brcb.BrcbBuffer.Push: EntryIDs are unbounded, where the code's counter is 64 bits wide.
- FileBlocks.FileSession.OpenFile: handles are unbounded, where the code's counter is 32 bits wide.
- ObtainFile.UploadIsFaithful: the provider accepts the write; that it may refuse is in `ObtainFile.ObtainSession.Step`.
- Uploads.UploadEnds: the same, and the connection has permission and a provider throughout.
- Demux.DemuxIsCorrect: a request issued after the connection closed waits for its timeout; only requests waiting at the close are answered by it.
- BerData.DataRoundTrip: floating-point values are their wire octets, so the choice between single and double precision is not modelled; strings are their UTF-8 octets, checked for validity.
- UrcbGroups.GroupSafeIff: writes to the member's own item, which is not a leaf, are excluded; and the member alone covers what lies below it.
- SettingGroups.StagedStaysIff: `ValidGroup` holds for the group edited when the value is staged; `SettingGroups.StagedGoesToEdited` has no such condition.
- Control.ControlSession.HandleWrite: variables that are report control-block attributes or setting-group items are in `Brcb`, `Urcb`, `Reservation` and `SettingGroups`; the decisions of role and reservation are inputs.
- Goose.NoFalseAlarm: the publisher is not in simulation mode and the subscriber neither; a frame of another control block may arrive at any time.
- Goose.Backoff: durations are unbounded, so that doubling one never overflows.
- Auth.HmacKey.Mac: the message is short enough for the standard to define its digest, that is below 2^61 octets.
