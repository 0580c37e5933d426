# Shantytown, modelled in Dafny

Shantytown coordinates coding agents. It acts on parties that fail silently or die half way: trackers that
take part of a write, panes that swallow text, files a crash leaves torn. This project models the parts of
it where that matters and proves what they are for: a printer whose text a standard reader reads back,
protocols that are safe at every point they can stop, allocators that are fair, readers that see the same
whatever pieces their input comes in, and projections that can be replayed.

Each module follows one source file. Where the source changes things step by step, the model is a class or
a method with loops, proved against a specification; what is promised about the specification is proved as
lemmas. A call into a tracker, a pane, an inbox, a socket or the file system is a method that may fail at
any time, with its effect done or not done; a crash is such a failure. Clocks are integers that do not run
backwards. A hash is a constructor around what it hashes. What happened is kept in a ghost trace.

- **TOML** (`toml_*.dfy`). `dumps` of `shantytown/codex.py`, and a reader written from TOML v1.0.0 ("Keys",
  "String", "Integer", "Boolean", "Array", "Table", "Array of Tables"). Reading a dumped dictionary gives it
  back if and only if no key consists of bare characters and one final newline: the pattern `_BARE_KEY` ends
  in `$`, which also stands before a final newline.
- **Resume markers and deferral notes** (`text_strip.dfy`, `resume_*.dfy`, `deferral_*.dfy`). The text a deferral
  leaves behind, and exactly when merging it into old notes leaves one condition, the chosen one.
- **Dispatch** (`work_item.dfy`, `dispatch.dfy`, `defer.dfy`, `dispatch_runs.dfy`). `go`, `repool` and `defer`
  against a tracker that may take any subset of a write and then raise or not.
- **Cost review** (`cost_review.dfy`, `cost_window.dfy`, `cost_advance.dfy`, `cost_oversize.dfy`,
  `cost_rollover.dfy`). A new generation of files with one pointer swap as its commit, and the policy a chain of
  generations carries.
- **Cost receipts** (`cost_receipts.dfy`). Closing comments posted at most once per two spaced absent reads.
- **Cost sampling** (`cost_sampling.dfy`). The cursor that goes round the transcript sources.
- **Daily cost** (`cost_daily.dfy`, `cost_daily_cache.dfy`). Requests grouped by day, replaced per source.
- **Release retention** (`retention.dfy`, `retention_prune.dfy`). What stays, and the loop that plans again
  before every removal.
- **Delivery custody** (`delivery.dfy`, `delivery_tend.dfy`, `delivery_overlap.dfy`). Text typed into a composer,
  its senders, the tend pass that may try once more, and passes that overlap.
- **Routine inbox** (`admin_inbox.dfy`, `admin_queue.dfy`, `admin_waiting.dfy`). A bounded queue on disk with one
  live attempt a row, and how long a row can wait in it.
- **WebSocket** (`websocket_frames.dfy`, `codex_socket.dfy`, `codex_request.dfy`, `codex_count.dfy`). Frames as
  sections 5.2 and 5.3 of RFC 6455 define them, the buffered socket that sees them in pieces, and a count over pages.
- **Briefs** (`cycle_brief.dfy`, `cycle_brief_exact.dfy`), **ceiling transfers** (`ceiling_*.dfy`), **transcripts
  read backwards** (`context_spend.dfy`) and **layered settings** (`config_source.dfy`).

`dafny verify dfyconfig.toml` checks everything.

## Where the code does not do what it is for

- A dumped key such as `"a\n"` is printed bare and breaks its line (`TomlRoundTrip.NewlineKeyFails`).
- Old notes that end in `resume_when` without a separator join with an addition that starts with one
  (`DeferralNotes.JoinedMarkerFails`); an addition that already stands in the old notes inside a longer
  argument is dropped, and the old condition stays (`DeferralNotes.LongerArgumentFails`).
- `advance` never checks that its manifest fits the bound every reader applies. A decision file of exactly 4 MiB
  is within the bound; the manifest that holds it is not, so it is committed and then no state can be found
  (`CostOversize.OversizeManifest`; `CostReview.CommittedState` says exactly when).
- `brief` uses every character it may if and only if the parts that keep something have different labels
  (`CycleBriefExact.BriefExact`), and its truncation flag is right if and only if there was more than it may hold or
  no label repeats (`CycleBriefExact.TruncatedExact`). Its one caller, `shantytown/cli.py:9640-9652`, gives three
  different labels.
- The origin of a setting is filed under its dotted path. The origins of two layers are right if and only if no
  setting of the graph that the local layer leaves alone has the dotted path of a local setting
  (`ConfigSource.Layers`). A key with a dot in it, or an empty key at the top, can break that
  (`ConfigSource.DottedKeyFails`, `ConfigSource.EmptyKeyFails`); without such keys nothing does. This is about the
  merge itself: the one validator in use (`shantytown/config.py:339-341`) refuses both examples, because their keys
  `a`, `a.b` and the empty one are no top-level settings (`shantytown/config.py:367-400`).
- A recovery decides over the record the pass has in hand, not over the one on disk. With several tend passes at
  once a text is typed again more than once if and only if a pass loads the record before another pass claims it and
  then claims it too (`DeliveryOverlap.RecoveredTwiceIff`), and such a run exists
  (`DeliveryOverlap.TwoPassesTypeTwice`). Its notice is never sent twice (`DeliveryOverlap.NoticedOnce`).

## Model

| member | source | states |
|---|---|---|
| TomlRoundTrip.RoundTrip | shantytown/codex.py:561-636 | Reading the dumped text of any encodable dictionary by TOML v1.0.0 gives the dictionary back if no key is bare characters and a final newline, and fails otherwise |
| TomlRoundTrip.NewlineKeyFails | shantytown/codex.py:556-609 | Such a key exists: its dump is not TOML |
| TomlRoundTrip.TableReads | shantytown/codex.py:572-597 | The lines of a table are read as exactly the events of that table under its path: headers, then pairs, then subtables, then arrays of tables |
| TomlRoundTrip.TableRun | shantytown/codex.py:572-597 | Those events build the table in an empty place without defining anything twice |
| TomlRedefinition.DefinedOnce | shantytown/codex.py:572-597 | The reader the writer is measured by refuses a table, an array of tables or a key defined a second time |
| TomlLines.EscapeReads | shantytown/codex.py:627-636 | An escaped string read as a basic string is the string, whatever follows its closing quote |
| TomlLines.KeyReads | shantytown/codex.py:608-609 | A printed key that is not the newline case reads back as the key, whatever delimiter follows |
| TomlLines.PathReads | shantytown/codex.py:584-594 | A dotted header path reads back as its keys |
| TomlLines.IntReads | shantytown/codex.py:618-619 | A printed integer, negative ones too, reads back as the integer |
| TomlLines.ValueReads | shantytown/codex.py:612-624 | Every printed scalar and scalar list reads back as itself |
| TomlLines.LexJoin | shantytown/codex.py:568-569 | Lines joined by newlines are read line by line |
| TomlLines.TrickyPathBreaks | shantytown/codex.py:556-576 | A path with a key of the newline kind breaks its header line in the middle of that key |
| TomlEmitter.Escape | shantytown/codex.py:627-636 | The loop appends the escape of each character and nothing else |
| TomlEmitter.Writer.WriteTable | shantytown/codex.py:572-597 | Succeeds exactly for tables that have a TOML form, and then appends exactly the lines of the table |
| TomlEmitter.Dumps | shantytown/codex.py:561-569 | The text is the joined lines, stripped, after the owner's comment; there is one exactly when no list that holds something other than tables has a table anywhere below it, at any length and depth |
| TomlEncodable.EncodableExactly | shantytown/codex.py:572-624 | The dictionaries that can be written are those in which no path goes through a list with something other than a table in it and on to a table |
| ResumeMarkerProofs.CountIsHits | shantytown/deferrals.py:43-44 | Markers never overlap: searching from each match on and counting the places where one starts agree |
| ResumeMarkerProofs.HistoricalIsInert | shantytown/deferral_notes.py:4-7 | Made historical, a text holds no marker, and making it historical again changes nothing |
| ResumeMarkerProofs.HistoricalKeepsOpenTail | shantytown/deferral_notes.py:4-7 | It still ends in an unfinished marker exactly when it did |
| ResumeMarkerProofs.HitsAcross | shantytown/deferral_notes.py:16-24 | Putting two texts together adds exactly one marker when the first ends in an unfinished one that the second finishes, and none otherwise |
| ResumeGrammar.MarkerExactly | shantytown/deferral_notes.py:4 | A marker stands at the start of a text exactly when it begins with resume, at most one of `_`, blank and `-`, when, blanks, and `:` or `=`, in letters of either case |
| ResumeGrammar.ConditionExactly | shantytown/deferrals.py:43-44 | A condition stands there exactly when a kind of letters and `-`, a colon and a run without blanks follow, with blanks between; its kind is in small letters and its argument without closing punctuation |
| ResumeGrammar.FirstCondition | shantytown/deferrals.py:114-131 | The condition of a text is the one at the first place where one stands |
| DeferralMerges.HistoricalFirst | shantytown/deferral_notes.py:6-7 | Up to its first marker a text made historical stays as it is, and the marker becomes fixed words |
| DeferralMerges.CanonicalKeeps | shantytown/deferral_notes.py:9-14 | A canonical reason is the reason, or all of its prose made historical and then the condition |
| DeferralMerges.AdditionStands | shantytown/br.py:129-160 | Whatever is merged into whatever notes stands in the result |
| DeferralMerges.ProseKept | shantytown/br.py:129-160 | Prose keeps the old notes word for word; force is asked for exactly when there are other notes |
| DeferralMerges.MarkerKept | shantytown/deferral_notes.py:16-24 | A marker keeps the old notes, word for word or historical; without force they stay or there were none |
| DeferralMerges.GuardIsIdle | shantytown/br.py:43-67 | The guard against losing notes never has to act, for any notes and any text |
| DeferralNotes.RenderParses | shantytown/deferrals.py:114-131 | A condition written out and parsed is the condition |
| DeferralNotes.CanonicalTheorem | shantytown/deferral_notes.py:9-14 | A canonical reason states the one chosen condition, unless the condition's own text holds a marker; a reason that already does is kept as it is |
| DeferralNotes.MergeTheorem | shantytown/deferral_notes.py:16-24 | Merging an addition with one condition into any notes leaves exactly that condition if and only if the guard of the branch taken holds |
| DeferralNotes.CanonicalMerge | shantytown/br.py:129-160 | The whole path of a defer reason into notes leaves the chosen condition if and only if that guard holds |
| DeferralNotes.StoredIsMerged | shantytown/br.py:43-67 | The tracker's last guard never acts on a deferral's reason |
| DeferralNotes.JoinedMarkerFails | shantytown/deferral_notes.py:16-24 | Two notes for which the guard fails by joining across the seam |
| DeferralNotes.LongerArgumentFails | shantytown/deferral_notes.py:16-24 | Two notes for which it fails by a longer argument |
| Dispatch.Track | shantytown/dispatch.py:801-833 | Writes at most three times, again only after a read-back that disagrees, and reports an attempt only when the last read-back matches every field |
| Dispatch.Go | shantytown/dispatch.py:742-799 | Sends at most once, writes at most three times and only after the pane showed the work; what returns normally was read back as under way, this agent's and without a deadline; refuses exactly closed, blocked, waiting, somebody else's and not admitted items |
| Dispatch.AppliedShows | shantytown/dispatch.py:801-833 | A read-back counts as the value written exactly when both are the same or end the same after the last slash |
| Dispatch.Verify | shantytown/dispatch.py:1068-1085 | At most five captures: negative ones up to the first that shows the work, or to one that raises; true only when one showed it, and false only after five that did not |
| Dispatch.Repool | shantytown/dispatch.py:835-866 | Sends nothing, refuses exactly closed and blocked items, and reports a return to the pool only when the last read-back shows it open and nobody's |
| Defer.WriteVerified | shantytown/dispatch.py:1035-1062 | One write, one read, no retry; confirmed only when the read shows the stage |
| Defer.DeferItem | shantytown/dispatch.py:868-1066 | Whatever the tracker does with either write, when a row becomes deferred the row just before the hiding write already held exactly one testable condition and its date, and the hidden row still does. What a finished call leaves is the condition the reason states, unless it is a date and `--until` gives another; `--until`; the one in the notes; the deadline; and the deadline that goes with it. It refuses exactly what cannot be deferred |
| Defer.ChosenExactly | shantytown/dispatch.py:885-948 | `defer` goes on with exactly the open items that have a reason, a testable condition and a readable deadline, and with the condition that is wanted |
| Defer.StagedMeans | shantytown/dispatch.py:930-1016 | What is staged is the wanted condition alone, and the deadline `--until` gives, or a stated date in place of the old one, or the old one |
| Defer.ValidMeans | shantytown/dispatch.py:931-937 | A deadline is well written when it is a day, or a day and a time of UTC, digit by digit, that the calendar knows |
| Defer.StoredStage | shantytown/dispatch.py:983-1066 | With a tracker that stores the first write, hiding goes ahead if and only if the stored date is the chosen one, the condition can be written and read back and holds no marker itself, and the merge guard holds |
| DispatchRuns.ClosedStaysClosed | shantytown/dispatch.py:558-601 | Over any run of go, repool and defer a closed item does not change |
| DispatchRuns.BlockedLeavesOnlyByDefer | shantytown/dispatch.py:558-601 | A blocked item changes only by a defer |
| DispatchRuns.HolderKeepsItem | shantytown/dispatch.py:558-601 | A held item keeps its holder until a reassign or a repool |
| DispatchRuns.HiddenWorkCanComeBack | shantytown/dispatch.py:983-1066 | Over any run, an item that goes out of sight does so by a deferral, and carries the one testable condition and the deadline that the request and the row before it call for |
| CostWindow.ReadWindow | shantytown/cost_review.py:106-155 | The loops over samples and sources, with their sets of attempts and shapes, find exactly the complete windows and give their identity |
| CostWindow.ReadSamples | shantytown/cost_review.py:114-126 | Refuses exactly when a sample is malformed or an attempt repeats, and otherwise fills the two sets |
| CostWindow.CheckSources | shantytown/cost_review.py:131-142 | Holds exactly when every sample has one row that repeats it and every row names its source |
| Basics.SetSize | shantytown/cost_review.py:125-126 | A set as large as what it was filled from means nothing repeated |
| CostReview.PreparingIsInvisible | shantytown/cost_review.py:71-103 | While a successor is prepared, the state found and the window read are the predecessor's |
| CostReview.CommittedState | shantytown/cost_review.py:71-103 | After the swap the successor passes every check exactly when its manifest fits the read bound |
| CostReview.DamageRefused | shantytown/cost_review.py:71-103 | One archived file or the manifest lost, changed or grown past 4 MiB, and no state is found |
| CostReview.CompleteMeans | shantytown/cost_review.py:106-147 | A window may be reviewed exactly when it is due, with twenty observations different in attempt and in shape, none later than the runs, and one named row for each |
| CostOversize.OversizeManifest | shantytown/cost_review.py:187-256 | A disk and a decision, every file of them within the bound, for which the advance is allowed and whole and leaves no state to be found |
| CostAdvance.ArchiveAll | shantytown/cost_review.py:209-222 | Copies each piece of evidence that exists, whole, or stops; every state on the way is an untouched predecessor |
| CostAdvance.WriteSuccessor | shantytown/cost_review.py:223-243 | The prepared folder is a whole successor: all five kinds of evidence from where they stand, budget with the lifetime kept, receipt with the cooldown kept and the rest reset, manifest |
| CostAdvance.Advance | shantytown/cost_review.py:187-256 | Refuses, changing nothing, exactly when the window is not this one, the ruling does not accept it, is in neither bounded mode, lacks a reviewer or evidence, a write is pending, or the generation is there; otherwise every state of the disk on the way is untouched or committed, and success means the successor is found |
| CostAdvance.CrashSafe | shantytown/cost_review.py:187-256 | Of every state a stop can leave, the state found is the predecessor's or the whole successor's, and the predecessor's files are the same |
| CostRollover.CommitKeeps | shantytown/cost_review.py:230-243 | A commit puts the decision's policy in force, keeps runs, lifetime accounting and cooldown, empties the window and archives it |
| CostRollover.Rollover | shantytown/cost_review.py:259-290 | Rolls only under a continuous ruling and with all twenty observations within 8 items, 1000 records and 4 MiB, leaves the same policy in force, and stays only for want of one of these |
| CostRollover.LastRulingInForce | shantytown/cost_review.py:259-290 | Along any chain of sampling, rollovers, rulings and advances that stopped part way the policy in force is the last explicit ruling |
| CostRollover.AnyStopIsALink | shantytown/cost_review.py:187-256 | Whatever disk a stop of an allowed advance leaves, it is one link of such a chain |
| CostReceipts.Desk.CommentOne | shantytown/cost.py:208-242 | What one closed item's turn does, event by event, over every place it can fail, keeping the history legal |
| CostReceipts.Desk.PostNow | shantytown/cost.py:231-242 | The body is in the file before it is posted; it leaves the file only after a read shows it |
| CostReceipts.Desk.CommentClosed | shantytown/cost.py:201-243 | A call that does not raise has read every closed item with a receipt, and the history stays legal |
| CostReceipts.NoEarlyRepost | shantytown/cost.py:223-230 | Between two posts for an item that no read has shown there are two different reads of it, closed and without the receipt, each followed by its entry, the entries at least five seconds apart and the first as long after the first post's stamp; the receipt is the same |
| CostSampling.Select | shantytown/cost_sampling.py:110-116 | The next source to come after the last one sampled, by agent and then session, or the one that all others come after |
| CostSampling.NobodyTwice | shantytown/cost_sampling.py:110-124 | However sources come and go, nobody is sampled twice before everybody present all the while has been sampled in between |
| CostSampling.OnceEach | shantytown/cost_sampling.py:110-124 | With a fixed set, as many attempts as sources sample each exactly once |
| CostSampling.RotationFile.Attempted | shantytown/cost_sampling.py:119-138 | The cursor moves whatever happened; evidence keeps what the receipt still lists and gains only this attempt's samples under this source |
| CostDaily.Project | shantytown/cost_daily.py:18-83 | Answers exactly for acceptable requests, with the projection of their set |
| CostDaily.ProjectionMeans | shantytown/cost_daily.py:18-83 | Which records are refused, and that a row is there exactly for the records of its session, day, rig, seed, agent, harness and model in the last thirty days, with their number, attribution and quantities |
| CostDaily.ReorderedAlike | shantytown/cost_daily.py:18-83 | Records in another order or repeated are projected alike |
| CostDaily.ProjectionIsOne | shantytown/cost_daily.py:60-83 | Per source and key in the window, one row: its distinct requests counted, each quantity their sum, or unknown as soon as one is |
| CostDaily.CountWith | shantytown/cost_daily.py:70-75 | One more request adds its quantity, and an unknown one makes the count unknown for good |
| CostDailyCache.Cache.Update | shantytown/cost_daily.py:86-135 | Refused updates change nothing; accepted ones replace the sources' rows, and the cache always holds each source's latest projection cut to the window |
| CostDailyCache.UpdatedMeans | shantytown/cost_daily.py:109-130 | After an update a row is there exactly when its day is in the window and its source's newest projection has it, with its own account and the time it was taken |
| CostDailyCache.HoldsAfter | shantytown/cost_daily.py:109-120 | Rows of a source are its latest projection cut to the latest window since, never a sum of projections |
| CostDailyCache.ReplayChangesNothing | shantytown/cost_daily.py:86-135 | The same result at the same time is accepted again and changes nothing |
| Retention.RetainedStable | shantytown/codex_retention.py:133-149 | Taking away any releases outside the retained set leaves the retained set the same |
| Retention.RetainedAges | shantytown/codex_retention.py:146-148 | As time passes releases only stop being retained |
| Retention.Inventory | shantytown/codex_retention.py:115-151 | The three passes compute the plan. By version number: what is current, in use or exceeded by nothing stays, and the `keep` greatest below each of these, and what is younger than a day; all else is removed, in the order of the names. It refuses exactly unknown entries, a current that is none of the releases, two platforms, or more than twenty to keep |
| Retention.PlanMeans | shantytown/codex_retention.py:115-151 | The same of the plan that the other rows are about |
| Retention.OrderWithout | shantytown/codex_retention.py:149-151 | Taking releases away and putting the rest in the order of their names may be done in either order |
| Retention.BeforePass | shantytown/codex_retention.py:141-145 | Adds exactly the releases among the few before some anchor |
| Retention.PlanAgain | shantytown/codex_retention.py:182-186 | After any part of a plan is carried out, planning again keeps the same releases and removes exactly the rest |
| Retention.PlanDone | shantytown/codex_retention.py:182-186 | After all of it there is nothing to remove |
| RetentionPrune.RemoveOne | shantytown/codex_retention.py:182-209 | One turn: rename only what the inventory just made does not retain; delete only after a second look, made since the rename, found no reader of it; put the name back when it is not deleted |
| RetentionPrune.Prune | shantytown/codex_retention.py:154-218 | Whatever others do, every renamed release was outside the retained set of the inventory just made, every deletion came after a look that found no reader since its rename, and an aborted one has its name; alone, exactly the plan is carried out and its bytes counted |
| RetentionPrune.QuietStep | shantytown/codex_retention.py:182-188 | Alone, the inventory before each removal still offers it |
| Delivery.Custody.Begin | shantytown/delivery.py:63-75 | A retry goes on with the one record of its text and session that is neither delivered nor acknowledged, with its timestamp, pointer and recovery; two are refused |
| Delivery.Custody.Failed | shantytown/delivery.py:82-109 | A key is pressed only while the pane is confirmed to run Codex, in this record's session, on an idle composer that holds exactly this text; cleared only after both keys |
| Delivery.Custody.ClearPrevious | shantytown/delivery.py:111-125 | A later sender touches a record only when it is the one unknown record of this session whose text the composer holds, and then as a failed send does; no other record changes |
| DeliveryTend.Observe | shantytown/delivery.py:157-191 | One record under the lock: what the inbox says is noted, its pointer state is never forgotten, and at most one notice is sent, for a record that had none, its intent on disk first |
| DeliveryTend.Recover | shantytown/delivery.py:196-229 | The claim is on disk before the text is typed; the pointer is marked read only after a submission that did not raise |
| DeliveryTend.Tend | shantytown/delivery.py:147-230 | A pass adds first notices of open records and then at most one recovery, on the screen it was given; none of either when the inbox cannot be read |
| DeliveryTend.MayRecoverExactly | shantytown/delivery.py:199-209 | A pass types exactly when nobody has tried the record again, the inbox could be read, its pointer is recorded, the session is the same, and the idle composer holds exactly the text, or nothing after it was cleared |
| DeliveryTend.AboutMeans | shantytown/delivery.py:151-153 | The messages about a record are those with its very text or its marker, as often as they stand in the inbox |
| DeliveryTend.OnceEach | shantytown/delivery.py:147-230 | With one pass at a time, over any passes, senders and crashes: one notice and one recovery a record, a recovery only with a readable inbox, a recorded pointer in the same session, and into an idle composer that holds exactly the text or, once it was cleared, nothing |
| DeliveryOverlap.NoticedOnce | shantytown/delivery.py:147-230 | Over every interleaving of tend passes, senders and failures: at most one notice a record, and a text is typed again only with a recorded pointer, as it stands on disk, in the session it was typed in, and into an idle composer that holds exactly it or, once it was cleared, nothing |
| DeliveryOverlap.MarkedAfterSubmission | shantytown/delivery.py:210-229 | Over every interleaving, a pass marks a pointer read only after it has claimed the record, sent it without raising and written it as delivered, and it marks the pointer of the record that it claimed |
| DeliveryOverlap.RecoveredTwiceIff | shantytown/delivery.py:147-230 | Over every interleaving of tend passes, senders and failures, a record is typed again more than once if and only if a pass loads it before another pass claims it and then claims it too |
| DeliveryOverlap.TwoPassesTypeTwice | shantytown/delivery.py:193-210 | A run of two passes from no records at all in which one text is typed again twice |
| AdminInbox.PickedOrFull | shantytown/admin_inbox.py:120-138 | A deliverable row is in the batch, or the batch is full of rows before it |
| AdminWaiting.AttemptedInTime | shantytown/admin_inbox.py:50-157 | Over any run of sweeps and enqueues, a pending row with r older ones in its group is still there, unchanged, until some call puts it on disk as attempted or removes it after a good send of it, and that is by the time r / 20 + 1 sweeps have served it; served means only that the sweep did not raise and found the row due and the message deliverable, and nothing older is enqueued |
| AdminWaiting.PickedOrFewer | shantytown/admin_inbox.py:113-157 | A sweep that serves a row sends a batch with it live, after which it is on disk as attempted or gone by a good send, or attempts a whole batch of older ones that never come back before it |
| AdminQueue.Queue.Enqueue | shantytown/admin_inbox.py:50-75 | At most 256 rows, each key once, refusals change nothing |
| AdminQueue.Queue.Gather | shantytown/admin_inbox.py:90-112 | Groups hold pending rows of recipients in service, in the pane and on the host they were queued for; every such row whose time has come, or lies ahead of the clock, is in its group |
| AdminQueue.Queue.Claim | shantytown/admin_inbox.py:120-138 | The batch is the first deliverable rows, each on disk as attempted before anything is sent |
| AdminQueue.BatchIsRight | shantytown/admin_inbox.py:118-138 | A batch is at most twenty of the entries the reader shows unread with their bodies, oldest first; who is left out finds it full of entries no younger |
| AdminQueue.Queue.Visit | shantytown/admin_inbox.py:113-155 | At most one send, of exactly the batch, which is the right one; other rows are unchanged, rows leave the queue only after a good send and the acknowledgement of those not retained, and what is reported delivered is what left |
| AdminQueue.Queue.Sweep | shantytown/admin_inbox.py:78-157 | On every way out: no row appears or goes back to pending, rows outside the batches are unchanged, only batches were sent, and a row is gone only after a good send of it as it was. When it did not raise: what is delivered is what the good sends held and exactly the rows that are gone; every round was the sorted pending rows of its group, its batch sent; every row nothing holds back is in its group's round |
| AdminQueue.SentOnce | shantytown/admin_inbox.py:78-157 | Between two live sends of a key the row has been scheduled anew |
| WebSocketFrames.MaskedTwice | shantytown/codex_shells.py:210 | Masking twice with one key, as section 5.3 of RFC 6455 has it, gives the data back |
| WebSocketFrames.MaskedAt | shantytown/codex_shells.py:210 | Each bit of the masked data is set exactly when it is set in the data or in the key's octet at that place modulo 4, and not in both |
| WebSocketFrames.NumberOfBigEndian | shantytown/codex_shells.py:204-208 | A length in network byte order reads back as the length |
| WebSocketFrames.ReadFrameStable | shantytown/codex_shells.py:191-195 | Bytes after a frame do not change how it reads |
| CodexSocket.ConversationAnswered | shantytown/codex_shells.py:212-239 | Frames that lead to an answer within the caps are answered, leaving exactly the bytes after them |
| CodexSocket.AnsweredConversation | shantytown/codex_shells.py:212-239 | Only such frames are answered |
| CodexRequest.SentReads | shantytown/codex_shells.py:197-210 | A sent frame reads by sections 5.2 and 5.3 of RFC 6455 as its opcode and payload, masked, with the length in the fewest bytes |
| CodexRequest.Socket.Take | shantytown/codex_shells.py:184-195 | However the stream is delivered, exactly its next bytes, and the rest stays |
| CodexRequest.Socket.Send | shantytown/codex_shells.py:197-210 | What is written reads back as one frame of this opcode and payload; over the cap nothing is written |
| CodexRequest.Socket.Request | shantytown/codex_shells.py:212-239 | However the stream is cut into pieces the outcome is that of the whole stream, what follows the answer is left, and what was written is the request and a pong for each ping |
| CodexCount.Count | shantytown/codex_shells.py:252-279 | A number is the number of different processes on all pages there are, at most ten, each asked for with the cursor of the one before and none twice, between two checks that this thread alone is loaded |
| CodexCount.ReadRows | shantytown/codex_shells.py:263-270 | Refuses exactly when a row is malformed, its identifier not 1 to 256 printable characters, or a process has been seen before, on this page or an earlier one |
| CycleBrief.MakeBrief | shantytown/cycle_advice.py:242-259 | The loop computes the specification the next rows are about |
| CycleBrief.BriefTheorem | shantytown/cycle_advice.py:242-259 | With distinct labels a brief uses exactly the characters it may, which are those asked for within zero and the policy's maximum, is truncated exactly when there were more, and is max-min fair to within one |
| CycleBrief.CleanedMeans | shantytown/cycle_advice.py:250 | The parts are those that are not blank, in order, each stripped |
| CycleBrief.FillUsesAll | shantytown/cycle_advice.py:251-255 | No character of the budget is wasted |
| CycleBrief.FillIsFair | shantytown/cycle_advice.py:251-255 | Whoever is cut keeps, to within one, as much as anybody |
| CycleBriefExact.BriefExact | shantytown/cycle_advice.py:242-259 | For any labels: a brief uses exactly the characters it may if and only if the parts that keep something, the longest ones, have different labels |
| CycleBriefExact.TruncatedExact | shantytown/cycle_advice.py:256-259 | For any labels: a brief is marked truncated exactly when there was more than it may hold, if and only if there was or no label repeats |
| CycleBriefExact.RepeatedLabelFails | shantytown/cycle_advice.py:251-259 | Two parts under one label lose characters that would have fitted |
| CeilingTransfer.MakePlan | shantytown/ceiling_transfer.py:145-166 | The loops compute the plan: holders in order, each to the agent with most room, then first by name |
| CeilingTransfer.Pick | shantytown/ceiling_transfer.py:161 | The minimum by room and name |
| CeilingPlan.PlanTheorem | shantytown/ceiling_transfer.py:145-166 | Every holder moves or stays, in the order of agents and items, and nobody stays while anybody has room. Each move goes to whoever carries least at its turn, by name among equals, of those with this harness, available, below the cap and holding nothing; nobody ends two above anybody else who could have had it |
| CeilingPlan.PlanIgnoresOrder | shantytown/ceiling_transfer.py:145-166 | The plan does not depend on the order of its inputs |
| CeilingApply.Apply | shantytown/ceiling_transfer.py:169-219 | One outcome a move in order; skipped exactly when the receiver refused earlier; commented and emitted exactly after a confirmed dispatch |
| CeilingApply.DispatchedOnce | shantytown/ceiling_transfer.py:169-219 | What was dispatched is the attempted moves, one each |
| ContextSpend.ReverseLines | shantytown/context_spend.py:159-171 | For every content and block size, the lines of the whole content backwards, without an empty first line |
| ContextSpend.SplitBlock | shantytown/context_spend.py:167-169 | A block read before only lengthens the first line or adds lines before it |
| ContextSpend.SplitJoins | shantytown/context_spend.py:167 | Lines hold no newline and join to the text again |
| ContextSpend.ReadSnapshot | shantytown/context_spend.py:102-156 | The last record that is not silent decides: a count tells its input and window, usage the sum of its three inputs; nothing when it cannot be told |
| ContextSpend.JudgeMeans | shantytown/context_spend.py:120-154 | What each record is taken for is what stands in its fields |
| ConfigSource.Origins.Merge | shantytown/config_source.py:99-111 | The merged table, and the layer's name written at each of its settings and nowhere else |
| ConfigSource.MergedLookup | shantytown/config_source.py:99-111 | A setting is the override's wherever the override says anything on its path, otherwise the base's |
| ConfigSource.MergedAgain | shantytown/config_source.py:99-111 | Merging the same layer again changes nothing |
| ConfigSource.Layers | shantytown/config_source.py:206-208 | After the two merges every setting is one layer's, local first, and its origin names that layer, if and only if no setting of the graph outside the local layer has the dotted path of a local setting or the graph is itself called `toml`; keys without dots and not empty at the top suffice |
| ConfigSource.DottedKeyFails | shantytown/config_source.py:99-111 | Unless the graph is itself called `toml`, the two merges give the graph's `a.b` the origin of a local key `"a.b"` |
| ConfigSource.EmptyKeyFails | shantytown/config_source.py:99-111 | The same with an empty key at the top of the graph's settings |
| Sorting.SortSorts | shantytown/admin_inbox.py:122 | `sorted` with a key orders and permutes |
| Sorting.OneOrder | shantytown/ceiling_transfer.py:155 | Without ties the sorted order is the only one |

## Left out

- Text is ASCII where case folding, whitespace or escapes matter; floats and dates have no TOML form here, and the
  TOML reader takes one expression a line with one key a pair, which is all the writer prints.
- The ownership comment of a rendered configuration, hooks and project trust in `shantytown/codex.py`.
- Dispatch: the plate count, the governor, gate lookups and the other refusals of `defer` are one flag each; named
  conditions and asking for input are not modelled; a calendar parameter says which strings are dates and how the
  store spells them.
- Defer.StoredStage: a condition without an argument is left out; the tracker's lookup, the event binding or the
  version check refuses it first.
- Defer.DeferItem: no liveness; a write that is not confirmed ends the call, and whether a later call succeeds depends
  on the tracker.
- CostReview.CommittedState: the pointer itself is taken to fit the read bound; only the manifest is open ended.
- CostOversize.OversizeManifest: sizes are the least the texts need, a manifest one byte more than its decision; the
  JSON around them is not counted.
- CostAdvance.Advance: one actor works under the cost lock, the pointer's temporary file and directory syncs are not
  modelled, and a torn write stays torn.
- CostReceipts.Desk.CommentOne: the clock does not run backwards, as `time.time` may.
- CostSampling.Select: what makes a transcript an active source is not modelled; the list is sorted and without
  repeats.
- CostDaily.Project: timestamps are seconds, a row's fields have been parsed; a list with more than 100,000 rows is
  refused, so repeating rows can matter once the list is that long.
- CostDailyCache.Cache.Update: the cache file is well formed; its own schema checks are not modelled.
- Retention.Inventory: what a snapshot hashes, ownership and links are not modelled, and neither is the text of paths
  that says which release a reader uses.
- RetentionPrune.Prune: the rename that puts a name back succeeds, and the program does not die between the two
  renames.
- Delivery.Custody.Failed: the pane's runtime check is one flag, and screens are what the triage makes of them.
- DeliveryTend.Tend: one pass at a time (`delivery_overlap.dfy` has passes that overlap, record by record); the
  alert for a long stall and its wake are not modelled.
- DeliveryTend.Observe: the marker in a message body is a set of record names, not a substring.
- AdminWaiting.AttemptedInTime: counts the sweeps that serve the row; that sweeps happen, or succeed, is not promised.
- AdminQueue.Queue.Gather: whether the administrator's budget asks for waiting is any answer; the hash that names a
  row's file is the key itself.
- CodexRequest.Socket.Request: the handshake, and JSON itself (a parameter says what a text means).
- CodexCount.Count: the introduction before the first check, and the request's way through the socket.
- CycleBrief.BriefTheorem: which characters are lost under a shared label, and fairness then, is left out; exactly
  when some are lost is not.
- CeilingApply.Apply: the text of notes and comments; whether an event was recorded.
- ContextSpend.ReadSnapshot: an unreadable file; what JSON makes of a line is a parameter, in which an empty line is
  no JSON.
- ConfigSource.Layers: fetching, caching, validation and the memo around the two merges.
- `deferrals.py` beyond the marker grammar, `cycle_advice.decide`, `cost.bindings`, and everything that only starts
  processes, talks HTTP or renders text.
