# Verified models of the recorder backend

A Dafny model of the stateful algorithms of a network video recorder, and proofs of what they keep. Each
module follows one source file or one concern of it. Code that changes state is modelled by classes and
loops proved against specification functions; what the program is for is then proved about those functions,
over all inputs and all runs.

| module | models | main results |
|---|---|---|
| `Storage`, `RetainedFootage` | reclaiming disk space: two passes over the recordings, the per-camera spans of deleted footage, the batched table updates | the moving pointer decides in linear time exactly which footage shows an instant of a retained event; the first pass deletes none of it; nothing is deleted twice; retained footage is the last resort; oldest first; overshoot of at most one segment; target reached or nothing left; when the clip-flag update is exact |
| `Timeline`, `TimelineRuns` | the write-behind cache of timeline entries, whose data dictionaries are mutable objects | what is recorded over any run is exactly what the messages call for, nothing lost or duplicated; when entries leave the cache; cached and inserted entries carry the latest sub label; no shared dictionaries |
| `PreviewListing` | the directory listing cached behind a double-checked lock, as a state machine over interleaved steps | in every interleaving: no call returns a listing older than the directory was when it statted it; no version is scanned twice in a row; no deadlock |
| `Lexicographic`, `PreviewFrames` | a time-range query answered by bisecting file names | file-name order is time order; exactly when the answer is right, for timestamps of any sign and length and in the face of other cameras' names |
| `ExportAdmission` | the check of an export, for one item and for a batch | the batch agrees with the single check if and only if an item's range is covered; when the verdict on previews is the one meant |
| `ExportArchive` | archive member names, the streaming zip buffer, the archive stream | the allocator terminates and is optimal; names are distinct and those of their exports; every member's pieces are streamed in order and no byte is lost |
| `Sessions` | login, cookie refresh and password change over JWT claims (RFC 7519, sections 4.1.2, 4.1.4 and 4.1.6), each request one step | only the password given last logs in; who may change it; token lifetimes; old tokens die out after a password change if and only if the user is not created anew; where tokens come from |
| `SessionOverlaps` | the same with reading and writing as separate steps, so that requests overlap | exactly which old sessions outlive a password change |
| `Watchdog` | the restart limiter on a bounded deque | it decides as the full history would: when a restart happens, exactly; restarts are spaced over every run |
| `Chat` | the tool loop, streaming and not | both loops follow one protocol and show the same conversation; the client is told all that the model streams; what a conversation tells, and how it ends; every tool request is answered in order; when a chain sent back is kept verbatim; when the limit bounds the calls of the model |
| `ConfigPaths`, `ConfigGrouping` | flat configuration keys, split again and grouped into nested dictionaries in place | exact round-trip conditions; the grouping is exact if and only if no path continues another; its outcome for any distinct paths |
| `ConfigFlattening`, `ConfigRoundTrip` | nested data flattened level by level into a dictionary, then split and grouped | flattening is one merge of all flat keys; exactly when nested data comes back |
| `LogRedirect` | re-assembling lines from arbitrary writes | no character is lost; the logged lines are the text's lines if and only if these are clean; the cuts do not matter if and only if no empty line follows a lone carriage return |
| `UiTabs` | splicing blocks of lines from last to first | which blocks are found; splicing is simultaneous substitution; one of the two callers is off by one |
| `ClipNames` | reading the camera off a file name | exact condition under which a printed name reads back |

`Common` holds the shared vocabulary.

## What the proofs found

Where the code does not do what its comments, documentation or caller suggest, the model follows the code; a
lemma gives an input for which it fails, and another says exactly when it holds.

- The event update of a reclaim speaks of events that overlap deleted recordings but compares with the span
  from the first to the last of them. The two agree for every event that lasts a while exactly when a camera's
  deleted footage has no gap, and for every ended event, however short, exactly when it has no seam either
  (`Storage.HullUpdateExactIffGapless`, `Storage.HullUpdateExactIffSeamless`, `Storage.EventInGapLosesClip`).
- Cached timeline entries of an ended event are not always let go of: they leave the cache exactly with a message
  of their event that is saved and makes an entry, so that those of an event that ends without clip or snapshot
  stay for good (`TimelineRuns.CacheEmptiedExactlyByFlush`, `TimelineRuns.UnsavedEventStaysCached`).
- The preview query compares names. It is right about timestamps with equally many integer digits, and about
  others exactly when the shorter one's digits are no more than the longer one's leading digits; so the frame
  at 10.0 is missing between 9.0 and 11.0 (`PreviewFrames.NameOrderRightIff`, `PreviewFrames.ExactIffWellPlaced`,
  `PreviewFrames.FrameWithMoreDigitsIsMissed`). And it can report frames of a camera named like `{camera}-5`,
  which is all that can go wrong with equally many digits (`PreviewFrames.ForeignReportedIffLeaks`,
  `PreviewFrames.ConfusableCameraLeaks`, `PreviewFrames.ExactIffNothingLeaks`).
- A batch item whose start lies after its end can be refused although its own query would find recordings
  (`ExportAdmission.BatchAgreesIffCovered`, `ExportAdmission.ReversedRangeIsRefused`).
- `is_current_hour` is true of every past timestamp. The verdict on an export of previews is the one meant
  exactly when the range begins in the current hour or later or some preview matches; a past range without
  previews is let through (`ExportAdmission.PreviewVerdictAsMeantIff`,
  `ExportAdmission.PastRangeWithoutPreviewsPasses`).
- A session begun in the very second of a password change, before it, survives the change
  (`Sessions.CutOffIffEarlierSecond`, `Sessions.SameSecondSessionSurvives`); and so does one whose login or
  refresh had read the user's row before the change was written and mints its token afterwards
  (`SessionOverlaps.OldSessionsOutliveChangeIff`, `SessionOverlaps.OverlappingRefreshOutlivesChange`).
- A password change is forgotten with the user's row. Old tokens of a user who is deleted and created again are
  exchanged again, and in no other case (`Sessions.OldTokensDieOutUnlessRecreated`,
  `Sessions.RecreationRevivesOldToken`).
- A chain of messages that a client sends back opens the next conversation verbatim exactly when no tool turn
  behind it had a call with a blank id. Providers may leave ids blank (frigate/genai/plugins/openai.py:402,
  frigate/genai/plugins/llama_cpp.py:625 and 928); the result of such a call then loses the id that ties it to
  the call (`Chat.ReplayedPrefixIsVerbatimIff`, `Chat.BlankIdIsLost`).
- Flat keys are printed with escapes and with leading empty segments dropped, but the in-memory update splits
  at every dot (`ConfigPaths.FlattenThenSplit`, `ConfigPaths.FlattenThenSplitDots`,
  `ConfigPaths.KeysThatComeBackWrong`). Keys printed alike are merged, the later value winning, so that a blank key
  beside `cameras` can overwrite a camera's value. Nested data comes back exactly when every camera value has plain
  keys and is the last to be given its flat key, and every other key that is taken for a camera's is overwritten by
  one (`ConfigRoundTrip.NestedDataComesBackIff`, `ConfigRoundTrip.BlankFirstComesBack`,
  `ConfigRoundTrip.BlankLastDoesNot`).
- `str.splitlines` breaks lines at more than the newline, so that a lone carriage return reorders output; and a
  text's output depends on the cuts exactly when it has two newlines in a row and the last lone boundary before
  them is a carriage return (`LogRedirect.LinesKeptIffClean`,
  `LogRedirect.CarriageReturnReorders`, `LogRedirect.CutsDoNotMatterIff`,
  `LogRedirect.EmptyLineAfterReturnIsSensitive`).
- `process_file` subtracts two from the number of the opening fence where one would do. Each block costs the
  document the line above its fence, or the first line of its own replacement if it stands right below
  another; and a block at the top stays where it is (`UiTabs.InjectionExactIffNothingToDo`,
  `UiTabs.InjectionTakesLineAbove`, `UiTabs.TopBlockStays`).

A first pass of a reclaim that reaches exactly the target neither stops early nor starts the second pass
(`Storage.TargetReachedOrNothingLeft`).

One result is a condition on callers that the code meets. The streaming chat loop counts tool turns only, so that
the limit bounds the calls of the model exactly for providers none of whose streams ends without a message
(`Chat.LimitHoldsIffProviderReplies`). The providers of the repository all end their streams with one, also
when an exception is raised, as the interface asks (frigate/genai/__init__.py:411-444).

## Model

| member | source | states |
|---|---|---|
| Storage.ScanRetained | frigate/storage.py:162-185 | The scan that starts at the moving pointer keeps a segment exactly when some retained event, of any camera, overlaps it; the pointer moves only over events that ended before the segment, and at most two events more than it moved are looked at |
| RetainedFootage.KeptIffSharesInstant | frigate/storage.py:162-185 | A segment is spared if and only if some instant lies both in it and in a retained event, one without an end being still under way |
| Storage.StorageMaintainer.ClearAndUnlink | frigate/storage.py:188-195 | Unlinking succeeds exactly for a path on the disk, and removes that path only |
| Storage.StorageMaintainer.Visit | frigate/storage.py:157-195 | One row extends the specified list of deletions by at most that row, counts its size only if its file was there, and keeps pointer, disk and total in step |
| Storage.StorageMaintainer.Pass | frigate/storage.py:155-226 | A pass deletes the unretained rows with a file up to the first point beyond the target, reports their total size, removes exactly their paths, and examines at most one event per retained event plus two per row |
| Storage.PassOutcome | frigate/storage.py:157-226 | Before its last deletion a pass stood at or below the target, and a pass that ends at or below the target has taken every row it was allowed to take |
| Storage.NothingDeletedTwice | frigate/storage.py:157-226 | Over both passes no recording is deleted or counted twice, only files that existed are deleted, and the total is the sum over them |
| Storage.RetainedOnlyAsLastResort | frigate/storage.py:187-226 | The first pass takes only unretained footage and the second only retained footage, and retained footage only after every unretained recording with a file |
| RetainedFootage.NoRetainedInstantInFirstPass | frigate/storage.py:120-226 | In terms of the event table: the first pass deletes only segments that show no instant of an event with a clip that is to be retained, and one that shows some goes only when every recording that shows none has gone |
| Storage.OldestFirst | frigate/storage.py:121-226 | Whatever is older than a deleted segment, has a file and was allowed in that pass, is deleted as well |
| Storage.OvershootAtMostLastSegment | frigate/storage.py:157-226 | Without the last deleted segment the total does not exceed the target |
| Storage.TargetReachedOrNothingLeft | frigate/storage.py:157-226 | At the end the target is reached or no row has a file left; reaching it exactly in the first pass means that pass took everything it could and no second pass ran |
| Storage.StorageMaintainer.FoldHulls | frigate/storage.py:236-252 | The fold yields a span for exactly the cameras with deleted footage, its bounds attained by deleted segments and containing all of them |
| Storage.StorageMaintainer.CollectHits | frigate/storage.py:254-265 | The collected ids are exactly those of ended events with a clip that overlap their camera's span |
| Storage.StorageMaintainer.ClearInBatches | frigate/storage.py:267-271 | Clearing in batches of 100,000 clears the flag of exactly the given events |
| Storage.StorageMaintainer.UpdateEvents | frigate/storage.py:234-274 | Fold, queries and batches together clear the flag of exactly the events that start before some deleted segment of their camera ends and end after some starts |
| Storage.StorageMaintainer.DeleteInBatches | frigate/storage.py:276-280 | Deleting in batches of 100,000 removes exactly the rows with the given ids |
| Storage.ClipFlagsFollowDeletedFootage | frigate/storage.py:234-274 | Every ended event that strictly overlaps a deleted segment of its camera loses its clip; events outside the span, of other cameras or still in progress are untouched |
| Storage.HullUpdateExactIffGapless | frigate/storage.py:234-271 | Among the events that last a while, only those that overlap a deleted segment are cleared if and only if the camera's deleted footage has no gap |
| Storage.HullUpdateExactIffSeamless | frigate/storage.py:234-271 | Among all ended events, only those that overlap a deleted segment are cleared if and only if that footage has neither gap nor seam |
| Storage.EventInGapLosesClip | frigate/storage.py:234-271 | A complete run with a gap in its deleted footage, and an event in the gap that loses its clip |
| Storage.StorageMaintainer.DeleteFiles | frigate/storage.py:120-228 | The two passes form a possible run, and the disk loses exactly the deleted paths |
| Storage.StorageMaintainer.ReduceStorageConsumption | frigate/storage.py:120-280 | The whole operation realises a possible run: disk, recordings table and event table change exactly as the run's deletions say, rows whose file was missing stay |
| Timeline.EntriesMade | frigate/timeline.py:133-192 | A message makes exactly the entries it calls for, one each and in order: visible for a start, gone for an end, entered zone if zones have changed and the moving object is in some, stationary or active if that has changed, attribute if there are first attributes |
| Timeline.EntriesDescribe | frigate/timeline.py:98-186 | Every entry has the message's time, camera, labels and scores; its boxes, scaled up to the frame, have the corners of the reported ones; the zones are the current ones and the attribute is the first |
| Timeline.TimelineProcessor.AddToCache | frigate/timeline.py:66-71 | Caching appends the entry behind those of its event and shares no dictionary |
| Timeline.TimelineProcessor.InsertOrSave | frigate/timeline.py:57-79 | A saved event's entry is inserted after all that was cached for it, and nothing stays cached; otherwise the entry is appended to the cache |
| Timeline.TimelineProcessor.RewriteSubLabels | frigate/timeline.py:124-131 | Writing through the cached dictionaries relabels exactly the cached entries of that event |
| Timeline.TimelineProcessor.BuildEntries | frigate/timeline.py:98-192 | The entries built from one base dictionary have a new dictionary each and read as the message's entries |
| Timeline.TimelineProcessor.HandleObjectDetection | frigate/timeline.py:81-192 | Handling a message has the effect of one step of the value model and keeps dictionaries unshared |
| Timeline.TimelineProcessor.HandleApiEntry | frigate/timeline.py:194-229 | An entry made through the API is inserted exactly for a start, and never cached |
| Timeline.TimelineProcessor.ProcessAll | frigate/timeline.py:33-55 | Over a whole run of messages table and cache are those of the value model, and no two cached entries share a dictionary |
| TimelineRuns.NoEntryLostOrDuplicated | frigate/timeline.py:33-79 | For every event the rows inserted followed by those cached are exactly the entries generated, in order, up to sub labels; API rows are all inserted, in order |
| TimelineRuns.CalledForIsRecorded | frigate/timeline.py:33-192 | Over every run, what a message on a usable camera calls for is in the table or the cache at the end, as the message reported it but for the sub label |
| TimelineRuns.RecordedWasCalledFor | frigate/timeline.py:33-192 | And nothing else is: every row of a tracked object was called for by a message of its event |
| TimelineRuns.ApiStartsAreInserted | frigate/timeline.py:194-229 | Every start that comes through the API is in the table at the end, marked as heard or as external |
| TimelineRuns.StepAppends | frigate/timeline.py:81-192 | One message appends its entries to its event's history and changes no other |
| TimelineRuns.CacheEmptiedExactlyByFlush | frigate/timeline.py:72-79 | Entries leave the cache exactly with a message of their event that is saved and makes an entry; other events' entries are untouched |
| TimelineRuns.UnsavedEventStaysCached | frigate/timeline.py:188-192 | After an end without clip or snapshot the event's entries stay cached, whatever messages of other events follow |
| TimelineRuns.CachedEntriesCarryLatestLabel | frigate/timeline.py:124-131 | When each message's previous data is that of the message before, all cached entries of an event carry its latest sub label |
| TimelineRuns.InsertedRowsAreUpToDate | frigate/timeline.py:66-79 | On such runs every row is inserted with the sub label its event has at that moment |
| PreviewListing.InvPreserved | frigate/api/preview.py:143-161 | Every step of any call, and every change of the directory, keeps the invariant on cache, lock and calls |
| PreviewListing.NoStaleListing | frigate/api/preview.py:143-161 | In every interleaving no call returns a listing older than the version it statted, the cached files are at least as new as their mtime, and the lock excludes |
| PreviewListing.AnswerIsFresh | frigate/api/preview.py:143-161 | Over every run: a call's answer was scanned no earlier than the directory it statted, and is its exact sorted contents if it has not changed since |
| PreviewListing.NoNeedlessScan | frigate/api/preview.py:143-161 | When two calls that statted the same version both scan, a scan for another version has ended in between |
| PreviewListing.NoDeadlock | frigate/api/preview.py:143-161 | As long as some call has no answer, some call can take a step towards its own |
| PreviewListing.ExactWhileUnchanged | frigate/api/preview.py:143-161 | While the directory is still at that version, a returned listing and a cached one are its exact contents, sorted |
| Lexicographic.Total | frigate/api/preview.py:183-184 | Of two different names one sorts before the other |
| PreviewFrames.StampOrderIsNumeric | frigate/api/preview.py:175-184 | Printed timestamps with equally many integer digits are in file-name order if and only if they are in numeric order |
| PreviewFrames.FrameOrderIsTimeOrder | frigate/output/preview.py:60-65 | One camera's frame names sort by time |
| PreviewFrames.NameOrderRightIff | frigate/api/preview.py:175-184 | For printed timestamps of any length, file-name order is numeric order if and only if they have equally many integer digits or the shorter one's are no more than the longer one's leading digits |
| PreviewFrames.BisectLeftSplits | frigate/api/preview.py:183 | The left bisection point separates the names below the start from the rest |
| PreviewFrames.BisectRightSplits | frigate/api/preview.py:184 | The right bisection point separates the names above the end from the rest |
| PreviewFrames.SelectedNames | frigate/api/preview.py:181-188 | For any sorted listing the answer is sorted and holds exactly the names with the camera's prefix between the two bounds |
| PreviewFrames.ForeignReportedIffLeaks | frigate/api/preview.py:175-188 | Another camera's frame is reported if and only if its name continues the camera's prefix and its rest lies between the two printed times |
| PreviewFrames.LeakingCameras | frigate/api/preview.py:175-188 | Only a camera whose name continues `{camera}-` with a digit leaks (or, from a negative start on, with a hyphen or not at all), and all its frames do when that character lies strictly between the first ones of the printed range |
| PreviewFrames.ExactIffWellPlaced | frigate/api/preview.py:173-193 | For any request, negative timestamps included, and any listing, the answer is exactly the camera's frames in the closed range if and only if no other camera's frame leaks and name order places every own frame rightly against the two ends |
| PreviewFrames.ExactWithoutConfusableCameras | frigate/api/preview.py:173-193 | When no other camera's name continues `{camera}-` in that way, the answer to any request is exact if and only if name order places the camera's own frames rightly |
| PreviewFrames.AnswerIsChronologicalIff | frigate/api/preview.py:163-193 | Two of the camera's frames come in chronological order, as documented, if and only if they have equally many integer digits or the shorter one's are no more than the longer one's leading digits |
| PreviewFrames.FrameWithMoreDigitsIsMissed | frigate/api/preview.py:175-188 | The frame at 10.0 is not among the frames from 9.0 to 11.0 |
| PreviewFrames.ConfusableCameraLeaks | frigate/api/preview.py:175-188 | A concrete frame of camera `a-5` reported for camera `a` |
| ExportAdmission.GroupByCamera | frigate/api/export.py:197-217 | Grouping reports the unknown cameras and lists, for every other camera, the ranges asked of it in order |
| ExportAdmission.CheckCamera | frigate/api/export.py:219-248 | One query over the union of a camera's ranges, filtered in memory, reports exactly the items no fetched row matches |
| ExportAdmission.GetItemRecordingExportErrors | frigate/api/export.py:192-250 | The batch reports for every item what is specified for it, and nothing else |
| ExportAdmission.BatchRefinesSingle | frigate/api/export.py:149-250 | For a configured camera and a covered range the batch's verdict is that of the item's own query |
| ExportAdmission.BatchAgreesIffCovered | frigate/api/export.py:206-250 | The two agree on every recordings table if and only if the item is covered; every range with start at or before end is |
| ExportAdmission.RefusedIffNothingOverlaps | frigate/api/export.py:155-250 | With well-formed recordings an item is refused exactly when no recording of its camera overlaps its closed range |
| ExportAdmission.ReversedRangeIsRefused | frigate/api/export.py:206-250 | A batch of two items, one reversed, and a recording that only the single check finds |
| ExportAdmission.PreviewVerdictAsMeantIff | frigate/api/export.py:175-190 | For any previews the verdict is that of the current hour's test as named (frigate/util/time.py:37-43) if and only if the range begins in the current hour or later or some preview of the camera matches |
| ExportAdmission.PastRangeWithoutPreviewsPasses | frigate/api/export.py:175-190 | A range in the hour before, without any preview, is let through |
| ExportArchive.CandidateInjective | frigate/api/export.py:407-419 | The candidate names of a base name are pairwise different |
| ExportArchive.Pigeonhole | frigate/api/export.py:407-419 | If the first n candidates are all in use, at least n names are in use |
| ExportArchive.UniqueArchiveName | frigate/api/export.py:407-419 | The allocator returns the first unused candidate, within as many tries as there are used names plus one, and records it |
| ExportArchive.FirstUnusedIsUnique | frigate/api/export.py:407-419 | There is only one such name |
| ExportArchive.NamedAfterExport | frigate/api/export.py:407-419 | A member has its export's sanitized name, or else its camera and date, with a counter only when that name is in use |
| ExportArchive.StreamingZipBuffer.Write | frigate/api/export.py:386-392 | A write is queued unless empty, and the offset grows by its length |
| ExportArchive.StreamingZipBuffer.Tell | frigate/api/export.py:394-395 | The offset is the number of bytes written |
| ExportArchive.StreamingZipBuffer.Drain | frigate/api/export.py:402-404 | Draining hands out exactly what is queued, in order: then all that was written has been handed out |
| ExportArchive.NonEmptyBytes | frigate/api/export.py:386-392 | Leaving out empty writes loses no byte |
| ExportArchive.ArchiveNamesDistinct | frigate/api/export.py:429-439 | All names in one archive are pairwise different |
| ExportArchive.MembersInOrder | frigate/api/export.py:429-455 | The archive writes its members one after another, each present one's opening, then its chunks in order, then its closing, and nothing for an absent one |
| ExportArchive.PresentInOrder | frigate/api/export.py:429-437 | The exports named are the present ones, in order |
| ExportArchive.PresentOneForOne | frigate/api/export.py:429-437 | As many exports are named as there are members with a video |
| ExportArchive.StreamCaseArchive | frigate/api/export.py:422-455 | What is yielded is, byte for byte, what the archive writes, closing included; no empty piece is yielded; every present member gets the first name unused before it |
| Sessions.AuthServer.Login | frigate/api/auth.py:848-890 | Login answers and changes the state as specified, an unknown role falling back to viewer |
| Sessions.AuthServer.Authenticate | frigate/api/auth.py:678-787 | Authentication answers and hands out a new cookie as specified |
| Sessions.AuthServer.UpdatePassword | frigate/api/auth.py:975-1056 | A password change answers and changes the state as specified |
| Sessions.TokensAreBounded | frigate/api/auth.py:410-415 | Over every sequence of requests every token has `exp` at most `iat` plus the session length |
| Sessions.ChangeIsRemembered | frigate/api/auth.py:1024-1031 | A recorded password change is never forgotten or moved back while the user exists |
| Sessions.OldTokensDieOutUnlessRecreated | frigate/api/auth.py:731-767 | Whatever requests follow a change, deletion and re-creation of the user included, a due token issued before the second of the change is exchanged if and only if the last request to touch the user's record created it anew; from the change plus one session length on it is refused in any case |
| Sessions.RecreationRevivesOldToken | frigate/api/auth.py:912-966 | A concrete run in which an old token, refused after the change, is exchanged once the user has been deleted and created again |
| Sessions.OwnChangeKeepsSession | frigate/api/auth.py:1035-1051 | The token issued with a change of one's own password is not rejected by that change, whatever follows that leaves the password alone |
| Sessions.CutOffIffEarlierSecond | frigate/api/auth.py:740-754 | A due cookie is exchanged after a change if and only if its issue second is not before that of the change |
| Sessions.SameSecondSessionSurvives | frigate/api/auth.py:740-754 | A concrete session begun before a change, in the same second, that is carried past it |
| Sessions.EveryTokenWasGranted | frigate/api/auth.py:757-760 | Over every run a token's user and role were granted together by a login with the password on record at that time, or by a change of that user's own password, as an administrator or with that password: exchanges never renew the role |
| Sessions.LoginNeedsLastPassword | frigate/api/auth.py:848-890 | After any requests a login succeeds if and only if it presents the password that the last change or creation gave the user |
| Sessions.OnlyNewPasswordLogsIn | frigate/api/auth.py:1024-1031 | After a password change only the new password logs in, until the record is touched again |
| Sessions.RecordChangesByRight | frigate/api/auth.py:912-1031 | Over every run the password on record changes only by an administrator, by the user with that password, or by creation or deletion of the user; and to at least twelve characters |
| Sessions.RoleAfter | frigate/api/auth.py:1056-1091 | A user has the role that was set last |
| Sessions.AcceptedTokensAreLive | frigate/api/auth.py:718-787 | A request is accepted only with a token handed out less than a session length before, and a token is exchanged only for a cookie that is due |
| Sessions.SessionLasts | frigate/api/auth.py:718-890 | Whatever follows a login that leaves the account alone, its token is accepted if and only if a session length has not passed since, and an exchange begins another |
| SessionOverlaps.InvPreserved | frigate/api/auth.py:718-760 | Every step of any request keeps that no token lasts longer than a session and nothing comes from the future |
| SessionOverlaps.EveryRunKeepsInv | frigate/api/auth.py:410-415 | In every interleaving of overlapping requests every token lasts at most the session length |
| SessionOverlaps.OldSessionsOutliveChangeIff | frigate/api/auth.py:736-760 | After a password change an old session is alive if and only if one of its tokens was issued since the second of the change's stamp, before the change was written, or a login or refresh that had read the row before has minted since |
| SessionOverlaps.OtherwiseOldTokensDieOut | frigate/api/auth.py:731-767 | Otherwise no old token is exchanged, and all have expired one session length after the second of the change |
| SessionOverlaps.OverlappingRefreshOutlivesChange | frigate/api/auth.py:736-760 | A concrete interleaving in which a refresh carries an old session past the change |
| Watchdog.MonitoredProcess.IsRestartingTooFast | frigate/watchdog.py:33-39 | The pruned deque is full exactly when the fifth most recent restart of the whole history is at most 60 seconds old |
| Watchdog.MonitoredProcess.CheckProcess | frigate/watchdog.py:70-112 | A look at a process decides as the full history says, records a restart exactly when it was made, and the deque never evicts an entry |
| Watchdog.MonitoredProcess.Watch | frigate/watchdog.py:70-136 | Over a whole run the recorded history is that of the rule |
| Watchdog.RestartsAreSpaced | frigate/watchdog.py:33-105 | Over every run with a clock that does not go backwards, restarts are in order and any six in a row take more than 60 seconds |
| Watchdog.RestartedIff | frigate/watchdog.py:33-112 | Over every run, at every look: a restart is recorded if and only if the process has crashed, fewer than five restarts were recorded in the last minute and the attempt gets as far as starting the new process |
| Watchdog.BackedOffIff | frigate/watchdog.py:70-93 | A crashed process is left down exactly while five restarts fall within the last minute, and a clean exit is never restarted |
| Chat.ExecutePendingTools | frigate/api/chat.py:1006-1113 | Every call yields exactly one result with its id, in order, also when the tool raises; images follow separately |
| Chat.CompletionLoop | frigate/api/chat.py:1318-1434 | The loop without streaming returns the conversation and the ending of the protocol, and the number of tool turns made |
| Chat.IterationsAreToolTurns | frigate/api/chat.py:1318-1434 | That number is the number of requests for tools the conversation has gained |
| Chat.EndingIs | frigate/api/chat.py:1203-1434 | Replies are acted on one after another while they ask for tools and the limit allows; the conversation ends well with the first that does not ask, and badly with the first that reports an error |
| Chat.ConversationTells | frigate/api/chat.py:1006-1113 | What a conversation gains tells of the replies acted on, one after another and of nothing else: what the model said, how each call turned out, and every image |
| Chat.Forward | frigate/api/chat.py:1222-1262 | One stream is passed on up to the event that decides how it ends |
| Chat.StreamLoop | frigate/api/chat.py:1203-1309 | The streaming loop sends exactly the specified transcript |
| Chat.PassedOnIsComplete | frigate/api/chat.py:1222-1245 | Of a stream one chunk is sent for each event before the deciding one, in order, of the same kind and with the same text |
| Chat.ClientIsToldAll | frigate/api/chat.py:1203-1309 | Over the whole transcript the client is told, chunk by chunk, exactly what the streams listened to say, each up to its deciding event |
| Chat.HeardIs | frigate/api/chat.py:1222-1262 | How a stream ends is decided by its first final message or the client's leaving |
| Chat.LastCall | frigate/api/chat.py:1203-1309 | Once the client has left, or a reply has reported an error or asked for no tools, the model is not called again |
| Chat.StreamShowsProtocol | frigate/api/chat.py:1203-1309 | The conversations it shows are those of the protocol on the replies it heard |
| Chat.StreamMarksEnding | frigate/api/chat.py:1203-1309 | It sends the end marker exactly when the conversation ended well, and an error exactly when the model reported one |
| Chat.LastSnapshotIsOutcome | frigate/api/chat.py:1218-1309 | The last conversation shown is the protocol's, and each one extends those before |
| Chat.LoopsAgree | frigate/api/chat.py:1218-1434 | For the same replies both loops give their client the same conversation |
| Chat.SilentStreamsAreNotCounted | frigate/api/chat.py:1218-1240 | The model is called at most as often as the limit plus the number of streams without a message, and silent streams alone are all called for |
| Chat.LimitHoldsIffProviderReplies | frigate/api/chat.py:1218-1309 | The limit bounds the calls of the model for all scripts of a provider if and only if none of its streams ends without a message or a disconnect |
| Chat.EveryConversationIsWellPaired | frigate/api/chat.py:1264-1305 | A conversation extends the one it started from, every tool request is followed by one result per call with matching ids in order and no stray result occurs, and tool turns stay within the limit |
| Chat.ClientMessagesAreKept | frigate/api/chat.py:1166-1191 | The conversation holds the client's messages, in order and with their roles, contents and calls, behind a system message: its own, or one with the prompt |
| Chat.ReplayedPrefixIsVerbatimIff | frigate/api/chat.py:1159-1191 | A chain sent back by the client opens the next conversation verbatim, the system prompt included, if and only if no tool turn behind it had a call with a blank id |
| Chat.BlankIdIsLost | frigate/api/chat.py:1184-1185 | A tool turn with a blank id whose result comes back without the id |
| ConfigPaths.SplitConfigKeyPath | frigate/util/builtin.py:234-261 | The loop over the characters computes the specified parts |
| ConfigPaths.KeyPathShowsVisible | frigate/util/builtin.py:215-231 | A flat key is the joining of the escaped segments that remain when leading empty ones are dropped |
| ConfigPaths.FlattenThenSplit | frigate/util/builtin.py:215-261 | Splitting with regard to escapes gives back the path without its leading empty segments: the path itself if and only if it is anchored |
| ConfigPaths.FlattenThenSplitDots | frigate/api/app.py:696 | Splitting at every dot gives back the path if and only if it is anchored and no segment contains a dot or a backslash |
| ConfigPaths.KeysThatComeBackWrong | frigate/api/app.py:696 | Concrete paths, one with a dot in a key and one with a leading empty key, that do not come back |
| ConfigPaths.DottedSplit | frigate/api/app.py:696 | Splitting at dots loses nothing: joining with dots gives the text |
| ConfigGrouping.Dictionaries.SetDefault | frigate/api/app.py:701-706 | `setdefault` reaches the entry of the key, adding an empty dictionary if there was none, and changes no leaf |
| ConfigGrouping.Dictionaries.Assign | frigate/api/app.py:707-714 | Assigning through the reference reached sets the leaf at its path, removes what lay below it and changes nothing else |
| ConfigGrouping.Dictionaries.SetPath | frigate/api/app.py:700-714 | Walking down and assigning has the effect of placing the path among the leaves, and fails exactly when it passes through a scalar |
| ConfigGrouping.GroupUpdates | frigate/api/app.py:693-714 | The loop over the flat keys succeeds exactly when the specified grouping does, and holds exactly its leaves |
| ConfigGrouping.ClashLosesALeaf | frigate/api/app.py:693-714 | If one path continues another, the one set first is lost, for good |
| ConfigGrouping.ExactIffPrefixFree | frigate/api/app.py:693-714 | Grouping distinct paths loses, merges and invents nothing if and only if no path continues another |
| ConfigGrouping.FlatKeysGroupExactlyIffPrefixFree | frigate/api/app.py:693-714 | The same for the distinct flat keys of a dictionary, in any order |
| ConfigGrouping.OrderDoesNotMatter | frigate/api/app.py:693-714 | On prefix-free updates the result does not depend on their order |
| ConfigGrouping.GroupingOutcome | frigate/api/app.py:693-714 | Grouping any distinct paths fails if and only if one continues an earlier one, and otherwise leaves exactly the updates that no later one overwrites |
| ConfigFlattening.MergeKeepsLast | frigate/util/builtin.py:226 | In the dictionary made from a list of pairs a key has the value given last |
| ConfigFlattening.MergeKeepsPlaces | frigate/util/builtin.py:226 | And its keys stand in the order in which they are first given |
| ConfigFlattening.FlattenIsMerge | frigate/util/builtin.py:215-226 | Flattening level by level, with a dictionary made at each level, gives what one dictionary made from the flat keys of all leaves at once would |
| ConfigFlattening.LeavesAreApart | frigate/util/builtin.py:215-226 | No leaf's path in nested data is another's or continues it |
| ConfigFlattening.LeavesIff | frigate/util/builtin.py:215-226 | The leaves are exactly the scalars of the data, each by the path that leads to it |
| ConfigRoundTrip.TakenIff | frigate/api/app.py:696-698 | A flat key is taken for a camera's if and only if the path it shows begins with `cameras` and has three segments, or two of which the second contains a dot |
| ConfigRoundTrip.NestedDataComesBackIff | frigate/api/app.py:660-714 | Nested data flattened, taken apart and grouped leaves exactly the values of its camera paths if and only if these have plain keys and the last value of their flat key, every other path taken for a camera's continues that of a camera value coming later, and no such path is continued by a later one |
| ConfigRoundTrip.BlankFirstComesBack | frigate/util/builtin.py:215-226 | A blank key with a camera's keys below it, coming before `cameras`, is overwritten, and the data comes back |
| ConfigRoundTrip.BlankLastDoesNot | frigate/util/builtin.py:215-226 | Coming after it, it overwrites the camera's value, and the data does not |
| LogRedirect.LogRedirect.Write | frigate/log.py:165-183 | A write buffers text without a newline, and otherwise logs the pieces that end with one and buffers the others |
| LogRedirect.LogRedirect.Flush | frigate/log.py:188-193 | Flush logs exactly the buffered text, if any, and leaves nothing |
| LogRedirect.LogRedirect.WriteAll | frigate/log.py:165-183 | Over any sequence of writes buffer and log are those of the value model |
| LogRedirect.BufferHoldsNoNewline | frigate/log.py:165-183 | Whatever is written, the buffer never holds a newline and as many lines are logged as were completed |
| LogRedirect.NothingLost | frigate/log.py:165-183 | Whatever is written, and however it is cut, the characters logged, with a newline for every line, and those in the buffer are together exactly those written |
| LogRedirect.CleanIsProcessed | frigate/log.py:173-183 | A text whose complete lines are clean is logged line by line, the unterminated tail staying behind |
| LogRedirect.UncleanIsNotProcessed | frigate/log.py:173-183 | A text with a line that is not clean is not logged as its lines |
| LogRedirect.LinesKeptIffClean | frigate/log.py:152-193 | However a text is cut, its lines are logged if and only if they are clean, and then the buffer is the unterminated tail |
| LogRedirect.CutsDoNotMatterIff | frigate/log.py:165-183 | The outcome does not depend on how a text is cut if and only if nowhere in it two newlines come in a row whose last lone boundary before them is a carriage return |
| LogRedirect.CleanIsNotSensitive | frigate/log.py:165-183 | Clean text has no such place |
| LogRedirect.EmptyLineAfterReturnIsSensitive | frigate/log.py:165-183 | A family of texts with such a place |
| LogRedirect.NewlineOnlyIsClean | frigate/log.py:173-177 | Text whose only line boundary is the newline is clean |
| LogRedirect.CarriageReturnReorders | frigate/log.py:173-183 | Text before a lone carriage return is held back and comes out behind the line that follows |
| LogRedirect.BoundaryReorders | frigate/log.py:173-183 | The same for each of the other boundaries that `str.splitlines` knows besides the newline |
| UiTabs.SpliceReversed | docs/scripts/generate_ui_tabs.py:275-282 | Splicing ascending disjoint blocks from last to first is simultaneous substitution |
| UiTabs.EverythingElseUnchanged | docs/scripts/generate_ui_tabs.py:275-282 | In the result every stretch between blocks is there unchanged, moved by the blocks before it, and every replacement stands where its block was |
| UiTabs.ExtractConfigTabsBlocks | docs/scripts/lib/yaml_extractor.py:134-258 | The nested loops find the specified blocks |
| UiTabs.BlocksAscend | docs/scripts/lib/yaml_extractor.py:134-258 | The blocks found lie within the document, one after another |
| UiTabs.FoundIff | docs/scripts/lib/yaml_extractor.py:134-258 | A block is found if and only if its first line opens a stretch, not lying in one opened further up, its last line is the first closing one after it, and its body is usable |
| UiTabs.PatchesIff | docs/scripts/generate_ui_tabs.py:203-273 | The patches are those of the blocks that are renewed, each for the lines of its block, and no others |
| UiTabs.RegenerateFile | docs/scripts/generate_ui_tabs.py:203-284 | For every document the result is the substitution of exactly the blocks whose text was generated anew |
| UiTabs.InjectReversed | docs/scripts/generate_ui_tabs.py:152-165 | The loop of `process_file` computes the specified splice, `start - 2` included |
| UiTabs.InjectionExactIffNothingToDo | docs/scripts/generate_ui_tabs.py:152-165 | For fenced blocks wherever they are, the result is the intended substitution if and only if there is nothing to replace |
| UiTabs.InjectionTakesLineAbove | docs/scripts/generate_ui_tabs.py:152-165 | Off the top of the document the splice is the substitution of each block together with the line above it or, next to another block, without the first line of its replacement; each block costs one line |
| UiTabs.TopBlockStays | docs/scripts/generate_ui_tabs.py:152-165 | A block at the top stays in place up to its closing fence |
| ClipNames.LongestOwnerIsFound | frigate/api/media_auth.py:160-168 | The camera found is the one with the longest configured name that, with a hyphen, begins the stem; none is found only if there is none |
| ClipNames.OrderDoesNotMatter | frigate/api/media_auth.py:160-168 | The order of the configuration does not matter |
| ClipNames.ClipNameReadsBack | frigate/api/media_auth.py:171-180 | A printed clip name reads back as its camera if and only if no longer configured name fits it |
| ClipNames.ThumbNameReadsBack | frigate/api/media_auth.py:183-191 | The same for review thumbnails |
| ClipNames.OutdoneOnlyByContinuation | frigate/api/media_auth.py:160-191 | Only a configured name that continues the camera's own with a hyphen can stand in its way |

## Left out

- I/O, clocks, threads and engines: clock readings, query results, stat and scan outcomes, the model's replies and the tools' results are inputs; a query result is a sequence with the promise the query makes; the disk is the set of its paths.
- Storage: bandwidth averaging, disk-usage readings and the thread loop. Rows that other threads add or change while a reclaim runs are not modelled; the two listings are of one table.
- `Storage.StorageMaintainer.EventsToUpdate`: yields the matching ids in no particular order, as the query does.
- Timeline: detect dimensions are positive where present; message kinds other than tracked object and API are ignored as in the code. `TimelineRuns` names the camera configuration as fixed.
- Preview listing: a state machine over steps instead of a class, since the point is the interleaving of threads. Each change of the directory is taken to give it a larger modification time; a missing directory, which makes the call raise, is not modelled.
- Preview frames: timestamps are decimal numerals over digits, those of a request with or without a sign; floats that print with an exponent are not modelled. Which camera names can leak at all is not characterised by the names alone: whether a frame leaks depends on the range as well, and `PreviewFrames.LeakingCameras` gives a necessary and a sufficient condition on the name.
- Export: job creation, permissions, the database rows of exports, and the checks of case and image. What the zip library writes is given piece by piece; the allocator hands back the set of used names instead of changing it in place; `sanitize` is any function on names; the date is a whole number of seconds.
- Sessions: signatures (a token decodes exactly when it was handed out), password hashing, rate limits, the branches for internal ports, disabled authentication and proxy headers, and the table of access decisions, whose outcome is an input. The time of a password change is taken to be a point in time; the code stores local time without a zone. Creating and deleting users and setting roles are steps of the specification only. `Sessions` takes each request as one step; `SessionOverlaps` splits reading from writing, for one user whose account stays and whose passwords are told apart by their number.
- Watchdog: a process whose handle has been closed by a failed restart, and the detector checks of the loop.
- Chat: the tools themselves, the list of tool-call summaries in the response, and log output. A stream is a finite list of events.
- Configuration: `deep_merge` and dictionary values, which the flattening never produces; YAML parsing and writing; applying the grouped sections. The data is taken to be without null values, which become empty strings, and without redacted ones, which are restored or dropped.
- `ConfigGrouping.Dictionaries.SetPath`: creates the section's dictionary only when the path goes on below it; the code creates it in any case and then overwrites it, which leaves no trace.
- Log redirection: the logger's own behaviour, and the context-manager methods.
- Documentation scripts: generating the tab text, parsing YAML, adding imports and the statistics; `isOpen`, `isClose`, `usable` and `renew` stand for them. A fence that is never closed is not modelled.
- Media file names: the resolution of the other media URIs.
