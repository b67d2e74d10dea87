# Camera synchronisation test of camerad, modelled in Dafny

openpilot's camerad test (`system/camerad/test/test_camerad.py`) runs the
camera daemon for a 30 second window. It drains the messages of the three
camera services (`roadCameraState`, `driverCameraState`,
`wideRoadCameraState`) into one log per camera. Then it checks the logs:

- each camera's message count must lie strictly within ±5% of
  `frequency * TEST_TIMESPAN`;
- every message is grouped under its `frameId`;
- the three smallest and three largest frame ids are dropped, three rounds
  of "delete `min`, delete `max`";
- `test_frame_skips`: every id from the smallest remaining id up to, but not
  including, the largest must have a message from every camera;
- `test_frame_sync`: within every remaining id, the start-of-frame timestamps
  (`timestampSof`, in nanoseconds) must spread by at most 0.5 ms.

This project models that bookkeeping, starting from the frozen per-camera
logs, and proves what each stage promises.

Modules:

- `CameraMessages` (`camera_messages.dfy`): cameras, messages
  `Msg(cam, frameId, timestampSof)`, camera logs, the frame map
  `map<nat, seq<Msg>>`, the test's constants, `min`/`max` of the frame ids,
  and the defaultdict-style read `Lookup`.
- `Aggregation` (`aggregation.dfy`): the frequency assert and the grouping by
  frame id. `CollectByFrameId` is the nested loop of the source, proved
  against the specification function `GroupByFrameId(Flatten(logs))`.
- `Trimming` (`trimming.dfy`): the three trimming rounds. `TrimEdges` is a
  loop over a map, proved against `Surviving`, the keys with at least three
  keys below and three above them.
- `FrameSkips` (`frame_skips.dfy`): the skip scan. `FrameSkips` is a loop
  over the id range, proved against `SkipsIn`.
- `FrameSync` (`frame_sync.dfy`): the sync check, as pure functions (the
  source uses dict comprehensions).
- `CameradTest` (`camerad_test.dfy`): the test class. It has the fields
  `logs` and `logByFrameId`, `SetUpClass` updates them, and the two tests
  read them.

The tolerances are exact integer comparisons:

- the frame-count check is `95*expected < 100*count < 105*expected`, proved
  equal to the real-number comparison `0.95*expected < count < 1.05*expected`;
- the sync check is `spread > 500000` nanoseconds.

Two behaviours of the code that the model keeps as they are:

- Three trimming rounds succeed with six distinct frame ids and leave an
  empty map. `test_frame_skips` then raises in `min`, and `test_frame_sync`
  passes with nothing to check. `TrimEdges` and `FrameSkips` model exactly
  this.
- Nothing stops one camera from sending several messages for one frame id,
  so the model allows duplicates. The skip check provably ignores them
  (`DuplicateIgnored`). The sync check compares every message present.

## Model

| member | source | states |
|---|---|---|
| CameraMessages.Lookup | system/camerad/test/test_camerad.py:58 | reading `log_by_frame_id[frame_id]` gives the bucket of a present id and `[]` for an absent one |
| CameraMessages.EmptyReadIffAbsent | system/camerad/test/test_camerad.py:58 | on a map with non-empty buckets, a read comes back empty iff the id is absent |
| CameraMessages.MinKey | system/camerad/test/test_camerad.py:46 | `min` of a non-empty key set is one of the keys and no key is smaller |
| CameraMessages.MaxKey | system/camerad/test/test_camerad.py:46 | `max` of a non-empty key set is one of the keys and no key is larger |
| Aggregation.ExpectedFrames | system/camerad/test/test_camerad.py:38 | the expected count is a whole multiple of the 30 s window from which the nominal rate is recovered exactly; it is zero iff the rate is zero |
| Aggregation.FrequencyOk | system/camerad/test/test_camerad.py:38-39 | the scaled integer test holds iff `0.95*expected < count < 1.05*expected` over the reals, both bounds strict; it never holds for zero expected frames or zero messages |
| Aggregation.Flatten | system/camerad/test/test_camerad.py:37-41 | the messages in the order the loops visit them, as many as all logs hold together |
| Aggregation.FramesOf | system/camerad/test/test_camerad.py:41-42 | a bucket holds only messages of the input that carry its frame id, and no more messages than the input |
| Aggregation.FramesOfCount | system/camerad/test/test_camerad.py:41-42 | a bucket holds each message with its id exactly as often as the input does, and no message with another id |
| Aggregation.GroupByFrameId | system/camerad/test/test_camerad.py:36-42 | the keys are exactly the frame ids that occur; every bucket is non-empty and holds only input messages with its own id |
| Aggregation.GroupPartition | system/camerad/test/test_camerad.py:41-42 | partition: each message lies in the bucket of its own id as often as it was captured, and in no other bucket |
| Aggregation.LookupGroup | system/camerad/test/test_camerad.py:41-42 | reading any id, present or absent, gives exactly the captured messages with that id |
| Aggregation.GroupAppend | system/camerad/test/test_camerad.py:42 | one `append` to the bucket of the message's id extends the grouping by that message |
| Aggregation.CollectByFrameId | system/camerad/test/test_camerad.py:36-42 | succeeds iff every camera passes the frequency assert, with the grouping of all messages; otherwise fails with the first failing camera's expected and actual counts |
| Aggregation.AggregationKeepsCount | system/camerad/test/test_camerad.py:37-42 | the bucket sizes add up to the total number of messages in all camera logs |
| Aggregation.BucketsKeepCameraOrder | system/camerad/test/test_camerad.py:37-48 | any map whose buckets are buckets of the grouping, the trimmed map included, keeps each camera's messages in arrival order |
| Aggregation.BucketKeepsCameraOrder | system/camerad/test/test_camerad.py:37-42 | within a bucket, one camera's messages are exactly its messages with that id, in arrival order |
| Trimming.TrimStep | system/camerad/test/test_camerad.py:46-48 | deleting the current `min` and `max` (when distinct) is one more round of trimming: every other key has one key fewer below it and one fewer above it |
| Trimming.TrimmedBySurviving | system/camerad/test/test_camerad.py:45-48 | after `r` rounds the keys left are exactly those with at least `r` keys below and `r` above |
| Trimming.TrimEdges | system/camerad/test/test_camerad.py:45-48 | succeeds iff there are at least 6 distinct ids; it then removes exactly the 3 smallest and 3 largest (6 keys) and leaves every other bucket unchanged; on failure, an even count means `min` of an empty map and an odd count means a second `del` of one key |
| FrameSkips.MissingCameras | system/camerad/test/test_camerad.py:58-59 | the skipped cameras are a subset of `CAMERAS`; an id without a bucket misses all three |
| FrameSkips.MissingCamerasIff | system/camerad/test/test_camerad.py:58-59 | a camera is skipped for an id iff none of the messages read for that id comes from it |
| FrameSkips.SkipsIn | system/camerad/test/test_camerad.py:57-61 | an id is recorded iff it lies in `[lo, hi)` and misses a camera; the recorded value is exactly the missing cameras |
| FrameSkips.FrameSkips | system/camerad/test/test_camerad.py:54-61 | with no ids, `min` raises; otherwise the result is the skips over `[min, max)`, and the maximum id is never reported |
| FrameSkips.SkipsEmptyIff | system/camerad/test/test_camerad.py:59-62 | no skips are recorded iff every id in `[lo, hi)` has a message from every camera |
| FrameSkips.DuplicateIgnored | system/camerad/test/test_camerad.py:58-59 | another message from a camera already seen for an id leaves the recorded skips unchanged |
| FrameSkips.SingleDropReported | system/camerad/test/test_camerad.py:57-61 | on otherwise complete frames, dropping one camera at one id inside the range gives exactly `{id: {camera}}` |
| FrameSkips.ScanWithDefaultInsert | system/camerad/test/test_camerad.py:58 | as written, the scan leaves every id of `[lo, hi)` as a key of the frame map, with an empty bucket where no message was captured |
| FrameSkips.DefaultInsertLeavesEmptyBucket | system/camerad/test/test_camerad.py:58-66 | an id of the range with no message at all is left as an empty bucket, so the frame map no longer satisfies what `max(ts)` in the sync test needs |
| FrameSync.TimestampsMembers | system/camerad/test/test_camerad.py:65 | a timestamp is in a frame's timestamp list iff some message of that frame carries it |
| FrameSync.MaxOf | system/camerad/test/test_camerad.py:66 | `max(ts)` is in the list and no element is larger |
| FrameSync.MinOf | system/camerad/test/test_camerad.py:66 | `min(ts)` is in the list and no element is smaller |
| FrameSync.Spread | system/camerad/test/test_camerad.py:66 | the spread is non-negative, bounds every pairwise difference, and equals one such difference |
| FrameSync.FrameTimes | system/camerad/test/test_camerad.py:65 | `frame_times` has exactly the ids of the frame map |
| FrameSync.Diffs | system/camerad/test/test_camerad.py:66 | `diffs` has exactly the ids of the frame map, and every value is non-negative |
| FrameSync.GetDesc | system/camerad/test/test_camerad.py:69-71 | the description carries the given spread and, for each message of the frame in bucket order, its camera and start-of-frame time |
| FrameSync.LaggyFrames | system/camerad/test/test_camerad.py:69-72 | flagged ids are a subset of the trimmed ids; each carries exactly its frame's spread, which is above 0.5 ms, and one (camera, timestamp) entry per message |
| FrameSync.LaggyIff | system/camerad/test/test_camerad.py:65-72 | an id is flagged iff two of its messages, from whichever cameras are present, started more than 500000 ns apart; a spread of exactly 0.5 ms passes |
| FrameSync.SyncPassIff | system/camerad/test/test_camerad.py:72-73 | the sync test passes iff no bucket holds two messages more than 0.5 ms apart |
| CameradTest.TestCamerad.constructor | system/camerad/test/test_camerad.py:28-34 | the logs, one per camera holding only that camera's messages, are frozen as captured and no frame bookkeeping exists yet |
| CameradTest.TestCamerad.SetUpClass | system/camerad/test/test_camerad.py:36-48 | succeeds iff all counts pass and at least 6 distinct ids were captured; `log_by_frame_id` then holds every id but the 3 smallest and 3 largest, each with all its captured messages and each camera's messages in arrival order; a failing count reports the first failing camera with its expected and actual counts; otherwise the parity of the id count decides whether `min` or `del` raised |
| CameradTest.TestCamerad.TestFrameSkips | system/camerad/test/test_camerad.py:54-62 | raises (None) iff no id is left; passes iff no skip is recorded, i.e. iff every id in `[min, max)` has every camera |
| CameradTest.TestCamerad.TestFrameSync | system/camerad/test/test_camerad.py:64-73 | the laggy frames are those of the frame map; passes iff no bucket is out of sync |
| CameradTest.TestCamerad.RunTests | system/camerad/test/test_camerad.py:54-73 | run in unittest order, skip test then sync test: the skip verdict passes iff some id is left and every id in `[min, max)` has every camera, and the sync verdict is the one for the frame map `setUpClass` produced, whatever the skip test found |

## Findings

| source | as written | input that shows it | evidently intended | confidence | as-written member | corrected member |
|---|---|---|---|---|---|---|
| system/camerad/test/test_camerad.py:58 | `self.log_by_frame_id[frame_id]` on the shared defaultdict inserts an empty list for every id in `[min, max)` that no camera produced. unittest runs `test_frame_skips` before `test_frame_sync`, so the sync test then calls `max([])` and raises ValueError instead of reporting lag | trimmed frame ids `{10, 12}`: id 11 has no message from any camera | the skip and sync checks are independent; the sync check runs on the frame map `setUpClass` built | medium (depends on unittest's alphabetical test order); not executed | FrameSkips.DefaultInsertLeavesEmptyBucket | CameradTest.TestCamerad.RunTests |

The model reads absent ids as empty without inserting them (`Lookup`, used by
`FrameSkips.FrameSkips`). `FrameSkips.ScanWithDefaultInsert` models only the
as-written side effect.

## Left out

- Process lifecycle is not modelled: starting and stopping camerad, `managed_processes`, `tearDownClass` and the `TICI` hardware skip (lines 20-21, 24, 34, 51-52).
- The capture is not modelled: the messaging sockets, `drain_sock`, and the `time.sleep`/`time.monotonic` polling window (lines 25-33). The model starts from the frozen per-camera logs given to the constructor: at most one log per camera, each holding only that camera's messages, in the order `cls.logs` lists them.
- `service_list` is not modelled. The nominal frequency is a parameter `Camera -> nat`, so non-integral frequencies are not covered.
- Floating point is replaced by exact integer comparisons. IEEE rounding of `expected*0.95` or `expected*1.05` could in principle move a count that sits exactly on a bound. The sync spread is kept in nanoseconds instead of being divided by `1e6`. The descriptions report nanoseconds, not milliseconds.
- The message texts (f-strings) and the unittest/assert machinery are not modelled. Failures are `Option`/`Result` values, and test verdicts are booleans.
- Integer widths are not modelled: frame ids and timestamps are unbounded `nat`, so 64-bit wrap-around is not covered.
- The defaultdict insertion at line 58 is modelled only by the as-written member of the finding above.
- CameradTest.TestCamerad.SetUpClass: on failure it leaves `logByFrameId` as it was. The source at that point holds a partly filled or partly trimmed map, but no test runs after `setUpClass` has raised.
