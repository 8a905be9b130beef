# M202A-CARLA core, modelled in Dafny

This project models the sequential logic inside the M202A-CARLA scripts.
Those scripts match vehicles seen by simulated cameras to encrypted
camera traffic, and detect cars from 802.11 capture activity. The modelled
parts are:

- **Association engine** (`M202A_algorithm2.py`). One constant-velocity
  Kalman filter per visible car, seeded from the car's first and last
  sightings. The events are sorted and grouped into 0.5 s windows. Each
  window becomes a cost matrix of squared horizontal distances, an
  assignment, and a gate at distance 150 that decides which filters are
  corrected. `KalmanFilter` is a Dafny class whose methods update its
  fields. The filter bank is a `map<int, KalmanFilter>`. Every imperative
  method is proved against a value-level specification (`Step`, `Track`).
- **HEVC byte-stream scanner** (`scripts/hevc_camera.py`). Annex B start
  codes of ITU-T H.265, `nal_unit_type` from the NAL unit header
  (section 7.3.1.2 of H.265), the class labels of its Table 7-1, and the
  frame counter. The global buffer and counter are the fields of a class,
  `HevcParser`.
- **Capture selection** (shared by `analytic_infer.py` and
  `parse_pcap.py`). The first "video" frame is the first 802.11 Data
  frame (type 2, section 9.2.4.1.3 of IEEE 802.11-2016) of at least 1000
  bytes. Every Data frame not earlier than it is collected.
- **Threshold detection** (`scripts/mininet/analytic_infer.py`). Window
  metrics, the baseline means, the thresholds, the sliding windows and
  the segmentation into detection intervals.
- **Frame-slot features** (`scripts/mininet/parse_pcap.py`). Slot
  bucketing and the six per-slot features.
- **Learning-pipeline index arithmetic** (`scripts/mininet/infer.py` and
  `scripts/mininet/model.py`). Stride-1 windows, overlap averaging,
  fitting the feature width, clipping and rounding, pairing
  feature/label files, and split sizes.
- **Small selectors.** Keyboard control with decaying steering
  (`scripts/manual_car.py`), the nearest vehicle (`scripts/util.py`) and
  the hue-band colour classifier (`yolo.py`).

Arithmetic is idealised: reals and unbounded integers, not IEEE floats.
Bytes are `bv8`. Square roots are avoided: distances are compared
squared, and standard deviations are stored as variances.

Files, one module each: `wrappers.dfy`, `numeric.dfy`, `sorting.dfy`,
`linalg.dfy` (helpers), `kalman.dfy`, `tracking.dfy`, `hevc.dfy`,
`capture.dfy`, `analytic.dfy`, `pcap_features.dfy`, `inference.dfy`,
`training.dfy`, `control.dfy`, `nearest.dfy`, `color.dfy`.

## Model

| member | source | states |
|---|---|---|
| Numeric.Trunc | scripts/mininet/parse_pcap.py:110 | Python `int()` on a real: truncation toward zero, with the result no further from zero than its argument and less than one away from it |
| Numeric.Ceil | scripts/mininet/model.py:114 | `math.ceil`: the least integer not below the argument |
| Sorting.SortBy | M202A_algorithm2.py:156 | the result is sorted by the key and is a permutation of the input (`events.sort(key=...)`) |
| Sorting.SortKeepsMembers | M202A_algorithm2.py:136 | sorting keeps exactly the members of the sequence |
| Sorting.SortIsStable | M202A_algorithm2.py:156 | sorting is stable: for every key, the elements with that key appear in the result in their input order (`list.sort` is stable) |
| Kalman.Transition | M202A_algorithm2.py:73-76 | F is a 6×6 matrix |
| Kalman.InitialCovariance | M202A_algorithm2.py:51-53 | the initial P is diagonal and symmetric, with 1.0 on the position block and 100.0 on the velocity block |
| Kalman.ProcessNoise | M202A_algorithm2.py:55-57 | Q is diagonal, with 0.1 on position and 25.0 on velocity |
| Kalman.MeasurementNoise | M202A_algorithm2.py:60 | R is the diagonal 3×3 matrix 5·I |
| Kalman.Gain | M202A_algorithm2.py:93-97 | the gain is 6×3, and it is the zero matrix when the inverse raised |
| Kalman.Correct | M202A_algorithm2.py:85-105 | a predict followed by an update yields a well-formed state whose last time is the update time |
| Kalman.SingularInnovationKeepsPrediction | M202A_algorithm2.py:71-105 | when S cannot be inverted, predict followed by update ignores the measurement: x and P are the prediction F·x and F·P·Fᵀ + Q + 0.1·I, each position has moved by dt·velocity, and last_time still becomes t |
| Kalman.PredictionMovesPosition | M202A_algorithm2.py:71-78 | the predicted position is position + dt·velocity, and the velocity is unchanged |
| Kalman.ZeroVelocityStaysPut | M202A_algorithm2.py:71-82 | with zero velocity the prediction equals the state for every dt |
| Kalman.PredictionKeepsSymmetry | M202A_algorithm2.py:79-80 | F·P·Fᵀ + Q + 0.1·I is symmetric whenever P is symmetric and Q is diagonal |
| Kalman.PropagatedSymmetric | M202A_algorithm2.py:79 | each entry of F·P·Fᵀ equals its mirror entry when P is symmetric |
| Kalman.ZeroGainKeepsPrediction | M202A_algorithm2.py:94-103 | with the zero-gain fallback the update leaves x = x_pred and P = P_pred |
| Kalman.KalmanFilter.constructor | M202A_algorithm2.py:43-69 | the state is start position followed by start velocity, with P the initial covariance, last time the start time, and x_pred/P_pred copies of x/P |
| Kalman.KalmanFilter.Predict | M202A_algorithm2.py:71-82 | writes only F, x_pred and P_pred (F·x and F·P·Fᵀ + Q + 0.1·I for dt = t − last_time) and returns the predicted position; x, P and last_time are unchanged |
| Kalman.KalmanFilter.Update | M202A_algorithm2.py:85-105 | x and P become the corrected state and covariance from x_pred/P_pred and the gain, and last_time becomes t |
| Tracking.ToVector | M202A_algorithm2.py:140-141 | a position as a 3-vector with the same coordinates |
| Tracking.SeedState | M202A_algorithm2.py:144-146 | a seed gives a well-formed filter state |
| Tracking.SeedReachesLastSighting | M202A_algorithm2.py:135-146 | when the sightings span positive time, the seeded filter predicted to the last sighting's time lands exactly on the last position, so the velocity is (last − first)/elapsed |
| Tracking.SeedWithoutElapsedTimeStaysPut | M202A_algorithm2.py:142-146 | when no time elapses between the sightings, the velocity is zero and the prediction stays at the first position for every t |
| Tracking.GroupOf | M202A_algorithm2.py:135 | a car's group holds exactly the sightings with its id |
| Tracking.SeedIsEarliest | M202A_algorithm2.py:135-137 | a car's filter starts at the time of one of its sightings, and no sighting of it is earlier |
| Tracking.Dedup | M202A_algorithm2.py:135 | the result is strictly ascending, has the same members, and keeps the last value |
| Tracking.IdColumn | M202A_algorithm2.py:135 | the id column holds exactly the ids of the table |
| Tracking.CarIds | M202A_algorithm2.py:135-148 | the car ids are strictly ascending and are exactly the ids present in the visible table |
| Tracking.FlattenAppend | M202A_algorithm2.py:162-169 | flattening distributes over concatenation of batch lists |
| Tracking.FlushesCoverEvents | M202A_algorithm2.py:160-169 | the batches, concatenated, are exactly the pending batch followed by the events, in order, so every event lands in exactly one batch |
| Tracking.FlushesAfterFirstNonEmpty | M202A_algorithm2.py:162-169 | only the first flush can be empty, and none is empty when a batch is already pending |
| Tracking.FlushWindows | M202A_algorithm2.py:158-167 | the first batch ends by start + 0.5; each later batch is non-empty, spans at most 0.5 from its first event, and opens strictly more than 0.5 after the previous window's start |
| Tracking.FlushesHead | M202A_algorithm2.py:162-167 | the first flush begins with the pending batch |
| Tracking.WindowingExample | M202A_algorithm2.py:158-169 | times 0.1, 0.3, 0.6, 0.9, 1.5 split into [0.1, 0.3], [0.6, 0.9], [1.5] |
| Tracking.PredictedPosition | M202A_algorithm2.py:182 | the prediction of a state is a 3-vector |
| Tracking.HorizontalDistSq | M202A_algorithm2.py:183-184 | the squared distance over x and y only is non-negative |
| Tracking.CostRow | M202A_algorithm2.py:181-185 | one entry per event of the batch |
| Tracking.CostMatrix | M202A_algorithm2.py:177-185 | one row per car, one column per event, and every entry is non-negative |
| Tracking.AfterPairs | M202A_algorithm2.py:198-215 | applying the pairs keeps one well-formed state per car |
| Tracking.AcceptedEvent | M202A_algorithm2.py:198-205 | the event accepted for a car is paired with it and inside the gate; when none is accepted, every pair of that car is at or above the gate |
| Tracking.RecordsInsideGate | M202A_algorithm2.py:205-212 | every record has squared distance < 150², and there are no more records than pairs |
| Tracking.OneRecordPerCar | M202A_algorithm2.py:194-212 | under a one-to-one pairing each car gets at most one record, naming the car of a pair |
| Tracking.GatedCols | M202A_algorithm2.py:198-212 | each record carries the time and camera of a batch event that some pair names |
| Tracking.OneRecordPerEvent | M202A_algorithm2.py:194-212 | when the pairing uses each event at most once, the records come from pairwise distinct events of the batch |
| Tracking.OneCorrectionPerCar | M202A_algorithm2.py:198-215 | under a one-to-one pairing a car is corrected once, from its pre-flush state and with its paired event's time and camera, exactly when its pair is inside the gate; otherwise it keeps its state |
| Tracking.RejectionCosts | M202A_algorithm2.py:177-185 | cars at rest at (0,0,0) and (100,0,0) score [[250000], [160000]] against a camera at (500,0,0) |
| Tracking.GateRejectionExample | M202A_algorithm2.py:177-212 | the cost matrix is [[250000], [160000]] (distances 500 and 400), and no pairing yields a record |
| Tracking.GateAcceptanceExample | M202A_algorithm2.py:177-212 | the cost matrix is [[1], [9801]]; any pairing yields one record, and pairing with the first car records distance² 1 |
| Tracking.RestingCost | M202A_algorithm2.py:180-185 | a car seeded at rest costs the squared horizontal distance from its seed position to any camera, whatever the event time |
| Tracking.AcceptanceCosts | M202A_algorithm2.py:177-185 | cars at rest at (0,0,0) and (100,0,0) score [[1], [9801]] against a camera at (1,0,0) |
| Tracking.States | M202A_algorithm2.py:180 | the bank's states are the states of the cars' filters, in car order |
| Tracking.BankStatesWellFormed | M202A_algorithm2.py:133-146 | a valid bank has well-formed states |
| Tracking.SolverInRange | M202A_algorithm2.py:195 | the solver's pairing is a one-to-one assignment whose indices lie inside the matrix |
| Tracking.Step | M202A_algorithm2.py:173-215 | a successful flush keeps one well-formed state per car |
| Tracking.Prepend | M202A_algorithm2.py:206 | a flush's records come before the rest of the run's records, and a failure stays a failure |
| Tracking.StepGuarantees | M202A_algorithm2.py:173-215 | one flush fails exactly when a non-empty batch meets no cars; otherwise each record is inside the gate, names a car, no two name the same car, and the records come from pairwise distinct events of the batch (so there are at most as many as events) |
| Tracking.TrackGuarantees | M202A_algorithm2.py:160-215 | a run fails exactly when there are events but no cars; otherwise it has no more records than events, each inside the gate and naming a car |
| Tracking.Seeds | M202A_algorithm2.py:135-146 | one seed per car |
| Tracking.SeedStates | M202A_algorithm2.py:146 | one well-formed state per seed |
| Tracking.ScoreRow | M202A_algorithm2.py:180-185 | the row is the cost row of the filter's state; the filter stays valid |
| Tracking.Score | M202A_algorithm2.py:177-185 | the matrix is the cost matrix of the bank's states, and the scoring predictions leave every state unchanged |
| Tracking.ScoreCar | M202A_algorithm2.py:180-185 | scoring one car yields its cost row and leaves every car's state and the bank's validity unchanged |
| Tracking.PredictThenUpdate | M202A_algorithm2.py:214-215 | a fresh predict at the event time followed by update changes the filter's state to `Correct` of its old state |
| Tracking.CorrectCar | M202A_algorithm2.py:203-215 | only the paired car's state changes, to its correction |
| Tracking.PairsStep | M202A_algorithm2.py:198-215 | one more pair adds a record and a correction exactly when it is inside the gate |
| Tracking.Commit | M202A_algorithm2.py:198-215 | the records are the gated records, and the bank's new states are those after the gated pairs |
| Tracking.CommitPair | M202A_algorithm2.py:203-215 | one more pair extends the records and the corrected states exactly as the gated pairs up to it prescribe |
| Tracking.MatchAndUpdate | M202A_algorithm2.py:173-215 | returns and leaves behind exactly what `Step` gives: no-op for an empty batch, an error for no cars, otherwise the gated records and corrected states |
| Tracking.NewTracker | M202A_algorithm2.py:146 | a fresh valid filter holding the seed's state |
| Tracking.SeedTrackers | M202A_algorithm2.py:135-146 | a valid bank with one fresh filter per car, each holding that car's seed state |
| Tracking.BankFromParts | M202A_algorithm2.py:133-146 | distinct ids with distinct valid filters make a valid bank |
| Tracking.StatesAreSeeds | M202A_algorithm2.py:146 | filters that hold their seed states make up the seeded bank |
| Tracking.PrependTwice | M202A_algorithm2.py:206 | prepending records is associative |
| Tracking.Flush | M202A_algorithm2.py:164-169 | one flush's records followed by the rest of the run from the corrected states are the run's records |
| Tracking.FeedEvents | M202A_algorithm2.py:158-169 | the windowing loop returns `Track` of the seeded states over the windowed batches |
| Tracking.FlushLast | M202A_algorithm2.py:169 | a non-empty last batch is flushed and an empty one is not |
| Tracking.RunTracking | M202A_algorithm2.py:131-171 | the result is `Track` of the seeded states of the ascending car ids over the windowed batches of the time-sorted events |
| Hevc.NalType | scripts/hevc_camera.py:32-33 | the type is bits 1..6 of the byte, in 0..63 |
| Hevc.NalTypeIgnoresOuterBits | scripts/hevc_camera.py:32-33 | flipping the forbidden_zero bit or the low bit leaves the type unchanged |
| Hevc.NalTypeReassembles | scripts/hevc_camera.py:32-33 | the type shifted back, with bits 7 and 0 restored, is the header byte |
| Hevc.Classify | scripts/hevc_camera.py:35-42 | IDR exactly for 19 and 20, CRA exactly for 21, PARAM exactly for 32..34, otherwise TYPE_n carrying n |
| Hevc.CountsExactlyKeyFrames | scripts/hevc_camera.py:83-85 | the frame test holds exactly for types 19, 20 and 21; the second disjunct adds nothing |
| Hevc.ScanPlaced | scripts/hevc_camera.py:53-65 | every reported offset holds a start code inside the examined range (p < L − 3), and a 3-byte code only where no 4-byte one begins |
| Hevc.ScanOrdered | scripts/hevc_camera.py:56-65 | offsets strictly increase, and each code ends before the next begins |
| Hevc.ScanCoversEveryCode | scripts/hevc_camera.py:56-65 | every examined position that begins a start code lies inside a reported code |
| Hevc.CoveredCons | scripts/hevc_camera.py:56-65 | coverage by the rest of the scan carries over when a code is prepended |
| Hevc.KeyReportsAppend | scripts/hevc_camera.py:73-88 | the key-frame reports of two runs add up |
| Hevc.KeyReportsMatchFrames | scripts/hevc_camera.py:73-88 | the counter advances exactly once per reported IDR or CRA NAL |
| Hevc.NalReportKeyed | scripts/hevc_camera.py:74-88 | one NAL yields a key-frame report exactly when it advances the frame counter |
| Hevc.FrameGuessesTrackCounter | scripts/hevc_camera.py:84-87 | the printed frame guesses never decrease, and lie between the counter before the call and the counter after it |
| Hevc.EndAfterStart | scripts/hevc_camera.py:71-76 | a NAL ends after its start code and by the end of the buffer |
| Hevc.HevcParser.constructor | scripts/hevc_camera.py:44-45 | the buffer is empty and the counter is 0 |
| Hevc.HevcParser.Feed | scripts/hevc_camera.py:47-92 | the buffer becomes old buffer + data when no code is found, with no report and the counter unchanged; otherwise it becomes the suffix from the last start code, the counter advances by the counted NALs, and every examined NAL is reported |
| Hevc.HevcParser.ExamineNals | scripts/hevc_camera.py:73-88 | reports every examined NAL in order and advances the counter by the counted ones |
| Hevc.HevcParser.ExamineNal | scripts/hevc_camera.py:74-88 | a NAL shorter than its code + 1 is skipped; otherwise it is classified, counted when IDR/CRA, and reported |
| Hevc.FindStarts | scripts/hevc_camera.py:53-65 | the loop finds exactly the codes of the scan specification |
| Hevc.KeptIsCodeSuffix | scripts/hevc_camera.py:67-92 | the kept bytes are a suffix of the buffer; when a code was found they hold at least four bytes and begin with a start code |
| Hevc.LastNalExamined | scripts/hevc_camera.py:73-92 | the last NAL runs to the end of the buffer and holds at least four bytes, so behind a 3-byte code it is always reported now as well as kept for the next call |
| Hevc.BackToBackExample | scripts/hevc_camera.py:76-78 | in 00 00 01 00 00 01 26 01 the first, empty NAL is skipped and the second is reported |
| Capture.FirstVideo | scripts/mininet/parse_pcap.py:50-63 | none exactly when no packet is a Data frame of ≥ 1000 bytes; otherwise the first such packet |
| Capture.FindFirstVideo | scripts/mininet/analytic_infer.py:82-96 | the search loop returns the first video packet |
| Capture.Collect | scripts/mininet/parse_pcap.py:71-85 | at most one frame per packet, each with relative time = timestamp − t0 ≥ 0 |
| Capture.CollectExactly | scripts/mininet/parse_pcap.py:71-85 | a frame is collected exactly when it comes from a Data packet at or after t0, with its size, time and index |
| Capture.CollectFrames | scripts/mininet/analytic_infer.py:101-116 | the collecting loop returns the collected frames |
| Capture.VideoFrameIsCollected | scripts/mininet/analytic_infer.py:118-119 | the "no data frames" error can never occur, since the first video packet is collected |
| Capture.SelectionOutcome | scripts/mininet/analytic_infer.py:64-124 | selection fails exactly when there are no more than `skip` packets or no video packet after them; otherwise the frames are non-empty, start at the video time and have non-negative relative times |
| Capture.LoadFrames | scripts/mininet/analytic_infer.py:62-124 | the loading sequence returns the selection |
| AnalyticInfer.Average | scripts/mininet/analytic_infer.py:150 | the average times the count is the total, and it is 0 for an empty window |
| AnalyticInfer.ComputeWindowMetrics | scripts/mininet/analytic_infer.py:141-152 | counts exactly the frames with start ≤ rel < end, sums their sizes, and averages |
| AnalyticInfer.CountMeansMembers | scripts/mininet/analytic_infer.py:144-148 | the count is 0 exactly when no frame is in the window; it is at most the number of frames; an empty count has size 0 |
| AnalyticInfer.WindowsAdd | scripts/mininet/analytic_infer.py:146 | adjacent half-open windows split the count and the size of their union |
| AnalyticInfer.Offset | scripts/mininet/analytic_infer.py:176 | a window start is non-negative for a non-negative width |
| AnalyticInfer.OffsetIsProduct | scripts/mininet/analytic_infer.py:176 | window i starts at i·w |
| AnalyticInfer.CountsOver | scripts/mininet/analytic_infer.py:175-186 | one count per baseline window |
| AnalyticInfer.SizesOver | scripts/mininet/analytic_infer.py:175-186 | one size per baseline window |
| AnalyticInfer.BaselineFailsIffShort | scripts/mininet/analytic_infer.py:173-189 | the baseline fails exactly when the duration is shorter than one window |
| AnalyticInfer.SumsOverSpan | scripts/mininet/analytic_infer.py:175-186 | the window counts and sizes sum to those of [0, n·w) |
| AnalyticInfer.BaselineIsSpanRate | scripts/mininet/analytic_infer.py:173-197 | with n = int(duration / w) > 0 windows, the means are the count and size of [0, n·w) divided by n |
| AnalyticInfer.EstablishBaseline | scripts/mininet/analytic_infer.py:170-197 | the baseline loop returns the baseline means or the error |
| AnalyticInfer.Windows | scripts/mininet/analytic_infer.py:251-271 | there are ceil(total / w) windows |
| AnalyticInfer.WindowShape | scripts/mininet/analytic_infer.py:255-270 | window i starts at i·w, has start < end ≤ total, ends by the start of window i + 1, carries the count and size of its frames, and is active exactly when either strictly exceeds its threshold |
| AnalyticInfer.ThresholdsFromBaseline | scripts/mininet/analytic_infer.py:243-280 | the thresholds are the baseline means times the multipliers, and a window is active exactly when its count or its size strictly exceeds them |
| AnalyticInfer.WindowsTile | scripts/mininet/analytic_infer.py:251-257 | the windows tile [0, total): the first starts at 0, each is non-empty and ends by total and by the start of the next |
| AnalyticInfer.LateFrameUncounted | scripts/mininet/analytic_infer.py:229-257 | a frame at or after total, such as the last collected frame, is in no window |
| AnalyticInfer.ComputeWindows | scripts/mininet/analytic_infer.py:251-271 | the sliding-window loop returns the windows |
| AnalyticInfer.Runs | scripts/mininet/analytic_infer.py:278-310 | every run is a pair of window indices first ≤ last in range |
| AnalyticInfer.Spans | scripts/mininet/analytic_infer.py:292-298 | one span per run |
| AnalyticInfer.RunsAreMaximal | scripts/mininet/analytic_infer.py:278-310 | every kept run is a maximal run of active windows lasting at least the minimum duration |
| AnalyticInfer.RunsStartFrom | scripts/mininet/analytic_infer.py:278-300 | no run starts before the scan position or the open run |
| AnalyticInfer.RunsSeparated | scripts/mininet/analytic_infer.py:278-310 | runs come in order, with an inactive window between consecutive runs |
| AnalyticInfer.RunsComplete | scripts/mininet/analytic_infer.py:278-310 | every maximal active run the scan has not passed that lasts at least the minimum duration is kept, including one reaching the final window |
| AnalyticInfer.Segment | scripts/mininet/analytic_infer.py:275-310 | the segmentation loop returns the spans of the kept runs |
| AnalyticInfer.SegmentStep | scripts/mininet/analytic_infer.py:278-300 | one window opens, extends or closes a run, and the spans still to come together with those emitted account for the same detections |
| AnalyticInfer.SpansAtClose | scripts/mininet/analytic_infer.py:286-300 | at an inactive window the open run closes, and its span is emitted first exactly when it lasts the minimum duration |
| AnalyticInfer.SpansAtEnd | scripts/mininet/analytic_infer.py:302-310 | at the end a still open run is emitted exactly when it lasts the minimum duration |
| AnalyticInfer.SpansAreRuns | scripts/mininet/analytic_infer.py:278-310 | each detection is the span of a kept maximal run, and each kept maximal run is detected |
| AnalyticInfer.SpansInOrder | scripts/mininet/analytic_infer.py:278-310 | over tiled windows the detections are non-empty, in increasing time order and non-overlapping |
| AnalyticInfer.DetectionsAreRuns | scripts/mininet/analytic_infer.py:229-310 | detection fails exactly when min(requested, 0.2·total) is shorter than a window; otherwise the windows tile [0, total) and the detections are the spans of their kept runs |
| AnalyticInfer.DetectFails | scripts/mininet/analytic_infer.py:229-240 | a failed baseline fails detection with the same error |
| AnalyticInfer.DetectSucceeds | scripts/mininet/analytic_infer.py:229-310 | with baseline means in hand, detection succeeds with the spans of the kept runs of the windows under the scaled thresholds |
| AnalyticInfer.WindowsFromBaseline | scripts/mininet/analytic_infer.py:229-271 | with baseline means in hand, the windows are those of the whole capture under thresholds mean × multiplier |
| AnalyticInfer.WindowsOrdered | scripts/mininet/analytic_infer.py:255-257 | in tiled windows an earlier window ends by the start of a later one |
| AnalyticInfer.DetectCars | scripts/mininet/analytic_infer.py:211-310 | the detection pipeline returns the detections of the specification |
| AnalyticInfer.Analyze | scripts/mininet/analytic_infer.py:358-381 | a loading error is passed through; otherwise detection runs with window 1.0, baseline 5.0, multipliers 1.5 and minimum duration 0.5 |
| PcapFeatures.NumSlots | scripts/mininet/parse_pcap.py:91-92 | at least one slot, and the last frame's time lies before the end of the last slot |
| PcapFeatures.SlotOf | scripts/mininet/parse_pcap.py:110-114 | the slot index is in range |
| PcapFeatures.SlotIsUnclamped | scripts/mininet/parse_pcap.py:105-114 | for a frame no later than the last, int(rel / frame) is already in range and is its slot, so the clamp never applies |
| PcapFeatures.Bucketed | scripts/mininet/parse_pcap.py:102-120 | one list per slot |
| PcapFeatures.BucketsAreSlots | scripts/mininet/parse_pcap.py:105-120 | slot k holds exactly the frames whose slot is k, in capture order |
| PcapFeatures.TotalLengthOfEmpty | scripts/mininet/parse_pcap.py:102 | the empty slot lists hold no entries |
| PcapFeatures.TotalLengthAppend | scripts/mininet/parse_pcap.py:117 | appending to one slot adds one entry in all |
| PcapFeatures.BucketsPartition | scripts/mininet/parse_pcap.py:105-120 | the slot lists hold |fs| entries in all: each frame lands in exactly one slot |
| PcapFeatures.BucketFrames | scripts/mininet/parse_pcap.py:102-120 | the grouping loop returns the slot lists |
| PcapFeatures.Gaps | scripts/mininet/parse_pcap.py:142 | n values give n − 1 differences |
| PcapFeatures.VarianceNonNegative | scripts/mininet/parse_pcap.py:138-144 | a variance is never negative |
| PcapFeatures.ConstantHasNoVariance | scripts/mininet/parse_pcap.py:137-138 | equal values have themselves as mean and variance 0, so the single-packet guard agrees with np.std |
| PcapFeatures.GapsOfSortedNonNegative | scripts/mininet/parse_pcap.py:132-142 | the gaps of sorted timestamps are non-negative |
| PcapFeatures.GapsTelescope | scripts/mininet/parse_pcap.py:142-143 | the gaps sum to the last value minus the first |
| PcapFeatures.SlotTotals | scripts/mininet/parse_pcap.py:126-156 | count and total are the slot's packet count and size sum; the row is all zeros exactly for an empty slot; the mean size is total / count |
| PcapFeatures.SlotSpreads | scripts/mininet/parse_pcap.py:138-147 | no spread and no mean gap is negative |
| PcapFeatures.SlotOfOne | scripts/mininet/parse_pcap.py:138-147 | a single-packet slot has its size as mean, no size spread and no gap |
| PcapFeatures.GapMeanSpansSlot | scripts/mininet/parse_pcap.py:132-143 | the mean gap of a slot with several packets is (latest − earliest) / (n − 1) |
| PcapFeatures.FillFeatures | scripts/mininet/parse_pcap.py:123-156 | row k of the array becomes the features of slot k |
| PcapFeatures.CountColumnIsTotal | scripts/mininet/parse_pcap.py:135-150 | the count column sums to the number of entries over all slots |
| PcapFeatures.FeaturesOutcome | scripts/mininet/parse_pcap.py:41-158 | fails exactly for no packets or no video packet; otherwise ceil(last / frame) + 1 rows, row k counts the frames of slot k, and the count column sums to the number of collected frames |
| PcapFeatures.ExtractFrameFeatures | scripts/mininet/parse_pcap.py:24-158 | the extraction returns the feature matrix of the specification |
| Inference.Slide | scripts/mininet/infer.py:31-32 | |s| − w + 1 windows |
| Inference.WindowsMeaning | scripts/mininet/infer.py:24-35 | fails exactly when |s| < w; otherwise |s| − w + 1 windows, window k holds s[k + t] at t, and every element lies in some window |
| Inference.BuildWindows | scripts/mininet/infer.py:22-35 | the windowing loop returns the windows or the error |
| Inference.CoverSum | scripts/mininet/infer.py:44-48 | a sum row has the output width |
| Inference.CoverCountClosedForm | scripts/mininet/infer.py:44-48 | the count at p is the number of k in [max(0, p − w + 1), min(p, m − 1)] |
| Inference.CoverCountBounds | scripts/mininet/infer.py:41-50 | with |s| − w + 1 windows every position is covered between 1 and w times, so the division is defined |
| Inference.Averaged | scripts/mininet/infer.py:38-51 | one row per position, each of the output width |
| Inference.CoverSumBounds | scripts/mininet/infer.py:44-48 | sums of predictions in [0, 1] lie between 0 and the cover count |
| Inference.AveragedInUnit | scripts/mininet/infer.py:50 | averages of predictions in [0, 1] stay in [0, 1] |
| Inference.DivideInUnit | scripts/mininet/infer.py:50 | a sum between 0 and its positive count, divided by the count, lies in [0, 1] |
| Inference.AddWindow | scripts/mininet/infer.py:45-48 | rows idx..idx + w − 1 gain the window's predictions and one count each, and the other rows are unchanged |
| Inference.OverlapAverage | scripts/mininet/infer.py:38-51 | the in-place accumulation and division return, at each position, the sum of the covering windows' predictions divided by their number |
| Inference.FitRow | scripts/mininet/infer.py:88-100 | the row has exactly the input width: the original entries up to it, zeros after |
| Inference.Fit | scripts/mininet/infer.py:84-100 | one fitted row per frame, a 1-D array read as one column |
| Inference.FitFeatures | scripts/mininet/infer.py:83-100 | the reassignments of `features` return the fitted table |
| Inference.Clip | scripts/mininet/infer.py:107 | the result is in [0, 1] and equals the value when it already is |
| Inference.RoundHalfEven | scripts/mininet/infer.py:108 | the nearest integer, with ties going to the even one |
| Inference.ClippedRoundsToBit | scripts/mininet/infer.py:107-108 | a clipped value rounds to 0 or 1, and to 1 exactly when the value exceeds 0.5 |
| Inference.Labels | scripts/mininet/infer.py:107-108 | one label row per averaged row |
| Inference.InferOutcome | scripts/mininet/infer.py:74-108 | fails exactly when there are fewer frames than the window; otherwise each frame gets d labels, each 0 or 1, and 1 exactly when the average of the covering predictions exceeds 0.5 |
| Inference.RunInference | scripts/mininet/infer.py:83-108 | fitting, windowing, prediction, averaging, clipping and rounding return the specification's labels |
| Training.PairOf | scripts/mininet/model.py:47-59 | a kept pair has equal lengths of at least one window |
| Training.PairsOf | scripts/mininet/model.py:43-59 | every kept pair has equal lengths of at least one window |
| Training.PairsExactly | scripts/mininet/model.py:43-59 | a pair is loaded exactly when some camera yields it |
| Training.PairOfMeaning | scripts/mininet/model.py:47-59 | a camera yields a pair exactly when it has labels and both arrays hold at least 16 frames; the pair is both arrays cut to the shorter length |
| Training.LoadFeaturePairs | scripts/mininet/model.py:41-64 | the loading loop returns the pairs, or the error when none is usable |
| Training.PairWindows | scripts/mininet/model.py:76-84 | |x| − w + 1 windows for a long-enough pair, none otherwise |
| Training.Origins | scripts/mininet/model.py:75-84 | every window origin names a pair and a start that fits in it |
| Training.WindowsAligned | scripts/mininet/model.py:75-84 | the number of windows is the sum of |x| − w + 1 over long-enough pairs, and the x- and y-window at each index cover the same frames of the same pair |
| Training.LoadedWindowsFull | scripts/mininet/model.py:55-84 | for loaded pairs every y-window has w frames like its x-window |
| Training.BuildWindows | scripts/mininet/model.py:67-88 | the nested loops return the x- and y-windows of the specification, in order |
| Training.SplitMeaning | scripts/mininet/model.py:113-116 | with split 0.2 the test length is ceil(n/5) = (n + 4) / 5, the train length is n minus it, both are non-negative and they sum to n |
| ManualControl.PedalsMeaning | scripts/manual_car.py:111-127 | Up gives throttle 0.5, no brake and forward; Down alone gives throttle 0.3 in reverse; neither gives brake 0.5; Up wins over Down |
| ManualControl.SteeringMeaning | scripts/manual_car.py:129-141 | Left (first) and Right step by 0.05 within [−0.7, 0.7]; with neither, the angle keeps its sign and its magnitude drops by 0.02 or to 0 |
| ManualControl.Applied | scripts/manual_car.py:96-146 | at most one control per pass |
| ManualControl.AppliedInRange | scripts/manual_car.py:83-143 | from an angle in range, every applied angle is in [−0.7, 0.7] |
| ManualControl.AppliedUntilStop | scripts/manual_car.py:96-103 | no pass before the last sees a stop event, and the loop ends at a stop event or at the end of the input |
| ManualControl.PollEvents | scripts/manual_car.py:98-103 | running stays true exactly when it was true and no event is a quit or an Escape press |
| ManualControl.ControlStep | scripts/manual_car.py:108-143 | the new angle is the steering update, and the control's steer is that updated angle |
| ManualControl.Drive | scripts/manual_car.py:82-146 | the loop applies exactly the controls of the specification, and every steer is in [−0.7, 0.7] |
| Nearest.SquaredDistance | scripts/util.py:81 | distances are non-negative |
| Nearest.NearestIndex | scripts/util.py:78-85 | the kept vehicle is a vehicle of the list |
| Nearest.NearestIndexIsEarliest | scripts/util.py:78-85 | the kept vehicle is no farther than any vehicle, and strictly nearer than every earlier one, so ties go to the earliest |
| Nearest.ClosestKeepsNearest | scripts/util.py:78-85 | the scan ends holding the kept vehicle's (x, y) and its distance |
| Nearest.ClosestMeaning | scripts/util.py:74-87 | no vehicles give ((0, 0), +∞); otherwise the result is the (x, y) and distance of the earliest nearest vehicle |
| Nearest.GetClosestVehicle | scripts/util.py:74-87 | the loop returns the scan's result |
| ColorClassifier.MaskedHues | yolo.py:26-29 | no more hues than pixels |
| ColorClassifier.BandMeaning | yolo.py:30-41 | the bands partition the hues: red below 10 or above 160, orange [10, 25), yellow [25, 35), green [35, 85), blue [85, 135), purple [135, 160]; never "unknown" |
| ColorClassifier.UnknownIffNoMaskedPixel | yolo.py:18-29 | "unknown" exactly when no pixel has saturation > 50 and value > 50, an empty region included |
| ColorClassifier.MaskedHuesEmpty | yolo.py:26-27 | no masked hue exactly when no pixel passes the mask |
| ColorClassifier.OnlyMaskedPixelsMatter | yolo.py:26-29 | regions with the same masked hues get the same label |
| ColorClassifier.MedianWithin | yolo.py:29 | the median lies between the least and the greatest value |
| ColorClassifier.UniformBand | yolo.py:26-41 | when every masked hue lies in one contiguous band, the region gets that band's label |
| ColorClassifier.WrappedRedReadsBlue | yolo.py:15-39 | two red pixels at hues 5 and 170 have median 87.5 and read as blue |

## Left out

- The softmax confidence and its percentage formatting (`M202A_algorithm2.py` lines 187-191 and 211) need `exp` and string formatting. Records carry no confidence.
- `linear_sum_assignment` is a parameter `solve`. The source hands the solver the matrix of norms; the model hands `solve` the matrix of squared norms, so `solve` stands for `linear_sum_assignment` applied to the element-wise square roots of its argument (the two matrices can have different optimal pairings). `solve` is only assumed to return a one-to-one pairing of size min(rows, cols) (`SolverSound`). Optimality is not modelled, and neither is the ascending row order SciPy returns, which fixes the order of a flush's records.
- `np.linalg.inv` is a parameter `invert`. It returns `None` where NumPy raises, which selects the zero-gain branch.
- Tracking.HorizontalDistSq: keeps the squared distance, and the gate compares it with 150². For the gate alone this is equivalent to `norm < 150`; the solver input differs, as the line above says. Records store the squared distance, not the distance rounded to 2 decimals.
- PcapFeatures.Variance: stores the population variance, the square of `np.std`, because square roots are left out.
- Nearest.ClosestMeaning: returns the squared distance as `min_dist`, not the Euclidean norm. The argmin and the tie-breaking are the same.
- Only the mean of the baseline is modelled. The baseline standard deviations are printed and returned but never used by the detection.
- Float32 storage and IEEE rounding are not modelled, including `n * 0.2` in `split_dataset` and `rel / frame_duration` in the slot index. Training.SplitMeaning is proved in exact arithmetic.
- I/O is left out: `rdpcap`, `np.load`/`np.save`/`savetxt`, CSV and result files, `print` (the HEVC parser returns its reports instead of printing them; `time.time()` in them is left out), `load_data`, `process_all_pcaps` and the `__main__` blocks.
- Training.LoadFeaturePairs: takes the cameras as a sequence in the order of the sorted glob. File existence becomes an optional label array.
- Torch models and training are left out: `BiLSTMRegressor`, `load_model` and `run_epoch`. The regressor is a function parameter. `random_split` is modelled only through its two lengths.
- `np.stack` of the windows is left out. The model keeps them as a sequence of windows.
- Inference.OverlapAverage: requires each of the |s| − w + 1 windows to hold w rows of d values, which is the shape `run_inference` produces. Other shapes (NaN from a zero count in NumPy) are not modelled.
- The CARLA and pygame calls (`apply_control`, the display, the 60 Hz clock) are left out. The keyboard state per pass is an input `Tick`.
- The HEVC encoder subprocess, `select`/`os.read` polling and `cv2.imshow` are left out.
- ColorClassifier.ClassifyColor: starts from HSV pixels. `cv2.cvtColor` and the ROI slicing by bounding box are left out, and an empty region stands for `roi.size == 0`.
- The visible table's `sort_values('timestamp')` in pandas is not a stable sort. The model sorts stably (Sorting.SortIsStable), so the first and last sighting of a car can differ from the source when several sightings share a time.
- `KalmanFilter.F` does not exist before the first `predict` in the source. The model initialises it to the identity.

Notes where the model follows the code rather than the prose description:

- `match_and_update` with a non-empty batch and no cars fails in the source, because `np.max` over the rows of an empty matrix raises. The model returns `Err(NoCarsToScore)` in that case and does not treat it as a no-op.
- `parse_pcap.py` skips no initial packets; only `analytic_infer.py` drops the first 1000. `Capture.SelectFrames` takes the number to skip as a parameter.
- The frame counter's second disjunct (`ntype <= 31` and a label that is not `TYPE_n`) never holds on its own. The counter therefore counts only IDR and CRA NALs (Hevc.CountsExactlyKeyFrames).
- Median hues of red regions that straddle the wrap-around of the hue circle can read as another colour, for example blue (ColorClassifier.WrappedRedReadsBlue). The model keeps the source's behaviour, which its own comment calls unreliable.
