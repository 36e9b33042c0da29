# Suspicious-activity detection pipeline, modelled in Dafny

This project models the detection core of a Flask service that watches a
camera stream for fire and weapons. The service has five parts:

- **Capture.** A capture thread reads frames from the camera into a bounded
  queue of 10 frames. When the queue is full it drops the oldest frame.
- **Inference.** The video-feed generator takes frames from the queue in FIFO
  order. It runs a fire detector and then a weapon detector on each frame.
- **Acceptance and drawing.** A box is accepted when its confidence is strictly
  above 0.40. Each accepted box is drawn on the frame in its model's colour:
  red for fire, green for weapons.
- **Alert and log.** The frame is attributed to the model of the *last*
  accepted box. If an accepted box is seen, the alert is raised and the
  alarm sound started. This happens only when the alert is inactive and more
  than 600 seconds have passed since the last acknowledgement. A log row is
  written for each frame that had an accepted box.
- **Output and control.** Each frame is emitted as one part of a
  `multipart/x-mixed-replace; boundary=frame` response. Users can start and
  stop the camera, query the alert status and acknowledge the alert.

Modules, one per component:

- `Types` (types.dfy): frames, overlays (what drawing leaves on a frame),
  colours and bytes.
- `Channel` (channel.dfy): the queue as a class `FrameQueue` over a
  `seq<Frame>`, with `put`, `get`, `full`, `empty` and the capture loop's
  drop-oldest push. `Pushed` and `PushAll` specify it. `LastN` is the
  drop-oldest law: the queue holds the most recent pushes, in order.
- `Detection` (detection.dfy): boxes, the threshold, the last-wins
  attribution, the colour per model and the overlays drawn on a frame.
- `Alert` (alert.dfy): the alert state (`alert_active`,
  `last_acknowledged`), the trigger rule, acknowledgement and the status
  answer. It also has lemmas over event traces: the sound starts at most
  once between acknowledgements, and the cooldown counts from the
  acknowledgement.
- `Multipart` (multipart.dfy): the chunk framing, its inverse, and how the
  fixed head relates to the declared boundary. The part syntax is that of
  section 5.1.1 of RFC 2046.
- `Pipeline` (pipeline.dfy): the class `App` holds the module-level globals.
  Its methods are start, stop, one capture run, one inference iteration,
  status and acknowledge. `ScanDetections` is the nested box loop of one
  iteration, proved against the `Detection` and `Alert` functions.
  `FiveFrameScenario` runs five frames through the whole pipeline: three
  without boxes, one 0.55 fire box and one 0.30 weapon box.

Inputs the code reads from outside are parameters:

- the clock (`now`);
- whether the stream opened, and what each `cap.read()` returned;
- the two detectors (`Frame -> seq<Box>`);
- the JPEG encoder (`Frame -> seq<byte>`).

The sound player is modelled by two counters: playbacks started and stops
requested.

Where the code behaves differently from what one might expect, the model
follows the code:

- **Logging.** A log row is written only for frames with an accepted box,
  not one event per frame. The row records the model name (`Fire` or
  `Weapon`), not the box's class label.
- **Failed reads.** A failed `cap.read()` is retried, not terminal. Failed
  reads are skipped in `ReadFrames`.
- **Failed open.** A stream that cannot be opened ends the capture run but
  leaves `is_running` set. A second start then launches nothing
  (`FailedOpenKeepsRunning`).
- **Start.** Start launches only the capture thread. The inference loop is
  a generator behind the video feed, and one call of `ProcessFrame` is
  one turn of it. The model has one such consumer (see "Left out").
- **Empty queue.** The inference loop reads the run flag only at its head.
  On an empty queue it blocks in `get()`, and no close signal wakes it. A
  stop therefore does not end a blocked consumer. It goes on waiting, and
  after a restart it processes the first frame captured
  (`StopLeavesBlockedConsumer`, `RestartFeedsBlockedConsumer`).
- **Status.** `detected_object` is reset at the start of every frame. So a
  frame with no accepted box makes `alert_status` answer "inactive" while
  `alert_active` is still set (`QuietFrameHidesAlert`).

## Model

| member | source | states |
|---|---|---|
| `Channel.Pushed` | app.py:62-64 | pushing onto a queue of at most 10 frames keeps at most 10 and equals the last 10 of old contents followed by the new frame |
| `Channel.PushOntoFull` | app.py:62-64 | pushing onto a full queue removes exactly the front (oldest) frame and appends the new one at the back |
| `Channel.PushAllKeepsMostRecent` | app.py:25 | after any sequence of pushes the queue never exceeds 10 frames and holds exactly the most recent pushes, in push order |
| `Channel.PushAllSnoc` | app.py:59-64 | pushing one more frame extends a run of pushes by one drop-oldest push |
| `Channel.LastNAbsorbs` | app.py:62-64 | trimming to the last 10 before appending more frames and trimming again equals trimming once |
| `Channel.FrameQueue.constructor` | app.py:25 | the queue starts empty |
| `Channel.PushAll` | app.py:59-64 | pushing a run of frames onto a queue within the bound keeps it within the bound |
| `Channel.PushAllLastAtBack` | app.py:62-64 | after a run of pushes, the frame pushed last is at the back of the queue |
| `Channel.FrameQueue.Full` | app.py:62 | `full()` holds for a valid queue iff it holds exactly 10 frames, and a full queue is not empty |
| `Channel.FrameQueue.Empty` | app.py:73 | an empty queue is never full, so the consumer's emptiness test and the producer's fullness test never both hold |
| `Channel.FrameQueue.Put` | app.py:64 | `put` appends the frame when the queue is not full; on a full queue nothing changes (the call would block) |
| `Channel.FrameQueue.Get` | app.py:76 | `get` returns and removes the front frame, leaving the rest in order; on an empty queue nothing is consumed |
| `Channel.FrameQueue.PushDropOldest` | app.py:62-64 | the capture push leaves the queue equal to `Pushed` of the old queue and keeps the 10-frame bound |
| `Detection.Accepted` | app.py:89 | defines acceptance: a box is kept when its confidence is strictly above 0.40 (proved as an iff by `ThresholdIsStrict`) |
| `Detection.ThresholdIsStrict` | app.py:89 | a box is accepted iff its confidence is strictly above 0.40, whichever model reported it; a box at 0.40 or below is rejected |
| `Detection.ModelName` | app.py:83 | the model names are non-empty and never the string "None" that status uses for no anomaly |
| `Detection.ColourOf` | app.py:97 | fire boxes are drawn in (0, 0, 255) and weapon boxes in (0, 255, 0), so the two models are told apart |
| `Detection.Candidates` | app.py:83-84 | the boxes are examined fire boxes first, each tagged Fire, then weapon boxes, each tagged Weapon |
| `Detection.LastAcceptedAt` | app.py:89-92 | yields the position of an accepted box after which no box is accepted, or none exactly when no box is accepted |
| `Detection.DetectedObject` | app.py:81-92 | `detected_object` is set after a frame exactly when some box of it was accepted |
| `Detection.DetectionIffAccepted` | app.py:80-90 | `detection` is "Yes" iff some box has confidence above 0.40, "No" iff none has, and a model is named iff it is "Yes" |
| `Detection.LastModelWins` | app.py:83-92 | an accepted weapon box attributes the frame to Weapon whatever the fire boxes score; Fire wins only when no weapon box is accepted |
| `Detection.LastWinsOverConfidence` | app.py:89-92 | a 0.95 fire box loses to a 0.41 weapon box: the tie-break is order, not confidence |
| `Detection.Overlays` | app.py:89-101 | never more overlays than boxes, none iff no box is accepted, and the last one drawn is the winning box's |
| `Detection.OverlaysMatchAccepted` | app.py:94-101 | every overlay is drawn for some accepted box, in the colour of a model |
| `Detection.AcceptedIndices` | app.py:84-89 | the positions of the accepted boxes, strictly increasing, each accepted, and every accepted position among them |
| `Detection.OverlaysFollowAccepted` | app.py:89-101 | exactly the accepted boxes are drawn, one overlay each, in the order they are examined |
| `Detection.AcceptedIsDrawn` | app.py:89-101 | no accepted box goes undrawn |
| `Detection.DetectionFlag` | app.py:80-90 | `detection` is either "Yes" or "No", and it is "Yes" iff a model is detected |
| `Detection.Drawn` | app.py:94-101 | defines the rectangle and label drawn for one box: the label's origin is 10 pixels above the rectangle's top-left corner, and the colour is red exactly for Fire boxes |
| `Detection.DrawingTellsModelAndCorners` | app.py:97-100 | two drawings share a colour iff their boxes come from the same model, and share a rectangle iff the boxes' corners agree |
| `Detection.Annotated` | app.py:94-101 | annotating leaves the pixels and the earlier drawings alone, appends exactly the frame's overlays, and changes nothing when no box is accepted |
| `Alert.Fires` | app.py:104 | the alert fires iff it is inactive and the time exceeds the last acknowledgement by more than 600 s |
| `Alert.OnAccepted` | app.py:104-106 | an accepted box activates the alert iff it was inactive and more than 600 s passed since acknowledgement; the timestamp is untouched and a second box at once cannot fire again |
| `Alert.OnAcceptedIdempotent` | app.py:104-106 | any number of accepted boxes in a frame have the effect of one |
| `Alert.Acknowledged` | app.py:178-181 | after acknowledging at `now`, whatever the prior state, a detection fires exactly when it comes more than 600 s after `now` |
| `Alert.AcknowledgeTwice` | app.py:178-181 | repeating an acknowledgement changes only the timestamp |
| `Alert.AlertStatus` | app.py:170-173 | reports active with the model name iff the alert is active and a model was detected, otherwise inactive with "None" |
| `Alert.QuietFrameHidesAlert` | app.py:170-173 | after a frame with no accepted box the status reads inactive even while the alert is active |
| `Alert.AtMostOneStartPerCycle` | app.py:104-106 | with no acknowledgement in between, the sound starts at most once, and never while the alert is already active |
| `Alert.CooldownSuppresses` | app.py:104 | after acknowledging at t, detections up to t + 600 start no sound and leave the state unchanged |
| `Alert.CooldownExpires` | app.py:104-106 | after acknowledging at t, a detection after t + 600 fires and starts the sound |
| `Alert.CooldownScenario` | app.py:104-106 | trigger at t0, none at t0+1, acknowledge at t1, suppressed at t1+599, fires at t1+601: two sound starts in all |
| `Multipart.Ascii` | app.py:113 | 7-bit header text becomes one byte per character, each byte below 128 and equal to its character's code |
| `Multipart.Chunk` | app.py:113 | a chunk is the fixed head, then the JPEG bytes unchanged, then CRLF |
| `Multipart.Unframe` | app.py:113 | stripping head and tail leaves exactly the bytes between them |
| `Multipart.UnframeChunk` | app.py:113 | stripping the fixed head and tail from a chunk recovers the JPEG bytes exactly |
| `Multipart.ChunkUnframe` | app.py:113 | whatever is accepted by unframing is exactly the chunk of the bytes it returns |
| `Multipart.HeadIsBoundaryThenHeader` | app.py:140 | the media type declares boundary "frame" and the head is "--frame", CRLF, the Content-Type header, CRLF, CRLF |
| `Multipart.HeadOpensWithDashBoundary` | app.py:113 | every chunk opens with the dash-boundary "--frame" |
| `Multipart.DelimiterBytes` | app.py:113 | a chunk's CRLF terminator followed by the next head's first 7 bytes spell CRLF "--frame" |
| `Multipart.ChunksMeetAtDelimiter` | app.py:113 | two consecutive chunks meet at the delimiter CRLF "--frame" |
| `Pipeline.ReadFrames` | app.py:59-61 | the frames a capture run obtains are its successful reads in order, failed reads skipped |
| `Pipeline.ReadFramesKeepsSuccesses` | app.py:59-64 | a frame is among those a capture run obtained iff some read of the run returned it |
| `Pipeline.ReadFramesSnoc` | app.py:59-61 | one more read adds its frame if it succeeded and nothing otherwise |
| `Pipeline.CaptureStep` | app.py:59-64 | one more read of a capture run pushes its frame with drop-oldest if it succeeded and leaves the queue alone otherwise |
| `Pipeline.ScanStep` | app.py:84-92 | examining one more box updates acceptance, attribution and drawing by that box alone |
| `Pipeline.ScanDetections` | app.py:80-106 | the box loop yields "Yes"/"No" by acceptance, the last accepted model, the drawn overlays, the alert state after the rule, and at most one sound start, only when the alert was due |
| `Pipeline.App.constructor` | app.py:24-30 | the service starts stopped, with an empty queue, no alert, `last_acknowledged` 0, nothing detected and nothing logged |
| `Pipeline.App.Start` | app.py:148-150 | start sets the run flag and launches one capture thread when stopped; when running it changes nothing |
| `Pipeline.App.Stop` | app.py:160-161 | stop clears the run flag; when stopped it changes nothing |
| `Pipeline.App.Capture` | app.py:45-65 | an unopened stream or a cleared run flag leaves the queue as it was; otherwise the queue becomes the last 10 of its old contents followed by the frames read |
| `Pipeline.App.ProcessFrame` | app.py:72-113 | ends without change unless it proceeds (`Proceeds`: blocked in `get()` or the run flag set); on an empty queue blocks without consuming anything; otherwise consumes the front frame, leaves the blocked state and applies `InferFrame` to it |
| `Pipeline.App.InferFrame` | app.py:80-113 | sets `detected_object` to the last accepted model and applies the alert rule; adds one sound start iff the alert fired; logs one `(user, now, "Yes", model)` row iff a box was accepted; emits the chunk of the annotated frame |
| `Pipeline.App.CurrentStatus` | app.py:166-173 | status is active iff `alert_active` holds and a model was detected in the latest frame |
| `Pipeline.App.AcknowledgeAlert` | app.py:176-183 | acknowledging stops the sound, clears the alert and restarts the cooldown at now, changing nothing else |
| `Pipeline.StartTwiceStopTwice` | app.py:148-161 | start twice launches exactly one capture thread; stop twice leaves the camera stopped with alert and log untouched |
| `Pipeline.FailedOpenKeepsRunning` | app.py:55-57 | a failed stream open leaves the run flag set, so a second start launches no capture thread |
| `Pipeline.ScenarioDetections` | app.py:89 | in the five-frame scenario only the 0.55 fire frame has an accepted box, and it is attributed to Fire |
| `Pipeline.StopLeavesBlockedConsumer` | app.py:72-76 | a consumer waiting on an empty queue is still waiting after a stop, with the run flag clear |
| `Pipeline.RestartFeedsBlockedConsumer` | app.py:72-113 | after a restart, the consumer blocked since before the stop emits the chunk of the first frame captured |
| `Pipeline.RestartCapturing` | app.py:45-65 | restarting with an empty queue and reading one frame queues exactly that frame and leaves a blocked consumer blocked |
| `Pipeline.ReadOneFrame` | app.py:59-64 | a capture run with one successful read onto an empty queue leaves exactly that frame |
| `Pipeline.ScenarioLoaded` | app.py:45-65 | a started service whose capture run read the five scenario frames queues all five in order |
| `Pipeline.ScenarioQuietFrames` | app.py:72-113 | the three frames without boxes each yield an emitted chunk, and nothing is logged or raised |
| `Pipeline.ScenarioFireFrame` | app.py:72-113 | the 0.55 fire frame yields an emitted chunk, one `(user, now, "Yes", "Fire")` log row and one sound start |
| `Pipeline.ScenarioWeaponFrame` | app.py:72-113 | the 0.30 weapon frame yields an emitted chunk and no log row or sound start |
| `Pipeline.FiveFrameScenario` | app.py:72-113 | three empty frames, a 0.55 fire frame and a 0.30 weapon frame: five turns that each emit a chunk, one log row `(user, now, "Yes", "Fire")`, one sound start |

## Left out

- Flask route decorators, session and login checks, redirects, JSON and
  template responses, user administration and log listing (app.py:136-330)
  are HTTP and CRUD glue around the core. The bodies of the start, stop,
  alert-status and acknowledge handlers inside that range (app.py:142-183)
  are modelled by `App.Start`, `App.Stop`, `App.CurrentStatus` and
  `App.AcknowledgeAlert`.
- The SQLite connection and inserts (app.py:36-43, 115-126) are modelled as
  an appended sequence of rows. A database error, which the source prints
  and skips, is not modelled. The timestamp is the `now` of the frame,
  not a formatted date string.
- YOLO inference and device selection (app.py:9-17, 77-78) are foreign
  calls. The detectors are function parameters returning boxes. The class
  label lookup through `names` is folded into the box's `cls`.
- OpenCV capture settings (app.py:48-53), `cap.read()` and
  `cap.release()` are I/O. Their outcomes are parameters of `Capture`.
- Drawing with `rectangle`/`putText` (app.py:100-101) is recorded as
  overlays appended to the frame value. Nothing is changed in place.
- JPEG encoding (app.py:112) is a function parameter. An encoding failure
  is not modelled.
- Detection.Drawn: the label text `f"{cls}: {conf:.2f}"` (app.py:94) is
  float formatting. The overlay keeps the class and the exact confidence
  instead. Two boxes whose confidences round to the same two decimals
  (0.551 and 0.552) draw the same label in the source, while their
  overlays in the model differ.
- `cls.capitalize()` (app.py:91) is computed but never used.
- Sound playback and the asset-existence check (app.py:128-134, 179) are
  modelled only as counters of starts and stops.
- Threads, daemon semantics, the unused lock and the `time.sleep(0.01)`
  poll (app.py:26, 74, 106, 150) are not modelled. The model runs each
  operation to completion in sequence, so races between the capture
  thread, the inference generator and HTTP handlers are out of scope.
- Confidences and times are Dafny `real`, not floating point.
- Pipeline.App.InferFrame: reads the clock once per frame, where the source
  calls `time.time()` again for each accepted box. Within one frame the
  alert rule therefore sees a single `now`.
- Pipeline.App: models a single consumer. In the source, every
  `/video_feed` request (app.py:136-140) starts its own `process_frames`
  generator. Those generators share `frame_queue`, `detected_object` and
  the alert state, and they compete for frames. The model has one
  `blockedInGet` flag and one inference loop, so how frames are split among
  several viewers is not captured.
- Pipeline.App.ProcessFrame: a blocking `get()` on an empty queue is
  modelled as a `Waiting` result that consumes nothing and marks the
  consumer blocked. A later call plays the part of the woken consumer.
  Once a call returns `Finished`, the caller is expected to make no further
  calls for that stream.
- Channel.FrameQueue.Put: a blocking `put()` on a full queue is modelled as
  a `false` result. The capture loop never puts onto a full queue.
- Pipeline.ScanDetections: the source's nested loop over the (fire,
  weapon) result pair is walked as one loop over the fire boxes followed by
  the weapon boxes. This is the same order.
