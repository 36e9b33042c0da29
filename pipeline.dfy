/** The module-level state of the detection service and the operations
    that change it: starting and stopping the camera, the capture loop,
    one iteration of the inference loop, the alert status query and the
    alert acknowledgement. Clock readings, the two detectors and the JPEG
    encoder are parameters. */
module Pipeline {
  import opened Types
  import opened Channel
  import opened Detection
  import opened Alert
  import opened Multipart

  /** A row of the detection log: who was streaming, when, the detection
      flag and the model the frame was attributed to. */
  datatype LogRow = LogRow(username: string, at: real, detection: string, detectionType: string)

  /** What one turn of the inference loop produces. */
  datatype StepResult =
    | Finished            // `is_running` was false: the stream ends
    | Waiting             // the queue is empty: the consumer blocks in `get()`
    | Emitted(chunk: seq<byte>)

  /** The frames a run of the capture loop obtained: the reads that
      succeeded, in order (a failed read is retried, not fatal). */
  function ReadFrames(results: seq<Option<Frame>>): (fs: seq<Frame>)
    ensures |fs| <= |results|
    decreases |results|
  {
    if results == [] then []
    else
      var last := results[|results| - 1];
      ReadFrames(results[..|results| - 1]) + (if last.Some? then [last.value] else [])
  }

  /** The nested box loop of one inference iteration: walks the fire boxes
      and then the weapon boxes, keeping the last accepted box's model,
      drawing every accepted box and checking the alert rule on each. */
  method ScanDetections(cs: seq<Candidate>, alert: AlertState, now: real)
    returns (detection: string, detected: Option<Model>, overlays: seq<Overlay>,
             after: AlertState, started: nat)
    ensures detection == DetectionFlag(cs)
    ensures detected == DetectedObject(cs)
    ensures overlays == Overlays(cs)
    ensures after == if AnyAccepted(cs) then OnAccepted(alert, now) else alert
    ensures started == if AnyAccepted(cs) && Fires(alert, now) then 1 else 0
  {
    detection, detected, overlays, after, started := "No", None, [], alert, 0;
    var i := 0;
    ghost var any := false;
    while i < |cs|
      invariant 0 <= i <= |cs|
      invariant any == AnyAccepted(cs[..i])
      invariant detection == DetectionFlag(cs[..i])
      invariant detected == DetectedObject(cs[..i])
      invariant overlays == Overlays(cs[..i])
      invariant after == if any then OnAccepted(alert, now) else alert
      invariant started == if any && Fires(alert, now) then 1 else 0
    {
      var c := cs[i];
      ScanStep(cs, i);
      any := any || Accepted(c);
      if c.box.conf > Threshold {
        detection := "Yes";
        detected := Some(c.model);
        overlays := overlays + [Drawn(c)];
        if !after.active && now - after.lastAcknowledged > AlertDelay {
          after := after.(active := true);
          started := started + 1;
        }
      }
      i := i + 1;
    }
    assert cs[..|cs|] == cs;
  }

  /** Examining one more box of the frame. */
  lemma ScanStep(cs: seq<Candidate>, i: nat)
    requires i < |cs|
    ensures AnyAccepted(cs[..i + 1]) <==> AnyAccepted(cs[..i]) || Accepted(cs[i])
    ensures DetectedObject(cs[..i + 1]) == if Accepted(cs[i]) then Some(cs[i].model) else DetectedObject(cs[..i])
    ensures Overlays(cs[..i + 1]) == Overlays(cs[..i]) + if Accepted(cs[i]) then [Drawn(cs[i])] else []
  {
    assert cs[..i + 1][..i] == cs[..i];
  }

  class App {
    var isRunning: bool
    const queue: FrameQueue
    var alertActive: bool
    var lastAcknowledged: real
    /** The model of the last accepted box of the most recent frame. */
    var detectedObject: Option<Model>
    /** The rows inserted into the detection log. */
    var log: seq<LogRow>
    /** Capture threads launched. */
    var captureLaunches: nat
    /** Alarm sound playbacks started. */
    var soundStarts: nat
    /** Alarm sound stops requested. */
    var soundStops: nat
    /** The inference loop found the queue empty and is blocked in `get()`;
        it no longer looks at the run flag until a frame arrives. */
    var blockedInGet: bool

    ghost predicate Valid()
      reads this, queue
    {
      queue.Valid()
    }

    function CurrentAlert(): AlertState
      reads this
    {
      AlertState(alertActive, lastAcknowledged)
    }

    /** The inference loop takes another frame: it is blocked in `get()`
        already, or its loop head sees the run flag set. */
    predicate Proceeds()
      reads this
    {
      blockedInGet || isRunning
    }

    constructor ()
      ensures Valid() && fresh(queue)
      ensures !isRunning && !blockedInGet && queue.items == []
      ensures CurrentAlert() == Initial && detectedObject == None && log == []
      ensures captureLaunches == 0 && soundStarts == 0 && soundStops == 0
    {
      isRunning := false;
      queue := new FrameQueue();
      alertActive, lastAcknowledged := false, 0.0;
      detectedObject := None;
      log := [];
      captureLaunches, soundStarts, soundStops := 0, 0, 0;
      blockedInGet := false;
    }

    /** `start_detection`: sets the run flag and launches one capture
        thread, unless the camera is already running. */
    method Start()
      modifies this
      ensures isRunning
      ensures captureLaunches == old(captureLaunches) + (if old(isRunning) then 0 else 1)
      ensures old(isRunning) ==> unchanged(this)
      ensures blockedInGet == old(blockedInGet)
      ensures CurrentAlert() == old(CurrentAlert()) && detectedObject == old(detectedObject) && log == old(log)
      ensures soundStarts == old(soundStarts) && soundStops == old(soundStops)
    {
      if !isRunning {
        isRunning := true;
        captureLaunches := captureLaunches + 1;
      }
    }

    /** `stop_detection`: clears the run flag. */
    method Stop()
      modifies this
      ensures !isRunning
      ensures !old(isRunning) ==> unchanged(this)
      ensures captureLaunches == old(captureLaunches) && blockedInGet == old(blockedInGet)
      ensures CurrentAlert() == old(CurrentAlert()) && detectedObject == old(detectedObject) && log == old(log)
      ensures soundStarts == old(soundStarts) && soundStops == old(soundStops)
    {
      if isRunning {
        isRunning := false;
      }
    }

    /** One run of `capture_frames`. `streamOpen` is whether the stream
        could be opened; `results` are the results of the reads made while
        the run flag stayed set. A stream that cannot be opened ends the run
        without touching anything, the run flag included; otherwise every
        frame read is pushed, dropping the oldest when the queue is full. */
    method Capture(streamOpen: bool, results: seq<Option<Frame>>)
      requires Valid()
      modifies queue
      ensures Valid()
      ensures streamOpen && isRunning ==> queue.items == PushAll(old(queue.items), ReadFrames(results))
      ensures streamOpen && isRunning ==> queue.items == LastN(old(queue.items) + ReadFrames(results), Capacity)
      ensures !(streamOpen && isRunning) ==> queue.items == old(queue.items)
    {
      if streamOpen && isRunning {
        ghost var start := queue.items;
        var i := 0;
        while i < |results|
          invariant 0 <= i <= |results|
          invariant queue.Valid()
          invariant queue.items == PushAll(start, ReadFrames(results[..i]))
        {
          var r := results[i];
          CaptureStep(start, results, i);
          if r.Some? {
            queue.PushDropOldest(r.value);
          }
          i := i + 1;
        }
        assert results[..|results|] == results;
        PushAllKeepsMostRecent(start, ReadFrames(results));
      }
    }

    /** One iteration of `process_frames` for the user `username`, at
        time `now`: take the oldest frame, run both detectors on it, draw
        and judge their boxes, raise the alert if due, log the frame if a
        box was accepted and emit it as a multipart chunk. The run flag is
        read only at the loop head: a consumer blocked in `get()` on an
        empty queue stays blocked through a stop, and processes the next
        frame that arrives. */
    method ProcessFrame(username: string, fire: Frame -> seq<Box>, weapon: Frame -> seq<Box>,
                        encode: Frame -> seq<byte>, now: real) returns (r: StepResult)
      requires Valid()
      modifies this, queue
      ensures Valid()
      ensures isRunning == old(isRunning) && captureLaunches == old(captureLaunches)
      ensures soundStops == old(soundStops)
      ensures !old(Proceeds()) ==> r == Finished && unchanged(this) && unchanged(queue)
      ensures old(Proceeds()) && old(queue.items) == [] ==>
        && r == Waiting && blockedInGet && unchanged(queue)
        && CurrentAlert() == old(CurrentAlert()) && detectedObject == old(detectedObject)
        && log == old(log) && soundStarts == old(soundStarts)
      ensures old(Proceeds()) && old(queue.items) != [] ==>
        var f := old(queue.items)[0];
        var cs := Candidates(fire(f), weapon(f));
        && !blockedInGet
        && queue.items == old(queue.items)[1..]
        && detectedObject == DetectedObject(cs)
        && CurrentAlert() == (if AnyAccepted(cs) then OnAccepted(old(CurrentAlert()), now) else old(CurrentAlert()))
        && soundStarts == old(soundStarts) + (if AnyAccepted(cs) && Fires(old(CurrentAlert()), now) then 1 else 0)
        && log == old(log) + (if AnyAccepted(cs)
                              then [LogRow(username, now, "Yes", ModelName(DetectedObject(cs).value))]
                              else [])
        && r == Emitted(Chunk(encode(Annotated(f, cs))))
    {
      if !blockedInGet && !isRunning {
        return Finished;
      }
      if queue.Empty() {
        blockedInGet := true;
        return Waiting;
      }
      ghost var pending := queue.items;
      var got := queue.Get();
      assert got == Some(pending[0]);
      var frame := got.value;
      blockedInGet := false;
      var chunk := InferFrame(username, frame, Candidates(fire(frame), weapon(frame)), encode, now);
      r := Emitted(chunk);
    }

    /** The body of one `process_frames` iteration once `frame` has been
        taken off the queue and the detectors have reported its boxes `cs`
        (fire boxes first): `detection` and `detected_object` are reset,
        every accepted box is drawn and may raise the alert, a log row is
        written when some box was accepted, and the annotated frame is
        framed as a chunk. */
    method InferFrame(username: string, frame: Frame, cs: seq<Candidate>,
                      encode: Frame -> seq<byte>, now: real) returns (chunk: seq<byte>)
      modifies this
      ensures isRunning == old(isRunning) && captureLaunches == old(captureLaunches)
      ensures soundStops == old(soundStops) && blockedInGet == old(blockedInGet)
      ensures detectedObject == DetectedObject(cs)
      ensures CurrentAlert() == if AnyAccepted(cs) then OnAccepted(old(CurrentAlert()), now) else old(CurrentAlert())
      ensures soundStarts == old(soundStarts) + (if AnyAccepted(cs) && Fires(old(CurrentAlert()), now) then 1 else 0)
      ensures log == old(log) + if AnyAccepted(cs)
                                then [LogRow(username, now, "Yes", ModelName(DetectedObject(cs).value))]
                                else []
      ensures chunk == Chunk(encode(Annotated(frame, cs)))
    {
      var detection, detected, overlays, after, started := ScanDetections(cs, CurrentAlert(), now);
      detectedObject := detected;
      alertActive, lastAcknowledged := after.active, after.lastAcknowledged;
      soundStarts := soundStarts + started;
      if detected.Some? {
        assert detection == "Yes";
        log := log + [LogRow(username, now, detection, ModelName(detected.value))];
      }
      chunk := Chunk(encode(frame.(overlays := frame.overlays + overlays)));
    }

    /** `alert_status`. */
    function CurrentStatus(): (s: Status)
      reads this
      ensures s.isAlertActive <==> alertActive && detectedObject.Some?
    {
      AlertStatus(alertActive, detectedObject)
    }

    /** `acknowledge_alert` at time `now`: stops the sound, clears the
        alert and restarts the cooldown, whatever the prior state. */
    method AcknowledgeAlert(now: real)
      modifies this
      ensures CurrentAlert() == Acknowledged(old(CurrentAlert()), now)
      ensures soundStops == old(soundStops) + 1
      ensures isRunning == old(isRunning) && detectedObject == old(detectedObject) && log == old(log)
      ensures captureLaunches == old(captureLaunches) && soundStarts == old(soundStarts)
      ensures blockedInGet == old(blockedInGet)
    {
      soundStops := soundStops + 1;
      alertActive := false;
      lastAcknowledged := now;
    }
  }

  /** A frame is among those a capture run obtained exactly when some read
      of the run returned it. */
  lemma {:induction false} ReadFramesKeepsSuccesses(results: seq<Option<Frame>>)
    ensures forall f :: f in ReadFrames(results) <==> Some(f) in results
    decreases |results|
  {
    if results != [] {
      var init, last := results[..|results| - 1], results[|results| - 1];
      ReadFramesKeepsSuccesses(init);
      assert results == init + [last];
    }
  }

  /** The queue after one more read of a capture run. */
  lemma CaptureStep(start: seq<Frame>, results: seq<Option<Frame>>, i: nat)
    requires i < |results|
    ensures var before := PushAll(start, ReadFrames(results[..i]));
            PushAll(start, ReadFrames(results[..i + 1]))
            == if results[i].Some? then Pushed(before, results[i].value) else before
  {
    var r := results[i];
    var got := ReadFrames(results[..i]);
    ReadFramesSnoc(results[..i], r);
    assert results[..i + 1] == results[..i] + [r];
    if r.Some? {
      PushAllSnoc(start, got, r.value);
    } else {
      assert got + [] == got;
    }
  }

  lemma ReadFramesSnoc(results: seq<Option<Frame>>, r: Option<Frame>)
    ensures ReadFrames(results + [r]) == ReadFrames(results) + (if r.Some? then [r.value] else [])
  {
    assert (results + [r])[..|results|] == results;
  }

  /** Starting a stopped camera twice launches exactly one capture
      thread; stopping it twice leaves it stopped with nothing else
      changed. */
  method StartTwiceStopTwice(app: App)
    requires !app.isRunning
    modifies app
    ensures !app.isRunning
    ensures app.captureLaunches == old(app.captureLaunches) + 1
    ensures app.CurrentAlert() == old(app.CurrentAlert()) && app.log == old(app.log)
  {
    app.Start();
    app.Start();
    assert app.captureLaunches == old(app.captureLaunches) + 1;
    app.Stop();
    app.Stop();
  }

  /** A capture run whose stream cannot be opened leaves the run flag set,
      so a second start launches no new capture thread until the camera
      is stopped. */
  method FailedOpenKeepsRunning(app: App, results: seq<Option<Frame>>)
    requires app.Valid() && !app.isRunning
    modifies app, app.queue
    ensures app.isRunning
    ensures app.captureLaunches == old(app.captureLaunches) + 1
    ensures app.queue.items == old(app.queue.items)
  {
    app.Start();
    app.Capture(false, results);
    app.Start();
  }

  /** A stop does not end a consumer that is blocked on an empty queue:
      the next turn finds it still waiting in `get()`, with the run flag
      clear. */
  method StopLeavesBlockedConsumer(app: App, user: string, fire: Frame -> seq<Box>,
                                   weapon: Frame -> seq<Box>, encode: Frame -> seq<byte>, now: real)
    returns (before: StepResult, afterStop: StepResult)
    requires app.Valid() && app.isRunning && app.queue.items == []
    modifies app, app.queue
    ensures before == Waiting && afterStop == Waiting
    ensures app.Valid() && app.blockedInGet && !app.isRunning && app.queue.items == []
  {
    before := app.ProcessFrame(user, fire, weapon, encode, now);
    app.Stop();
    afterStop := app.ProcessFrame(user, fire, weapon, encode, now);
  }

  /** A consumer still blocked after a stop processes the first frame
      captured once the camera is started again. */
  method RestartFeedsBlockedConsumer(app: App, user: string, fire: Frame -> seq<Box>,
                                     weapon: Frame -> seq<Box>, encode: Frame -> seq<byte>,
                                     now: real, f: Frame)
    returns (r: StepResult)
    requires app.Valid() && app.blockedInGet && !app.isRunning && app.queue.items == []
    modifies app, app.queue
    ensures r == Emitted(Chunk(encode(Annotated(f, Candidates(fire(f), weapon(f))))))
  {
    RestartCapturing(app, f);
    r := app.ProcessFrame(user, fire, weapon, encode, now);
  }

  /** Restarting the camera with an empty queue and capturing one frame
      queues that frame, and leaves a blocked consumer blocked. */
  method RestartCapturing(app: App, f: Frame)
    requires app.Valid() && app.blockedInGet && !app.isRunning && app.queue.items == []
    modifies app, app.queue
    ensures app.Valid() && app.blockedInGet && app.isRunning && app.queue.items == [f]
  {
    app.Start();
    app.Capture(true, [Some(f)]);
    ReadOneFrame(f);
  }

  lemma ReadOneFrame(f: Frame)
    ensures LastN([] + ReadFrames([Some(f)]), Capacity) == [f]
  {
    assert [Some(f)][..0] == [];
    assert ReadFrames([Some(f)]) == [f];
  }

  /** The frames of the five-frame scenario, told apart by one pixel. */
  function ScenarioFrame(k: nat): Frame
  {
    Frame([(k % 256) as byte], [])
  }

  function ScenarioFrames(): seq<Frame>
  {
    seq(5, k requires 0 <= k < 5 => ScenarioFrame(k))
  }

  /** The scenario's fire detector: one 0.55 box on frame 3. */
  function ScenarioFire(f: Frame): seq<Box>
  {
    if f.pixels == [3] then [Box("fire", 0.55, 10, 10, 50, 50)] else []
  }

  /** The scenario's weapon detector: one 0.30 box on frame 4. */
  function ScenarioWeapon(f: Frame): seq<Box>
  {
    if f.pixels == [4] then [Box("knife", 0.30, 20, 20, 60, 60)] else []
  }

  lemma ScenarioDetections(k: nat)
    requires k < 5
    ensures var f := ScenarioFrame(k);
            var cs := Candidates(ScenarioFire(f), ScenarioWeapon(f));
            AnyAccepted(cs) == (k == 3) && (k == 3 ==> DetectedObject(cs) == Some(Fire))
  {
    var f := ScenarioFrame(k);
    var cs := Candidates(ScenarioFire(f), ScenarioWeapon(f));
    assert f.pixels == [k as byte];
    if k == 3 {
      assert cs == [Candidate(Fire, Box("fire", 0.55, 10, 10, 50, 50))];
      assert Accepted(cs[0]);
    } else if k == 4 {
      assert cs == [Candidate(Weapon, Box("knife", 0.30, 20, 20, 60, 60))];
      assert !Accepted(cs[0]);
    } else {
      assert cs == [];
    }
  }

  /** A new service, started, whose capture run read the five scenario
      frames. */
  method ScenarioLoaded() returns (app: App)
    ensures fresh(app) && fresh(app.queue)
    ensures app.Valid() && app.isRunning && app.queue.items == ScenarioFrames()
    ensures app.log == [] && app.soundStarts == 0 && app.CurrentAlert() == Initial
  {
    app := new App();
    app.Start();
    var frames := ScenarioFrames();
    var results := seq(5, k requires 0 <= k < 5 => Some(frames[k]));
    app.Capture(true, results);
    ReadFramesAllSome(frames);
    assert [] + frames == frames;
  }

  /** The first three scenario frames carry no box: each is emitted and
      nothing is logged or raised. */
  method ScenarioQuietFrames(app: App, user: string, now: real) returns (emitted: nat)
    requires app.Valid() && app.isRunning && app.queue.items == ScenarioFrames()
    requires app.log == [] && app.soundStarts == 0 && app.CurrentAlert() == Initial
    modifies app, app.queue
    ensures app.Valid() && app.isRunning && app.queue.items == ScenarioFrames()[3..]
    ensures app.log == [] && app.soundStarts == 0 && app.CurrentAlert() == Initial
    ensures emitted == 3
  {
    var frames := ScenarioFrames();
    emitted := 0;
    var k := 0;
    while k < 3
      invariant 0 <= k <= 3
      invariant app.Valid() && app.isRunning
      invariant app.queue.items == frames[k..]
      invariant emitted == k
      invariant app.log == [] && app.soundStarts == 0 && app.CurrentAlert() == Initial
    {
      ScenarioDetections(k);
      var r := app.ProcessFrame(user, ScenarioFire, ScenarioWeapon, (f: Frame) => f.pixels, now);
      if r.Emitted? {
        emitted := emitted + 1;
      }
      k := k + 1;
    }
  }

  /** The fourth scenario frame carries a 0.55 fire box: it is emitted,
      logged as a Fire detection, and raises the alert. */
  method ScenarioFireFrame(app: App, user: string, now: real) returns (emitted: nat)
    requires now > AlertDelay
    requires app.Valid() && app.isRunning && app.queue.items == ScenarioFrames()[3..]
    requires app.log == [] && app.soundStarts == 0 && app.CurrentAlert() == Initial
    modifies app, app.queue
    ensures app.Valid() && app.isRunning && app.queue.items == ScenarioFrames()[4..]
    ensures app.log == [LogRow(user, now, "Yes", "Fire")] && app.soundStarts == 1
    ensures emitted == 1
  {
    ScenarioDetections(3);
    emitted := 0;
    var r := app.ProcessFrame(user, ScenarioFire, ScenarioWeapon, (f: Frame) => f.pixels, now);
    if r.Emitted? {
      emitted := 1;
    }
  }

  /** The fifth scenario frame carries only a 0.30 weapon box: it is
      emitted, and neither logged nor alerted on. */
  method ScenarioWeaponFrame(app: App, user: string, now: real) returns (emitted: nat)
    requires app.Valid() && app.isRunning && app.queue.items == ScenarioFrames()[4..]
    requires app.log == [LogRow(user, now, "Yes", "Fire")] && app.soundStarts == 1
    modifies app, app.queue
    ensures app.queue.items == []
    ensures app.log == [LogRow(user, now, "Yes", "Fire")] && app.soundStarts == 1
    ensures emitted == 1
  {
    ScenarioDetections(4);
    emitted := 0;
    var r := app.ProcessFrame(user, ScenarioFire, ScenarioWeapon, (f: Frame) => f.pixels, now);
    if r.Emitted? {
      emitted := 1;
    }
  }

  /** Five frames through the whole pipeline: three without boxes, one
      with a 0.55 fire box and one with a 0.30 weapon box. Every frame is
      emitted, only the fire frame is logged, and the alarm starts once. */
  method FiveFrameScenario(user: string, now: real) returns (log: seq<LogRow>, starts: nat, emitted: nat)
    requires now > AlertDelay
    ensures log == [LogRow(user, now, "Yes", "Fire")]
    ensures starts == 1
    ensures emitted == 5
  {
    var app := ScenarioLoaded();
    var quiet := ScenarioQuietFrames(app, user, now);
    var fire := ScenarioFireFrame(app, user, now);
    var weapon := ScenarioWeaponFrame(app, user, now);
    emitted := quiet + fire + weapon;
    log, starts := app.log, app.soundStarts;
  }

  lemma {:induction false} ReadFramesAllSome(fs: seq<Frame>)
    ensures ReadFrames(seq(|fs|, k requires 0 <= k < |fs| => Some(fs[k]))) == fs
    decreases |fs|
  {
    var rs := seq(|fs|, k requires 0 <= k < |fs| => Some(fs[k]));
    if fs != [] {
      var init := fs[..|fs| - 1];
      assert rs[..|rs| - 1] == seq(|init|, k requires 0 <= k < |init| => Some(init[k]));
      ReadFramesAllSome(init);
      assert fs == init + [fs[|fs| - 1]];
    }
  }
}
