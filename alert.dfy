/** The alert state machine: an alert fires on an accepted detection only
    when it is not already active and the cooldown since the last
    acknowledgement has run out; acknowledging clears it and restarts the
    cooldown. */
module Alert {
  import opened Types
  import opened Detection

  /** `ALERT_DELAY`, in seconds. */
  const AlertDelay: real := 600.0

  /** The globals `alert_active` and `last_acknowledged`. */
  datatype AlertState = AlertState(active: bool, lastAcknowledged: real)

  /** The state before anything happened. */
  const Initial: AlertState := AlertState(false, 0.0)

  /** An accepted box seen at time `now` raises the alert (and starts the
      alarm sound). */
  predicate Fires(s: AlertState, now: real)
  {
    !s.active && now - s.lastAcknowledged > AlertDelay
  }

  /** The state after an accepted box is seen at time `now`. */
  function OnAccepted(s: AlertState, now: real): (r: AlertState)
    ensures r.lastAcknowledged == s.lastAcknowledged
    ensures r.active <==> s.active || now - s.lastAcknowledged > AlertDelay
    ensures r.active != s.active <==> Fires(s, now)
    ensures !Fires(r, now)
  {
    if Fires(s, now) then s.(active := true) else s
  }

  /** `acknowledge_alert` at time `now`, whatever the prior state: it
      restarts the cooldown, so a detection fires again exactly when it
      comes more than 600 s after `now`. */
  function Acknowledged(s: AlertState, now: real): (r: AlertState)
    ensures forall t :: Fires(r, t) <==> t > now + AlertDelay
  {
    AlertState(false, now)
  }

  /** The JSON answer of `alert_status`. */
  datatype Status = Status(isAlertActive: bool, anomaly: string)

  /** `alert_status`: the alert is reported only while it is active and the
      most recent frame was attributed to a model. */
  function AlertStatus(active: bool, detected: Option<Model>): (r: Status)
    ensures r.isAlertActive <==> active && detected.Some?
    ensures r.isAlertActive ==> r.anomaly == ModelName(detected.value)
    ensures !r.isAlertActive <==> r.anomaly == "None"
  {
    if active && detected.Some? then Status(true, ModelName(detected.value))
    else Status(false, "None")
  }

  /** Seeing several accepted boxes at the same time has the effect of
      seeing one. */
  lemma OnAcceptedIdempotent(s: AlertState, now: real)
    ensures OnAccepted(OnAccepted(s, now), now) == OnAccepted(s, now)
  {
  }

  /** A frame without accepted boxes leaves `detected_object` None, so the
      status reads inactive even while the alert is still active. */
  lemma QuietFrameHidesAlert(cs: seq<Candidate>)
    requires forall i :: 0 <= i < |cs| ==> !Accepted(cs[i])
    ensures AlertStatus(true, DetectedObject(cs)) == Status(false, "None")
  {
  }

  /** Acknowledging twice differs from acknowledging once only in the
      timestamp. */
  lemma AcknowledgeTwice(s: AlertState, t1: real, t2: real)
    ensures Acknowledged(Acknowledged(s, t1), t2) == Acknowledged(s, t1).(lastAcknowledged := t2)
  {
  }

  /** What the alert controller sees: frames with at least one accepted box
      and acknowledgements, each with its time. */
  datatype Event = Detected(at: real) | Acknowledge(at: real)

  function Step(s: AlertState, e: Event): AlertState
  {
    match e
    case Detected(t) => OnAccepted(s, t)
    case Acknowledge(t) => Acknowledged(s, t)
  }

  function Run(s: AlertState, es: seq<Event>): AlertState
    decreases |es|
  {
    if es == [] then s else Run(Step(s, es[0]), es[1..])
  }

  /** How many times the alarm sound is started along `es`. */
  function Starts(s: AlertState, es: seq<Event>): nat
    decreases |es|
  {
    if es == [] then 0
    else (if es[0].Detected? && Fires(s, es[0].at) then 1 else 0) + Starts(Step(s, es[0]), es[1..])
  }

  predicate NoAcknowledge(es: seq<Event>)
  {
    forall i :: 0 <= i < |es| ==> es[i].Detected?
  }

  /** Between two acknowledgements the sound starts at most once, and not
      at all while the alert is already active. */
  lemma {:induction false} AtMostOneStartPerCycle(s: AlertState, es: seq<Event>)
    requires NoAcknowledge(es)
    ensures s.active ==> Starts(s, es) == 0 && Run(s, es).active
    ensures Starts(s, es) <= 1
    decreases |es|
  {
    if es != [] {
      var s' := Step(s, es[0]);
      assert NoAcknowledge(es[1..]) by {
        forall i | 0 <= i < |es[1..]| ensures es[1..][i].Detected? {
          assert es[1..][i] == es[i + 1];
        }
      }
      AtMostOneStartPerCycle(s', es[1..]);
      if Fires(s, es[0].at) {
        assert s'.active;
      }
    }
  }

  /** Acknowledging at `t` suppresses every detection up to and including
      `t + 600`: no sound starts and the alert stays inactive. */
  lemma {:induction false} CooldownSuppresses(s: AlertState, t: real, es: seq<Event>)
    requires NoAcknowledge(es)
    requires forall i :: 0 <= i < |es| ==> es[i].at <= t + AlertDelay
    ensures Starts(Acknowledged(s, t), es) == 0
    ensures Run(Acknowledged(s, t), es) == Acknowledged(s, t)
    decreases |es|
  {
    if es != [] {
      assert !Fires(Acknowledged(s, t), es[0].at);
      assert Step(Acknowledged(s, t), es[0]) == Acknowledged(s, t);
      assert forall i :: 0 <= i < |es[1..]| ==> es[1..][i] == es[i + 1];
      CooldownSuppresses(s, t, es[1..]);
    }
  }

  /** Once the cooldown after an acknowledgement at `t` has passed, the
      next detection raises the alert and starts the sound. */
  lemma CooldownExpires(s: AlertState, t: real, now: real)
    requires now > t + AlertDelay
    ensures Fires(Acknowledged(s, t), now)
    ensures Starts(Acknowledged(s, t), [Detected(now)]) == 1
    ensures Run(Acknowledged(s, t), [Detected(now)]).active
  {
  }

  /** The cooldown is measured from the acknowledgement, not from the
      previous trigger: detected at t0 (fires), t0 + 1 (no restart),
      acknowledged at t1, detected at t1 + 599 (suppressed) and
      t1 + 601 (fires again). */
  lemma CooldownScenario(t0: real, t1: real)
    requires t0 > AlertDelay && t1 > t0 + 1.0
    ensures Starts(Initial, [Detected(t0), Detected(t0 + 1.0)]) == 1
    ensures Run(Initial, [Detected(t0), Detected(t0 + 1.0), Acknowledge(t1), Detected(t1 + 599.0)])
            == AlertState(false, t1)
    ensures Starts(Initial, [Detected(t0), Detected(t0 + 1.0), Acknowledge(t1),
                             Detected(t1 + 599.0), Detected(t1 + 601.0)]) == 2
  {
    var active := AlertState(true, 0.0);
    var acked := AlertState(false, t1);
    var es := [Detected(t0), Detected(t0 + 1.0), Acknowledge(t1), Detected(t1 + 599.0), Detected(t1 + 601.0)];
    assert Step(Initial, es[0]) == active;
    assert Step(active, es[1]) == active;
    assert Step(active, es[2]) == acked;
    assert Step(acked, es[3]) == acked;
    assert Starts(AlertState(true, t1), []) == 0;
    assert Starts(acked, es[4..]) == 1;
    assert es[3..][1..] == es[4..];
    assert Starts(acked, es[3..]) == 1;
    assert es[2..][1..] == es[3..];
    assert Starts(active, es[2..]) == 1;
    assert es[1..][1..] == es[2..];
    assert Starts(active, es[1..]) == 1;
    assert Starts(Initial, es) == 2;
    var two := [Detected(t0), Detected(t0 + 1.0)];
    assert Starts(active, two[1..]) == 0;
    var four := [Detected(t0), Detected(t0 + 1.0), Acknowledge(t1), Detected(t1 + 599.0)];
    assert four[3..][1..] == [];
    assert Run(acked, four[3..]) == acked;
    assert four[2..][1..] == four[3..];
    assert Run(active, four[2..]) == acked;
    assert four[1..][1..] == four[2..];
    assert Run(active, four[1..]) == acked;
    assert Run(Initial, four) == acked;
  }
}
