/** The repeat filter of the camera scanner (`onBarcodeDetected`): a code
    read again within 4.5 seconds of the last accepted read of the same code
    is ignored. */
module Scanner {
  import opened Optional

  /** Milliseconds during which a repeated read of the same code is ignored. */
  const RepeatWindow: nat := 4500

  /** The last accepted code and the time it was accepted
      (`lastDetectedCode`, `lastDetectedTime`). */
  datatype Memory = Memory(code: string, time: nat)

  /** The memory when the page loads. */
  const Initial := Memory("", 0)

  /** Whether a detection at `now` is accepted: it carries a nonempty code
      that is not the remembered code read again within the window. */
  predicate Admits(m: Memory, detected: Option<string>, now: nat) {
    detected.Some? && detected.value != ""
    && !(detected.value == m.code && now - m.time < RepeatWindow)
  }

  /** The memory after one detection. */
  function Step(m: Memory, detected: Option<string>, now: nat): Memory {
    if Admits(m, detected, now) then Memory(detected.value, now) else m
  }

  /** One call of the detection handler: the code it carries, if any, and
      the clock at that moment. */
  datatype Detection = Detection(code: Option<string>, at: nat)

  /** The memory after a run of detections, and the accepted ones in order. */
  datatype Trace = Trace(final: Memory, accepted: seq<Memory>)

  function Run(m: Memory, events: seq<Detection>): Trace
    decreases |events|
  {
    if events == [] then Trace(m, [])
    else
      var e := events[0];
      var rest := Run(Step(m, e.code, e.at), events[1..]);
      if Admits(m, e.code, e.at) then Trace(rest.final, [Memory(e.code.value, e.at)] + rest.accepted)
      else rest
  }

  /** The memory always holds the last accepted detection, or its start
      value when nothing was accepted. */
  lemma {:induction false} RunFinal(m: Memory, events: seq<Detection>)
    ensures var t := Run(m, events);
      t.final == if t.accepted == [] then m else t.accepted[|t.accepted| - 1]
    decreases |events|
  {
    if events != [] {
      RunFinal(Step(m, events[0].code, events[0].at), events[1..]);
    }
  }

  /** Every accepted detection is one of the events, with a nonempty code. */
  lemma {:induction false} AcceptedAreDetections(m: Memory, events: seq<Detection>)
    ensures forall a :: a in Run(m, events).accepted ==>
      a.code != "" && Detection(Some(a.code), a.time) in events
    decreases |events|
  {
    if events != [] {
      AcceptedAreDetections(Step(m, events[0].code, events[0].at), events[1..]);
    }
  }

  /** Reads of the remembered code (or reads without a code) that all come
      within the window change nothing and are all ignored. */
  lemma {:induction false} RepeatsIgnored(m: Memory, events: seq<Detection>)
    requires forall i :: 0 <= i < |events| ==>
      (events[i].code.Some? ==> events[i].code.value in {"", m.code}) && events[i].at < m.time + RepeatWindow
    ensures Run(m, events) == Trace(m, [])
    decreases |events|
  {
    if events != [] {
      assert !Admits(m, events[0].code, events[0].at);
      RepeatsIgnored(m, events[1..]);
    }
  }

  /** Accepted reads of the same code are at least the window apart: the
      first one from the starting memory, and each from the one before. */
  lemma {:induction false} AcceptedRepeatsSpaced(m: Memory, events: seq<Detection>)
    ensures var acc := Run(m, events).accepted;
      (|acc| > 0 && acc[0].code == m.code ==> acc[0].time >= m.time + RepeatWindow)
      && forall i :: 0 <= i < |acc| - 1 && acc[i].code == acc[i + 1].code
           ==> acc[i + 1].time >= acc[i].time + RepeatWindow
    decreases |events|
  {
    if events != [] {
      var e := events[0];
      var m' := Step(m, e.code, e.at);
      AcceptedRepeatsSpaced(m', events[1..]);
      var rest := Run(m', events[1..]).accepted;
      if Admits(m, e.code, e.at) {
        var acc := [Memory(e.code.value, e.at)] + rest;
        assert Run(m, events).accepted == acc;
        forall i | 0 <= i < |acc| - 1 && acc[i].code == acc[i + 1].code
          ensures acc[i + 1].time >= acc[i].time + RepeatWindow
        {
          if i > 0 {
            assert acc[i] == rest[i - 1] && acc[i + 1] == rest[i];
          }
        }
      }
    }
  }
}
