/** The accident-episode pipeline of `startapplication` (camera.py), as pure functions over a
    snapshot of the loop's state. One loop iteration is split into the phases the source runs
    in order: buffer the frame, test the trigger, record, show the hint, read the key.

    Frames are their acquisition index (0-based). The classifier result of a frame is a
    `Detection`; its percentage is kept in integer hundredths, so the 98.0 threshold is 9800.
    Calls, buzzer launches, emails and writer releases are counted, not performed. */
module Episode {

  /** Seconds of look-back the buffer keeps (`buffer_seconds`). */
  const BUFFER_SECONDS: nat := 2
  /** Seconds recorded after the trigger (`after_seconds`). */
  const AFTER_SECONDS: nat := 3
  /** The trigger threshold, 98.00 %, in hundredths of a percent. */
  const THRESHOLD_HUNDREDTHS: int := 9800

  datatype Option<T> = None | Some(value: T)

  /** The classifier's verdict on one frame: the label and the rounded percentage in hundredths. */
  datatype Detection = Detection(isAccident: bool, pctHundredths: int)

  /** The key read after a frame: 'q', 's', or anything else (including no key at all). */
  datatype Key = Other | Q | S

  /** What the loop consumes per frame read from the capture. */
  datatype Input = Input(detection: Detection, key: Key)

  /** The loop's locals together with the global `stop_buzzer`, plus counters for the
      side effects the loop launches. */
  datatype State = State(
    buffer: seq<int>,       // frame_buffer
    callTriggered: bool,    // call_triggered
    recording: bool,        // recording
    afterCounter: nat,      // after_counter
    writerCreated: bool,    // video_writer is not None
    writerOpen: bool,       // video_writer created and not yet released
    clip: seq<int>,         // frames written to the clip file, in order
    stopBuzzer: bool,       // the global stop_buzzer
    calls: nat,             // make_call() invocations
    buzzers: nat,           // play_buzzer threads started
    emails: nat,            // send_email dispatches (threaded or not)
    releases: nat)          // video_writer.release() invocations

  function Min(a: int, b: int): int { if a <= b then a else b }

  /** Capacity of the look-back deque: `fps * buffer_seconds`. */
  function Cap(fps: nat): nat { fps * BUFFER_SECONDS }

  /** Number of live frames written before recording closes. The source closes once
      `after_counter >= fps * after_seconds`, and the counter is at least 1 when first tested,
      so with `fps == 0` one frame is written. */
  function PostFrames(fps: nat): (p: nat)
    ensures p >= 1 && p >= fps * AFTER_SECONDS
    ensures fps >= 1 ==> p == fps * AFTER_SECONDS
    ensures fps == 0 ==> p == 1
  {
    if fps * AFTER_SECONDS == 0 then 1 else fps * AFTER_SECONDS
  }

  /** The frames `lo, lo + 1, ..., hi - 1`. */
  function Range(lo: int, hi: int): seq<int>
    requires lo <= hi
  {
    seq(hi - lo, k => lo + k)
  }

  /** The most recent `n` elements of `s` (all of `s` if it is shorter), in order. */
  function LastN(s: seq<int>, n: nat): seq<int>
  {
    if |s| <= n then s else s[|s| - n..]
  }

  /** `deque.append` on a deque with `maxlen = cap`: drop the oldest elements so that the new
      one fits, then add it at the right end. A `maxlen` of 0 keeps nothing. */
  function Append(buf: seq<int>, f: int, cap: nat): (r: seq<int>)
    ensures |r| <= cap
    ensures r == LastN(buf + [f], cap)
  {
    if cap == 0 then []
    else if |buf| >= cap then buf[|buf| - cap + 1..] + [f]
    else buf + [f]
  }

  /** The trigger test of camera.py:123-127 apart from the `call_triggered` guard. */
  predicate Fires(d: Detection)
  {
    d.isAccident && d.pctHundredths >= THRESHOLD_HUNDREDTHS
  }

  /** The state before the first frame is read. */
  function Init(): State
  {
    State([], false, false, 0, false, false, [], false, 0, 0, 0, 0)
  }

  /** Phase 1: append a copy of the frame to the look-back buffer. */
  function Buffered(fps: nat, s: State, frame: int): (r: State)
    ensures |r.buffer| <= Cap(fps) && r.buffer == LastN(s.buffer + [frame], Cap(fps))
    ensures r == s.(buffer := r.buffer)
  {
    s.(buffer := Append(s.buffer, frame, Cap(fps)))
  }

  /** Phase 2: the trigger. Places the call, re-arms the buzzer flag and starts the buzzer,
      opens a fresh writer and drains the buffer into it, starts recording and sends the
      first email. */
  function Detected(s: State, d: Detection): (r: State)
    // exactly once: an episode that has started is never touched again
    ensures s.callTriggered ==> r == s
    ensures r.callTriggered <==> s.callTriggered || Fires(d)
    ensures r.buffer == s.buffer
    ensures !r.callTriggered ==> r == s
    ensures r.callTriggered && !s.callTriggered ==>
              r.calls == s.calls + 1 && r.buzzers == s.buzzers + 1 && !r.stopBuzzer &&
              r.writerCreated && r.writerOpen && r.clip == s.buffer &&
              r.recording && r.afterCounter == 0 && r.emails == s.emails + 1 &&
              r.releases == s.releases
  {
    if Fires(d) && !s.callTriggered then
      s.(calls := s.calls + 1, stopBuzzer := false, buzzers := s.buzzers + 1,
         writerCreated := true, writerOpen := true, clip := s.buffer,
         recording := true, afterCounter := 0, callTriggered := true,
         emails := s.emails + 1)
    else s
  }

  /** Phase 3: while recording, write the live frame; close the writer and send the second
      email once `after_counter` reaches `fps * after_seconds`. */
  function Recorded(fps: nat, s: State, frame: int): (r: State)
    ensures !s.recording ==> r == s
    // the live frame is written and counted; recording stops once the window is full
    ensures s.recording ==>
              r.clip == s.clip + [frame] && r.afterCounter == s.afterCounter + 1 &&
              (r.recording <==> r.afterCounter < fps * AFTER_SECONDS)
    // closing releases the writer and sends the second email, once
    ensures s.recording ==>
              r.writerOpen == (s.writerOpen && r.recording) &&
              r.releases == s.releases + (if r.recording then 0 else 1) &&
              r.emails == s.emails + (if r.recording then 0 else 1)
    ensures r.buffer == s.buffer && r.callTriggered == s.callTriggered &&
            r.stopBuzzer == s.stopBuzzer && r.calls == s.calls && r.buzzers == s.buzzers &&
            r.writerCreated == s.writerCreated
  {
    if s.recording then
      var w := s.(clip := s.clip + [frame], afterCounter := s.afterCounter + 1);
      if w.afterCounter >= fps * AFTER_SECONDS then
        w.(recording := false, writerOpen := false, releases := w.releases + 1,
           emails := w.emails + 1)
      else w
    else s
  }

  /** The state at the overlay point of an iteration: after phases 1 to 3. */
  function AfterFrame(fps: nat, s: State, frame: int, d: Detection): State
  {
    Recorded(fps, Detected(Buffered(fps, s, frame), d), frame)
  }

  /** Phase 4: the "Press 'S' to stop buzzer" hint is drawn on the frame. */
  predicate ShowsHint(s: State)
  {
    s.callTriggered && !s.stopBuzzer
  }

  /** Phase 5: 'q' silences the buzzer (and ends the loop); 's' silences it after a trigger. */
  function Keyed(s: State, key: Key): (r: State)
    ensures r == s.(stopBuzzer := r.stopBuzzer)
    // only a set flag comes out; 's' before any trigger does nothing
    ensures r.stopBuzzer <==> s.stopBuzzer || key == Q || (key == S && s.callTriggered)
  {
    if key == Q then s.(stopBuzzer := true)
    else if key == S && s.callTriggered then s.(stopBuzzer := true)
    else s
  }

  /** One complete iteration of the loop on frame `frame`. */
  function Step(fps: nat, s: State, frame: int, input: Input): (r: State)
    // the buffer keeps the most recent frames, oldest evicted first
    ensures r.buffer == LastN(s.buffer + [frame], Cap(fps))
    // exactly once: a call happens only from an untriggered state, and only on a firing frame
    ensures r.calls == s.calls + (if Fires(input.detection) && !s.callTriggered then 1 else 0)
    ensures r.buzzers == s.buzzers + (if Fires(input.detection) && !s.callTriggered then 1 else 0)
    ensures r.callTriggered <==> s.callTriggered || Fires(input.detection)
    // on the triggering frame the clip is the whole new buffer followed by that frame again
    ensures Fires(input.detection) && !s.callTriggered ==>
              r.clip == LastN(s.buffer + [frame], Cap(fps)) + [frame]
    // once recording has closed, the clip, the writer and the alerts never change again
    ensures s.callTriggered && !s.recording ==>
              r.clip == s.clip && r.writerCreated == s.writerCreated &&
              r.writerOpen == s.writerOpen && r.emails == s.emails && r.calls == s.calls &&
              !r.recording
    // while recording, the live frame is appended to the clip
    ensures s.callTriggered && s.recording ==> r.clip == s.clip + [frame]
    // the cancel flag: set by 'q' always, by 's' after a trigger, cleared by a new trigger
    ensures r.stopBuzzer <==>
              input.key == Q || (input.key == S && r.callTriggered) ||
              (s.stopBuzzer && !(Fires(input.detection) && !s.callTriggered))
  {
    Keyed(AfterFrame(fps, s, frame, input.detection), input.key)
  }

  /** The loop from frame `i` on: stop at the end of the input, or after the iteration whose
      key is 'q'. */
  function Loop(fps: nat, s: State, inputs: seq<Input>, i: nat): (r: State)
    requires i <= |inputs|
    // over any stretch of the loop the call and the buzzer are launched at most once
    ensures s.callTriggered ==> r.callTriggered
    ensures r.calls == s.calls + (if r.callTriggered && !s.callTriggered then 1 else 0)
    ensures r.buzzers == s.buzzers + (if r.callTriggered && !s.callTriggered then 1 else 0)
    // a writer is open only if one was created
    ensures (s.writerOpen ==> s.writerCreated) ==> (r.writerOpen ==> r.writerCreated)
    decreases |inputs| - i
  {
    if i == |inputs| then s
    else
      var next := Step(fps, s, i, inputs[i]);
      if inputs[i].key == Q then next else Loop(fps, next, inputs, i + 1)
  }

  /** After the loop: release the writer if one was ever created. */
  function Cleanup(s: State): (r: State)
    requires s.writerOpen ==> s.writerCreated
    ensures !r.writerOpen
    ensures r.releases == s.releases + (if s.writerCreated then 1 else 0)
    ensures r.clip == s.clip && r.emails == s.emails && r.calls == s.calls
  {
    if s.writerCreated then s.(writerOpen := false, releases := s.releases + 1) else s
  }

  /** A whole run of `startapplication` on an opened capture. */
  function Run(fps: nat, inputs: seq<Input>): (r: State)
    ensures !r.writerOpen
    ensures r.calls <= 1 && r.buzzers == r.calls && (r.calls == 1 <==> r.callTriggered)
  {
    Cleanup(Loop(fps, Init(), inputs, 0))
  }

  /** How many frames the loop reads: up to and including the first 'q', or all of them. */
  function Processed(inputs: seq<Input>): (m: nat)
    ensures m <= |inputs|
    ensures forall j :: 0 <= j < m - 1 ==> inputs[j].key != Q
    ensures m < |inputs| ==> 0 < m && inputs[m - 1].key == Q
  {
    if |inputs| == 0 then 0
    else if inputs[0].key == Q then 1
    else 1 + Processed(inputs[1..])
  }

  /** The first frame among the first `n` whose detection fires the trigger, if any. */
  function FirstFire(inputs: seq<Input>, n: nat): (r: Option<nat>)
    requires n <= |inputs|
    ensures r.Some? ==> r.value < n && Fires(inputs[r.value].detection)
    ensures r.Some? ==> forall j :: 0 <= j < r.value ==> !Fires(inputs[j].detection)
    ensures r.None? ==> forall j :: 0 <= j < n ==> !Fires(inputs[j].detection)
  {
    if n == 0 then None
    else match FirstFire(inputs, n - 1)
      case Some(t) => Some(t)
      case None => if Fires(inputs[n - 1].detection) then Some(n - 1) else None
  }
}
