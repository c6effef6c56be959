/** `startapplication` (camera.py) as imperative code: the loop's locals and the global
    `stop_buzzer` are the fields of a `Pipeline`, updated in place one frame at a time.
    Each method is proved against the functions of module `Episode`, whose whole-run
    properties are proved in module `EpisodeProofs`. */
module Camera {
  import opened Episode

  class Pipeline {
    /** The capture's frame rate, `int(cap.get(CAP_PROP_FPS))`; it may be 0. */
    const fps: nat

    var frameBuffer: seq<int>
    var callTriggered: bool
    var recording: bool
    var afterCounter: nat
    var writerCreated: bool
    var writerOpen: bool
    var clip: seq<int>
    var stopBuzzer: bool
    var calls: nat
    var buzzers: nat
    var emails: nat
    var releases: nat

    /** A deque never holds more than its `maxlen`, and a writer is open only if one was
        created. */
    ghost predicate Valid()
      reads this
    {
      |frameBuffer| <= fps * BUFFER_SECONDS && (writerOpen ==> writerCreated)
    }

    /** The fields as a value of the specification's state. */
    function Snapshot(): State
      reads this
    {
      State(frameBuffer, callTriggered, recording, afterCounter, writerCreated, writerOpen,
            clip, stopBuzzer, calls, buzzers, emails, releases)
    }

    /** The locals as `startapplication` sets them before its loop, with `stop_buzzer` at its
        initial value. */
    constructor (fps: nat)
      ensures this.fps == fps && Snapshot() == Init() && Valid()
    {
      this.fps := fps;
      frameBuffer := [];
      callTriggered, recording, afterCounter := false, false, 0;
      writerCreated, writerOpen, clip := false, false, [];
      stopBuzzer := false;
      calls, buzzers, emails, releases := 0, 0, 0, 0;
    }

    /** One iteration of the loop on a frame that was read: buffer it, test the trigger,
        record, decide the hint, and react to the key. `quit` is the `break` on 'q'. */
    method Step(frame: int, d: Detection, key: Key) returns (hint: bool, quit: bool)
      requires Valid()
      modifies this
      ensures Valid()
      ensures Snapshot() == Episode.Step(fps, old(Snapshot()), frame, Input(d, key))
      ensures hint == ShowsHint(AfterFrame(fps, old(Snapshot()), frame, d))
      ensures quit <==> key == Q
    {
      BufferFrame(frame);
      CheckTrigger(d);
      RecordFrame(frame);
      hint := callTriggered && !stopBuzzer;
      quit := HandleKey(key);
    }

    /** `frame_buffer.append(frame.copy())`: the deque drops its oldest frames to make room,
        then appends. */
    method BufferFrame(frame: int)
      requires Valid()
      modifies this
      ensures Valid()
      ensures Snapshot() == Buffered(fps, old(Snapshot()), frame)
    {
      var cap := fps * BUFFER_SECONDS;
      if cap > 0 {
        if |frameBuffer| >= cap {
          frameBuffer := frameBuffer[|frameBuffer| - cap + 1..];
        }
        frameBuffer := frameBuffer + [frame];
      }
    }

    /** The trigger: call, re-arm and start the buzzer, open a writer and drain the buffer
        into it, start recording, send the first email. */
    method CheckTrigger(d: Detection)
      modifies this
      ensures frameBuffer == old(frameBuffer)
      ensures Snapshot() == Detected(old(Snapshot()), d)
    {
      if Fires(d) && !callTriggered {
        // a fresh writer on the clip path, then the buffered frames in order
        var written := Drain(frameBuffer);
        calls, stopBuzzer, buzzers := calls + 1, false, buzzers + 1;
        writerCreated, writerOpen, clip := true, true, written;
        recording, afterCounter, callTriggered := true, 0, true;
        emails := emails + 1;
      }
    }

    /** While recording: write the live frame, count it, and close the clip (release the
        writer, send the second email) once the post-trigger window is full. */
    method RecordFrame(frame: int)
      modifies this
      ensures frameBuffer == old(frameBuffer)
      ensures Snapshot() == Recorded(fps, old(Snapshot()), frame)
    {
      if recording {
        clip := clip + [frame];
        afterCounter := afterCounter + 1;
        if afterCounter >= fps * AFTER_SECONDS {
          recording := false;
          writerOpen, releases := false, releases + 1;
          emails := emails + 1;
        }
      }
    }

    /** 'q' silences the buzzer and ends the loop; 's' silences it once a call was made. */
    method HandleKey(key: Key) returns (quit: bool)
      modifies this
      ensures frameBuffer == old(frameBuffer)
      ensures Snapshot() == Keyed(old(Snapshot()), key)
      ensures quit <==> key == Q
    {
      quit := false;
      if key == Q {
        stopBuzzer := true;
        quit := true;
      } else if key == S && callTriggered {
        stopBuzzer := true;
      }
    }

    /** The whole loop over the frames the capture yields, then the exit cleanup that
        releases the writer if one was created. Frame `i` of `inputs` is acquisition index `i`. */
    method Run(inputs: seq<Input>)
      requires Valid()
      modifies this
      ensures Valid()
      ensures Snapshot() == Cleanup(Loop(fps, old(Snapshot()), inputs, 0))
    {
      ReadFrames(inputs);
      ReleaseWriter();
    }

    /** `while True`: one iteration per frame read, until the capture has no more frames or
        the key 'q' breaks out. */
    method ReadFrames(inputs: seq<Input>)
      requires Valid()
      modifies this
      ensures Valid()
      ensures Snapshot() == Loop(fps, old(Snapshot()), inputs, 0)
    {
      ghost var start := Snapshot();
      var i := 0;
      var quit := false;
      while i < |inputs| && !quit
        invariant 0 <= i <= |inputs| && Valid()
        invariant !quit ==> Loop(fps, Snapshot(), inputs, i) == Loop(fps, start, inputs, 0)
        invariant quit ==> Snapshot() == Loop(fps, start, inputs, 0)
        decreases |inputs| - i
      {
        ghost var before := Snapshot();
        var hint;
        hint, quit := Step(i, inputs[i].detection, inputs[i].key);
        assert Loop(fps, before, inputs, i) ==
               if quit then Snapshot() else Loop(fps, Snapshot(), inputs, i + 1);
        i := i + 1;
      }
    }

    /** The exit cleanup: `if video_writer: video_writer.release()`. */
    method ReleaseWriter()
      requires Valid()
      modifies this
      ensures Valid()
      ensures Snapshot() == Cleanup(old(Snapshot()))
    {
      if writerCreated {
        writerOpen, releases := false, releases + 1;
      }
    }
  }

  /** `for f in frame_buffer: video_writer.write(f)` on a freshly opened writer: the clip
      receives every buffered frame, oldest first. */
  method Drain(buffered: seq<int>) returns (written: seq<int>)
    ensures written == buffered
  {
    written := [];
    for i := 0 to |buffered|
      invariant written == buffered[..i]
    {
      written := written + [buffered[i]];
    }
  }

  /** `startapplication`: nothing happens when the capture cannot be opened; otherwise the
      loop runs from the initial state and the final state is returned. */
  method StartApplication(captureOpened: bool, fps: nat, inputs: seq<Input>) returns (outcome: Option<State>)
    ensures !captureOpened ==> outcome == None
    ensures captureOpened ==> outcome == Some(Run(fps, inputs))
  {
    if !captureOpened {
      return None;
    }
    var p := new Pipeline(fps);
    p.Run(inputs);
    outcome := Some(p.Snapshot());
  }
}
