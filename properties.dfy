/** Properties of whole runs of the accident-episode loop. Everything follows from one
    invariant, `Inv`, which gives the state after the first `n` frames in closed form: the
    buffer holds the most recent frames, and the episode is either not yet triggered or
    triggered at the first firing frame `t`, with a clip of the buffered frames followed by
    the live frames from `t` on. */
module EpisodeProofs {
  import opened Episode

  /** The state after frames `0 .. n - 1` have been processed, none of them ending the loop
      except possibly the last. */
  ghost predicate Inv(fps: nat, inputs: seq<Input>, n: nat, s: State)
    requires n <= |inputs|
  {
    s.buffer == LastN(Range(0, n), Cap(fps)) &&
    match FirstFire(inputs, n)
    case None => IdleInv(inputs, n, s)
    case Some(t) => EpisodeInv(fps, n, t, s) && StopInv(inputs, n, t, s)
  }

  /** How many live frames an episode triggered at frame `t` has written after `n` frames. */
  function Window(fps: nat, t: nat, n: nat): nat
    requires t < n
  {
    Min(n - t, PostFrames(fps))
  }

  /** The clip of an episode triggered at frame `t`, after `n` frames: the most recent
      buffered frames up to and including `t`, then the live frames from `t` on. */
  function EpisodeClip(fps: nat, t: nat, n: nat): seq<int>
    requires t < n
  {
    LastN(Range(0, t + 1), Cap(fps)) + Range(t, t + Window(fps, t, n))
  }

  /** Nothing launched, nothing written: the episode has not started. */
  ghost predicate Quiet(s: State)
  {
    !s.callTriggered && !s.recording && s.afterCounter == 0 &&
    !s.writerCreated && !s.writerOpen && s.clip == [] &&
    s.calls == 0 && s.buzzers == 0 && s.emails == 0 && s.releases == 0
  }

  /** Before the trigger: nothing launched, nothing written, and the buzzer flag is set only
      by a 'q'. */
  ghost predicate IdleInv(inputs: seq<Input>, n: nat, s: State)
    requires n <= |inputs|
  {
    Quiet(s) &&
    (s.stopBuzzer <==> exists j :: 0 <= j < n && inputs[j].key == Q)
  }

  /** After the trigger at frame `t`: one call, one buzzer, one writer; `k` live frames
      written so far, and recording closed once `k` reached the post-trigger window. */
  ghost predicate EpisodeInv(fps: nat, n: nat, t: nat, s: State)
    requires t < n
  {
    s.callTriggered && s.calls == 1 && s.buzzers == 1 && s.writerCreated &&
    s.afterCounter == Window(fps, t, n) && s.recording == (Window(fps, t, n) < PostFrames(fps)) &&
    s.writerOpen == s.recording &&
    s.clip == EpisodeClip(fps, t, n) &&
    s.emails == (if s.recording then 1 else 2) &&
    s.releases == (if s.recording then 0 else 1)
  }

  /** After the trigger at frame `t`, the buzzer flag is set exactly when a key came since. */
  ghost predicate StopInv(inputs: seq<Input>, n: nat, t: nat, s: State)
    requires t <= n <= |inputs|
  {
    s.callTriggered &&
    (s.stopBuzzer <==> exists j :: t <= j < n && inputs[j].key != Other)
  }

  /** Keeping the last `cap` of a history and then appending gives the last `cap` of the
      extended history: the deque always holds the most recent frames. */
  lemma {:induction false} LastNAppend(s: seq<int>, f: int, cap: nat)
    ensures LastN(LastN(s, cap) + [f], cap) == LastN(s + [f], cap)
  {
    if |s| > cap {
      var t := s[|s| - cap..];
      if cap > 0 {
        assert (t + [f])[1..] == (s + [f])[|s| + 1 - cap..];
      } else {
        assert LastN(t + [f], cap) == [];
      }
    }
  }

  lemma RangeSnoc(lo: int, hi: int)
    requires lo <= hi
    ensures Range(lo, hi) + [hi] == Range(lo, hi + 1)
  {
    assert (Range(lo, hi) + [hi])[hi - lo] == hi;
  }

  lemma ClipSnoc(pre: seq<int>, t: int, n: int)
    requires t <= n
    ensures (pre + Range(t, n)) + [n] == pre + Range(t, n + 1)
  {
    RangeSnoc(t, n);
  }

  /** The most recent `c` of the frames `0 .. n - 1`, element by element. */
  lemma LastNRange(n: nat, c: nat)
    ensures |LastN(Range(0, n), c)| == Min(n, c)
    ensures forall k :: 0 <= k < Min(n, c) ==> LastN(Range(0, n), c)[k] == n - Min(n, c) + k
  {
  }

  /** The triggering iteration: the clip is the buffer (trigger frame included) and then
      the trigger frame once more. */
  lemma TriggerStartsEpisode(fps: nat, n: nat, s: State, input: Input)
    requires s.buffer == LastN(Range(0, n), Cap(fps)) && Quiet(s)
    requires Fires(input.detection)
    ensures EpisodeInv(fps, n + 1, n, Step(fps, s, n, input))
  {
    var r := Step(fps, s, n, input);
    RangeSnoc(0, n);
    LastNAppend(Range(0, n), n, Cap(fps));
    assert Window(fps, n, n + 1) == 1;
    assert Range(n, n + 1) == [n];
    assert r.clip == EpisodeClip(fps, n, n + 1);
  }

  /** The triggering iteration re-arms the buzzer flag; only its own key can set it again. */
  lemma TriggerRearmsBuzzer(fps: nat, inputs: seq<Input>, n: nat, s: State)
    requires n < |inputs| && !s.callTriggered && Fires(inputs[n].detection)
    ensures StopInv(inputs, n + 1, n, Step(fps, s, n, inputs[n]))
  {
    if inputs[n].key != Other {
      assert n <= n < n + 1 && inputs[n].key != Other;
    }
  }

  /** A frame that does not fire leaves the episode idle; only a 'q' sets the buzzer flag. */
  lemma QuietStepStaysIdle(fps: nat, inputs: seq<Input>, n: nat, s: State)
    requires n < |inputs|
    requires IdleInv(inputs, n, s) && !Fires(inputs[n].detection)
    requires forall j :: 0 <= j < n ==> inputs[j].key != Q
    ensures IdleInv(inputs, n + 1, Step(fps, s, n, inputs[n]))
  {
    assert !s.stopBuzzer;
    if inputs[n].key == Q {
      assert 0 <= n < n + 1 && inputs[n].key == Q;
    }
  }

  /** The layout of an episode's clip: buffered frames up to `t`, then live frames from `t`. */
  lemma ClipLayout(fps: nat, t: nat, n: nat, c: seq<int>)
    requires t < n && c == EpisodeClip(fps, t, n)
    ensures var pre := Min(t + 1, Cap(fps));
      |c| == pre + Min(n - t, PostFrames(fps)) && c[pre] == t &&
      (fps >= 1 ==> c[pre - 1] == t) &&
      forall k :: 0 <= k < pre ==> c[k] == t + 1 - pre + k
  {
    LastNRange(t + 1, Cap(fps));
  }

  /** One iteration before the trigger keeps the invariant. */
  lemma StepKeepsInvIdle(fps: nat, inputs: seq<Input>, n: nat, s: State)
    requires n < |inputs|
    requires Inv(fps, inputs, n, s) && FirstFire(inputs, n).None?
    requires forall j :: 0 <= j < n ==> inputs[j].key != Q
    ensures Inv(fps, inputs, n + 1, Step(fps, s, n, inputs[n]))
  {
    RangeSnoc(0, n);
    LastNAppend(Range(0, n), n, Cap(fps));
    if Fires(inputs[n].detection) {
      assert FirstFire(inputs, n + 1) == Some(n);
      TriggerStartsEpisode(fps, n, s, inputs[n]);
      TriggerRearmsBuzzer(fps, inputs, n, s);
    } else {
      assert FirstFire(inputs, n + 1) == None;
      QuietStepStaysIdle(fps, inputs, n, s);
    }
  }

  /** After the trigger the buzzer flag is set exactly when some key came at or after it. */
  lemma StepKeepsStopInv(fps: nat, inputs: seq<Input>, n: nat, s: State, t: nat)
    requires t <= n < |inputs|
    requires StopInv(inputs, n, t, s)
    ensures StopInv(inputs, n + 1, t, Step(fps, s, n, inputs[n]))
  {
    if inputs[n].key != Other {
      assert t <= n < n + 1 && inputs[n].key != Other;
    }
    if s.stopBuzzer {
      var j :| t <= j < n && inputs[j].key != Other;
      assert t <= j < n + 1;
    }
  }

  /** One iteration while recording writes the live frame and counts it. */
  lemma StepKeepsEpisodeInvRecording(fps: nat, n: nat, t: nat, s: State, input: Input)
    requires t < n
    requires EpisodeInv(fps, n, t, s) && s.recording
    ensures EpisodeInv(fps, n + 1, t, Step(fps, s, n, input))
  {
    var r := Step(fps, s, n, input);
    assert Window(fps, t, n + 1) == Window(fps, t, n) + 1 == r.afterCounter;
    ClipSnoc(LastN(Range(0, t + 1), Cap(fps)), t, n);
    assert r.clip == EpisodeClip(fps, t, n + 1);
  }

  /** One iteration after the recording closed changes nothing of the episode. */
  lemma StepKeepsEpisodeInvClosed(fps: nat, n: nat, t: nat, s: State, input: Input)
    requires t < n
    requires EpisodeInv(fps, n, t, s) && !s.recording
    ensures EpisodeInv(fps, n + 1, t, Step(fps, s, n, input))
  {
  }

  /** One iteration after the trigger keeps the invariant. */
  lemma StepKeepsInvTriggered(fps: nat, inputs: seq<Input>, n: nat, s: State, t: nat)
    requires n < |inputs|
    requires Inv(fps, inputs, n, s) && FirstFire(inputs, n) == Some(t)
    ensures Inv(fps, inputs, n + 1, Step(fps, s, n, inputs[n]))
  {
    RangeSnoc(0, n);
    LastNAppend(Range(0, n), n, Cap(fps));
    assert FirstFire(inputs, n + 1) == Some(t);
    if s.recording {
      StepKeepsEpisodeInvRecording(fps, n, t, s, inputs[n]);
    } else {
      StepKeepsEpisodeInvClosed(fps, n, t, s, inputs[n]);
    }
    StepKeepsStopInv(fps, inputs, n, s, t);
  }

  /** One iteration keeps the invariant. */
  lemma StepKeepsInv(fps: nat, inputs: seq<Input>, n: nat, s: State)
    requires n < |inputs|
    requires Inv(fps, inputs, n, s)
    requires forall j :: 0 <= j < n ==> inputs[j].key != Q
    ensures Inv(fps, inputs, n + 1, Step(fps, s, n, inputs[n]))
  {
    match FirstFire(inputs, n)
    case None => StepKeepsInvIdle(fps, inputs, n, s);
    case Some(t) => StepKeepsInvTriggered(fps, inputs, n, s, t);
  }

  /** Without a 'q' the loop reads every frame. */
  lemma ProcessedAll(inputs: seq<Input>)
    requires forall j :: 0 <= j < |inputs| ==> inputs[j].key != Q
    ensures Processed(inputs) == |inputs|
  {
  }

  /** The first 'q' at frame `i` ends the loop after `i + 1` frames. */
  lemma ProcessedStopsAtQuit(inputs: seq<Input>, i: nat)
    requires i < |inputs| && inputs[i].key == Q
    requires forall j :: 0 <= j < i ==> inputs[j].key != Q
    ensures Processed(inputs) == i + 1
  {
  }

  /** The loop keeps the invariant up to the frame it stops after. */
  lemma {:induction false} LoopKeepsInv(fps: nat, inputs: seq<Input>, i: nat, s: State)
    requires i <= |inputs|
    requires Inv(fps, inputs, i, s)
    requires forall j :: 0 <= j < i ==> inputs[j].key != Q
    ensures Inv(fps, inputs, Processed(inputs), Loop(fps, s, inputs, i))
    decreases |inputs| - i
  {
    if i == |inputs| {
      ProcessedAll(inputs);
    } else {
      StepKeepsInv(fps, inputs, i, s);
      if inputs[i].key == Q {
        ProcessedStopsAtQuit(inputs, i);
      } else {
        LoopKeepsInv(fps, inputs, i + 1, Step(fps, s, i, inputs[i]));
      }
    }
  }

  /** The loop state at exit satisfies the invariant for the number of frames it read. */
  lemma RunInv(fps: nat, inputs: seq<Input>)
    ensures Inv(fps, inputs, Processed(inputs), Loop(fps, Init(), inputs, 0))
    ensures Run(fps, inputs) == Cleanup(Loop(fps, Init(), inputs, 0))
  {
    assert Range(0, 0) == [];
    LoopKeepsInv(fps, inputs, 0, Init());
  }

  /** A run without a trigger: nothing launched, nothing written. */
  lemma RunIdle(fps: nat, inputs: seq<Input>)
    requires FirstFire(inputs, Processed(inputs)).None?
    ensures var r := Run(fps, inputs);
      Quiet(r) &&
      (r.stopBuzzer <==> exists j :: 0 <= j < Processed(inputs) && inputs[j].key == Q)
  {
    RunInv(fps, inputs);
    var l := Loop(fps, Init(), inputs, 0);
    assert IdleInv(inputs, Processed(inputs), l);
  }

  /** A run whose trigger fired at frame `t`, in closed form. */
  lemma RunTriggered(fps: nat, inputs: seq<Input>, t: nat)
    requires FirstFire(inputs, Processed(inputs)) == Some(t)
    ensures var r := Run(fps, inputs); var m := Processed(inputs);
      t < m && r.callTriggered && r.calls == 1 && r.buzzers == 1 &&
      r.writerCreated && !r.writerOpen &&
      r.clip == EpisodeClip(fps, t, m) &&
      r.emails == (if m - t < PostFrames(fps) then 1 else 2) &&
      r.releases == (if m - t < PostFrames(fps) then 1 else 2) &&
      (r.stopBuzzer <==> exists j :: t <= j < m && inputs[j].key != Other)
  {
    RunInv(fps, inputs);
    var m := Processed(inputs);
    var l := Loop(fps, Init(), inputs, 0);
    assert EpisodeInv(fps, m, t, l) && StopInv(inputs, m, t, l);
  }

  /** At exit the buffer holds the most recent `fps * buffer_seconds` frames, in acquisition
      order. */
  lemma RunBuffer(fps: nat, inputs: seq<Input>)
    ensures var r := Run(fps, inputs); var m := Processed(inputs);
      |r.buffer| == Min(m, Cap(fps)) &&
      forall k :: 0 <= k < |r.buffer| ==> r.buffer[k] == m - |r.buffer| + k
  {
    RunInv(fps, inputs);
    var l := Loop(fps, Init(), inputs, 0);
    assert l.buffer == LastN(Range(0, Processed(inputs)), Cap(fps));
    assert Run(fps, inputs).buffer == l.buffer;
    LastNRange(Processed(inputs), Cap(fps));
  }

  /** The call and the buzzer are launched at most once per run, and exactly when some frame
      read before the loop stopped is labelled `Accident` with at least 98.00 %. */
  lemma RunCallsOnce(fps: nat, inputs: seq<Input>)
    ensures var r := Run(fps, inputs);
      r.calls <= 1 && r.buzzers == r.calls &&
      (r.calls == 1 <==>
        exists j :: 0 <= j < Processed(inputs) &&
          inputs[j].detection.isAccident && inputs[j].detection.pctHundredths >= 9800)
  {
    var m := Processed(inputs);
    match FirstFire(inputs, m)
    case None => RunIdle(fps, inputs);
    case Some(t) =>
      RunTriggered(fps, inputs, t);
      assert Fires(inputs[t].detection);
  }

  /** The clip: empty without a trigger; otherwise the buffer as it stood after the trigger
      frame `t` (its most recent `fps * buffer_seconds` frames, `t` included) followed by the
      live frames from `t` on, `fps * after_seconds` of them unless the loop stopped first. */
  lemma RunClip(fps: nat, inputs: seq<Input>)
    ensures var r := Run(fps, inputs); var m := Processed(inputs);
      match FirstFire(inputs, m)
      case None => r.clip == [] && !r.writerCreated
      case Some(t) =>
        r.writerCreated &&
        r.clip == EpisodeClip(fps, t, m)
  {
    match FirstFire(inputs, Processed(inputs))
    case None => RunIdle(fps, inputs);
    case Some(t) => RunTriggered(fps, inputs, t);
  }

  /** The clip length is `min(t + 1, fps * buffer_seconds) + min(frames left, post window)`;
      with a non-empty buffer the trigger frame ends the buffered part and starts the live
      part, so it is written twice. */
  lemma RunClipLength(fps: nat, inputs: seq<Input>, t: nat)
    requires FirstFire(inputs, Processed(inputs)) == Some(t)
    ensures var c := Run(fps, inputs).clip; var pre := Min(t + 1, Cap(fps));
      |c| == pre + Min(Processed(inputs) - t, PostFrames(fps)) && c[pre] == t &&
      (fps >= 1 ==> c[pre - 1] == t) &&
      forall k :: 0 <= k < pre ==> c[k] == t + 1 - pre + k
  {
    RunTriggered(fps, inputs, t);
    ClipLayout(fps, t, Processed(inputs), Run(fps, inputs).clip);
  }

  /** One email at the trigger, and a second exactly when the post-trigger window completed;
      none at exit, even when the loop stopped mid-recording. */
  lemma RunEmails(fps: nat, inputs: seq<Input>)
    ensures var r := Run(fps, inputs); var m := Processed(inputs);
      match FirstFire(inputs, m)
      case None => r.emails == 0
      case Some(t) => r.emails == if m - t >= PostFrames(fps) then 2 else 1
  {
    match FirstFire(inputs, Processed(inputs))
    case None => RunIdle(fps, inputs);
    case Some(t) => RunTriggered(fps, inputs, t);
  }

  /** At exit no writer is left open. A writer exists exactly when the trigger fired; it is
      released once at exit, and once more before that if the recording completed. */
  lemma RunWriterReleased(fps: nat, inputs: seq<Input>)
    ensures var r := Run(fps, inputs); var m := Processed(inputs);
      !r.writerOpen &&
      match FirstFire(inputs, m)
      case None => !r.writerCreated && r.releases == 0
      case Some(t) => r.writerCreated && r.releases == if m - t >= PostFrames(fps) then 2 else 1
  {
    match FirstFire(inputs, Processed(inputs))
    case None => RunIdle(fps, inputs);
    case Some(t) => RunTriggered(fps, inputs, t);
  }

  /** At exit the buzzer flag is set exactly when the loop ended on 'q', or some key 's' came
      at or after the trigger frame; an 's' before the trigger has no effect. */
  lemma RunCancelFlag(fps: nat, inputs: seq<Input>)
    ensures var r := Run(fps, inputs); var m := Processed(inputs);
      r.stopBuzzer <==>
        (0 < m && inputs[m - 1].key == Q) ||
        (FirstFire(inputs, m).Some? &&
         exists j :: FirstFire(inputs, m).value <= j < m && inputs[j].key == S)
  {
    var m := Processed(inputs);
    match FirstFire(inputs, m)
    case None =>
      RunIdle(fps, inputs);
      QuitOnlyLast(inputs, m);
    case Some(t) =>
      RunTriggered(fps, inputs, t);
      KeysSinceTrigger(inputs, m, t);
  }

  /** Among the frames read, only the last can carry a 'q'. */
  lemma QuitOnlyLast(inputs: seq<Input>, m: nat)
    requires m <= |inputs|
    requires forall j :: 0 <= j < m - 1 ==> inputs[j].key != Q
    ensures (exists j :: 0 <= j < m && inputs[j].key == Q) <==> (0 < m && inputs[m - 1].key == Q)
  {
    if exists j :: 0 <= j < m && inputs[j].key == Q {
      var j :| 0 <= j < m && inputs[j].key == Q;
      assert j == m - 1;
    }
  }

  /** A key since the trigger is either the final 'q' or an 's'. */
  lemma KeysSinceTrigger(inputs: seq<Input>, m: nat, t: nat)
    requires t < m <= |inputs|
    requires forall j :: 0 <= j < m - 1 ==> inputs[j].key != Q
    ensures (exists j :: t <= j < m && inputs[j].key != Other) <==>
            (inputs[m - 1].key == Q || exists j :: t <= j < m && inputs[j].key == S)
  {
    if exists j :: t <= j < m && inputs[j].key != Other {
      var j :| t <= j < m && inputs[j].key != Other;
      if inputs[j].key == Q {
        assert j == m - 1;
      }
    }
    if inputs[m - 1].key == Q {
      assert t <= m - 1 < m && inputs[m - 1].key != Other;
    }
    if exists j :: t <= j < m && inputs[j].key == S {
      var j :| t <= j < m && inputs[j].key == S;
      assert inputs[j].key != Other;
    }
  }

  /** The "Press 'S' to stop buzzer" hint on frame `j`, drawn after the recording phase and
      before the key is read: it shows exactly when the trigger fired at some frame `t <= j`
      and no key 'q' or 's' came from `t` up to (not including) `j`. `Inv` holds of the state
      the loop has before frame `j` (`LoopKeepsInv`). */
  lemma HintShows(fps: nat, inputs: seq<Input>, j: nat, s: State)
    requires j < |inputs| && Inv(fps, inputs, j, s)
    ensures ShowsHint(AfterFrame(fps, s, j, inputs[j].detection)) <==>
      match FirstFire(inputs, j + 1)
      case None => false
      case Some(t) => forall k :: t <= k < j ==> inputs[k].key == Other
  {
    match FirstFire(inputs, j)
    case None =>
      if Fires(inputs[j].detection) {
        assert FirstFire(inputs, j + 1) == Some(j);
      } else {
        assert FirstFire(inputs, j + 1) == None;
      }
    case Some(t) =>
      assert FirstFire(inputs, j + 1) == Some(t);
  }

  /** A stream on which the classifier never reaches the threshold: no writer is ever
      opened and no alert is launched. */
  lemma NeverFiresNoEffects(fps: nat, inputs: seq<Input>)
    requires forall j :: 0 <= j < |inputs| ==>
               !(inputs[j].detection.isAccident && inputs[j].detection.pctHundredths >= 9800)
    ensures var r := Run(fps, inputs);
      r.calls == 0 && r.buzzers == 0 && r.emails == 0 && !r.writerCreated &&
      r.releases == 0 && r.clip == []
  {
    RunIdle(fps, inputs);
  }

  /** A score of exactly 98.00 % on an `Accident` frame triggers; 97.99 % does not, and a
      `NoAccident` frame never does, whatever its score. */
  lemma ThresholdInclusive(fps: nat, key: Key)
    ensures Run(fps, [Input(Detection(true, 9800), key)]).calls == 1
    ensures Run(fps, [Input(Detection(true, 9799), key)]).calls == 0
    ensures Run(fps, [Input(Detection(false, 10000), key)]).calls == 0
  {
    RunCallsOnce(fps, [Input(Detection(true, 9800), key)]);
    RunCallsOnce(fps, [Input(Detection(true, 9799), key)]);
    RunCallsOnce(fps, [Input(Detection(false, 10000), key)]);
  }

  /** A 30 fps stream of 150 frames whose frame 60 alone is `Accident` at 99 %. */
  function ScenarioInputs(): seq<Input>
  {
    seq(150, i => Input(Detection(i == 60, if i == 60 then 9900 else 0), Other))
  }

  /** When frame `t` is the only firing frame, it is the first. */
  lemma OnlyFireIsFirst(inputs: seq<Input>, n: nat, t: nat)
    requires t < n <= |inputs| && Fires(inputs[t].detection)
    requires forall j :: 0 <= j < n && j != t ==> !Fires(inputs[j].detection)
    ensures FirstFire(inputs, n) == Some(t)
  {
  }

  /** On that stream the trigger fires at frame 60; the clip is the 60 buffered frames 1 to 60
      (frame 0 was evicted, frame 60 is the last buffered one) followed by the 90 live frames
      60 to 149, so 150 frames in all; one call and both emails. */
  lemma ThirtyFpsScenario()
    ensures var r := Run(30, ScenarioInputs());
      r.calls == 1 && r.emails == 2 && !r.writerOpen &&
      |r.clip| == 150 && r.clip == Range(1, 61) + Range(60, 150)
  {
    var inputs := ScenarioInputs();
    ProcessedAll(inputs);
    OnlyFireIsFirst(inputs, 150, 60);
    RunTriggered(30, inputs, 60);
    ScenarioClip();
  }

  /** At 30 fps, the clip of an episode triggered at frame 60 after 150 frames. */
  lemma ScenarioClip()
    ensures EpisodeClip(30, 60, 150) == Range(1, 61) + Range(60, 150)
  {
    assert Window(30, 60, 150) == 90;
    assert LastN(Range(0, 61), 60) == Range(1, 61);
  }
}
