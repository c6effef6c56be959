# Accident-episode pipeline of the accident detection camera loop

This project models the frame loop of `startapplication` in `camera.py`. The loop reads a
video stream frame by frame and keeps a bounded look-back buffer of recent frames. It asks a
classifier about each frame. The first time a frame is labelled `Accident` with at least
98 % confidence, it does the following:

- places an emergency call;
- starts a buzzer;
- opens a clip writer and drains the buffer into it;
- records a fixed number of live frames after the trigger;
- sends the clip by email twice: once at the trigger and once when the recording closes.

Key `q` stops the run and key `s` silences the buzzer. At exit the writer is released if one
was ever created.

The model is in three modules:

- `Episode` (`episode.dfy`) holds the loop state as a value, `State`, and one loop iteration
  as the composition of the phases the source runs in order. Those phases are `Buffered`
  (append to the deque), `Detected` (the trigger), `Recorded` (the post-trigger window),
  `ShowsHint` (the overlay) and `Keyed` (the key). On top of them it defines the whole loop
  `Loop`, the exit cleanup `Cleanup` and a run `Run`.
- `EpisodeProofs` (`properties.dfy`) proves the whole-run properties from a single
  invariant, `Inv`. `Inv` gives the state after the first `n` frames in closed form.
- `Camera` (`camera.dfy`) is the imperative form. A `Pipeline` object holds the loop's locals
  and the global `stop_buzzer` as fields. Its methods update those fields in place, and each
  method is proved equal to the matching `Episode` function. `StartApplication` is the entry
  point.

Abstractions:

- A frame is its 0-based acquisition index.
- The classifier's result for a frame is a `Detection(isAccident, pctHundredths)`. The
  rounded percentage is kept in integer hundredths, so the threshold `98.0` becomes `9800`.
- A key is `Q`, `S` or `Other`. `Other` also stands for "no key".
- The input is the finite sequence of `(detection, key)` pairs for the frames the capture
  yields. The end of the sequence is `cap.read()` failing.
- `make_call`, the buzzer thread, `send_email` and `video_writer.release()` are counted, not
  performed. The clip file is the sequence of frames written to it.

Behaviour kept as the code has it:

- The rate is `int(cap.get(...))` and is never checked. With a rate of 0 the deque has
  `maxlen` 0 and keeps nothing. The recording then closes after one live frame, because the
  counter is already 1 when it is first compared with `0 * after_seconds`.
- The trigger frame is appended to the buffer before the trigger test. So it is the last
  buffered frame written into the clip, and the recording branch of the same iteration writes
  it again as the first live frame.
- For 30 fps, 150 frames and a trigger at frame 60, the clip holds buffered frames 1–60 and
  then live frames 60–149. Frame 0 has already been evicted.
- When the stream ends or `q` is pressed while recording, no second email is sent. The
  cleanup only releases the writer.
- When the recording completed, the writer is released twice: once when the recording
  closes and once in the exit cleanup.
- A classifier score of exactly 98.00 % triggers.

## Model

| member | source | states |
|---|---|---|
| `Episode.Append` | camera.py:117 | appending to the deque with `maxlen = cap` gives the last `cap` frames of the old contents plus the new frame, and never more than `cap` |
| `Episode.PostFrames` | camera.py:148-151 | the number of live frames written before recording closes is at least 1 and at least `fps * after_seconds`; it equals the latter when `fps >= 1` and is 1 when `fps == 0` |
| `Episode.Fires` | camera.py:123-127 | the trigger test apart from the `call_triggered` guard: label `Accident` and rounded percentage `>= 98.00` |
| `Episode.Init` | camera.py:101-109 | the loop's locals before the first frame: empty buffer, no trigger, no recording, counter 0, no writer, `stop_buzzer` false, nothing launched |
| `Episode.Buffered` | camera.py:117 | only the buffer changes, to the last `fps * buffer_seconds` frames of the old buffer plus the new one |
| `Episode.Detected` | camera.py:123-145 | a state that has already triggered is left as it is; otherwise the state triggers iff the frame fires, and then exactly one call and one buzzer are launched, `stop_buzzer` is re-armed, a writer is created and opened with the buffer as its contents, recording starts at counter 0 and one email is sent, the buffer unchanged |
| `Episode.Recorded` | camera.py:148-155 | without recording nothing changes; while recording the frame is appended and counted, recording stops iff the counter reached `fps * after_seconds`, and only then is the writer released and the second email sent; buffer, trigger flag, `stop_buzzer` and call counts are untouched |
| `Episode.ShowsHint` | camera.py:158 | the hint is drawn iff `call_triggered and not stop_buzzer` |
| `Episode.Keyed` | camera.py:163-169 | only `stop_buzzer` changes; it ends set iff it was set, or the key is `q`, or the key is `s` after a trigger |
| `Episode.Loop` | camera.py:111-169 | over any stretch of the loop the trigger flag never clears, the call and the buzzer are launched at most once (exactly once iff the flag went from false to true), and a writer is open only if one was created |

| `Episode.Step` | camera.py:111-169 | one iteration: the buffer becomes the last `cap` frames of old buffer plus frame; a call and a buzzer are launched only from an untriggered state on a firing frame; on that frame the clip becomes the new buffer followed by the frame again; while recording the frame is appended to the clip; once recording has closed nothing of clip, writer, calls or emails changes; `stop_buzzer` is set by `q`, by `s` after a trigger, cleared by a new trigger, and kept otherwise |
| `Episode.Cleanup` | camera.py:171-173 | on a state where an open writer was created, the exit cleanup leaves no writer open, releases once more exactly when a writer was created, and changes neither the clip nor the alert counts |
| `Episode.Run` | camera.py:101-174 | a whole run on an opened capture leaves no writer open and launches at most one call, with as many buzzers as calls, and a call iff the trigger fired |
| `Episode.Processed` | camera.py:111-166 | the loop reads every frame up to and including the first `q`, or all of them when there is no `q` |
| `Episode.FirstFire` | camera.py:123-127 | the first frame labelled `Accident` with at least 98.00 %, and no earlier frame is one |
| `EpisodeProofs.LastNAppend` | camera.py:103-117 | keeping the last `cap` frames and then appending one equals the last `cap` frames of the extended history |
| `EpisodeProofs.StepKeepsInv` | camera.py:111-169 | one iteration keeps the closed-form description of the state after `n` frames |
| `EpisodeProofs.LoopKeepsInv` | camera.py:111-169 | the loop keeps that description up to the frame it stops after |
| `EpisodeProofs.RunBuffer` | camera.py:103-117 | at exit the buffer holds `min(frames read, fps * buffer_seconds)` frames, namely the most recent ones in acquisition order |
| `EpisodeProofs.RunCallsOnce` | camera.py:123-143 | the call and the buzzer are launched at most once per run, and exactly when some frame read is labelled `Accident` with a percentage `>= 98.00` |
| `EpisodeProofs.RunClip` | camera.py:133-152 | without a trigger no writer exists and the clip is empty; with a trigger at frame `t` the clip is the most recent `fps * buffer_seconds` frames up to and including `t`, followed by the live frames `t, t + 1, ...`, as many as the post-trigger window or the frames left allow |
| `EpisodeProofs.RunClipLength` | camera.py:117-153 | when the first firing frame read is `t`, the clip length is `min(t + 1, fps * buffer_seconds) + min(frames read - t, post window)`; the live part starts with `t`, and with `fps >= 1` the buffered part ends with `t`, so the trigger frame is written twice |
| `EpisodeProofs.RunEmails` | camera.py:145-155 | no email without a trigger; otherwise one at the trigger and a second exactly when the post-trigger window completed, and none at exit |
| `EpisodeProofs.RunWriterReleased` | camera.py:148-173 | no writer is left open at exit; a writer exists exactly when the trigger fired, and it is released twice if the recording completed and once otherwise |
| `EpisodeProofs.HintShows` | camera.py:157-159 | on frame `j` the hint shows iff the first firing frame `t` is at most `j` and no `q` or `s` came in frames `t .. j - 1` |
| `EpisodeProofs.RunCancelFlag` | camera.py:129-168 | at exit `stop_buzzer` is set exactly when the loop ended on `q` or some `s` came at or after the trigger frame; an `s` before the trigger has no effect |
| `EpisodeProofs.NeverFiresNoEffects` | camera.py:123-143 | on a stream where no frame reaches the threshold, no call, buzzer, email, writer or clip frame happens |
| `EpisodeProofs.ThresholdInclusive` | camera.py:123-127 | an `Accident` frame at exactly 98.00 % triggers; 97.99 % and a `NoAccident` frame at 100 % do not |
| `EpisodeProofs.ThirtyFpsScenario` | camera.py:101-155 | at 30 fps with only frame 60 of 150 firing, the clip is frames 1–60 then 60–149 (150 frames), with one call and two emails |
| `Camera.Pipeline.constructor` | camera.py:101-109 | the loop's locals start as the source initialises them, with `stop_buzzer` false |
| `Camera.Pipeline.Step` | camera.py:111-169 | one iteration updates the fields exactly as `Episode.Step`; the hint is shown iff `call_triggered and not stop_buzzer` after the recording phase; `quit` iff the key is `q` |
| `Camera.Pipeline.BufferFrame` | camera.py:117 | the deque append, in place, keeps the deque within its `maxlen` |
| `Camera.Pipeline.CheckTrigger` | camera.py:123-145 | the trigger branch, with the buffered frames drained into the clip in order by a loop |
| `Camera.Pipeline.RecordFrame` | camera.py:148-155 | the post-trigger recording step |
| `Camera.Pipeline.HandleKey` | camera.py:163-169 | `q` sets `stop_buzzer` and ends the loop; `s` sets it only after a trigger |
| `Camera.Pipeline.Run` | camera.py:111-173 | the loop until the input ends or `q`, then the cleanup, leaves the fields equal to `Cleanup(Loop(...))` of the starting state |
| `Camera.Pipeline.ReadFrames` | camera.py:111-169 | a `while` loop over the frames read, stopping at the end of the input or after the `q` frame, leaves the fields equal to `Loop(...)` of the starting state and keeps the deque within its `maxlen` and no writer open that was not created |
| `Camera.Pipeline.ReleaseWriter` | camera.py:172-173 | the exit cleanup, in place, leaves the fields equal to `Cleanup` of the old state |
| `Camera.Drain` | camera.py:137-138 | writing every buffered frame to the fresh writer yields exactly the buffer, oldest first |
| `Camera.StartApplication` | camera.py:89-174 | nothing happens when the capture cannot be opened; otherwise the final state is `Episode.Run` of the rate and the inputs |

## Left out

- Video capture, resizing, colour conversion, `putText`, `imshow`, `waitKey` and its delay, and `destroyAllWindows` are I/O. They are replaced by the input sequence, and the overlay by the boolean `hint`.
- The classifier `predict_accident` and the floating-point `round(prob * 100, 2)` are left out: the detection is an input, with the percentage already in hundredths.
- `make_call` (Twilio), `send_email` (SMTP and reading the clip file) and `play_buzzer` (a timed daemon thread that synthesises a sine tone) are left out. Each is a counter of invocations. So the model does not capture the buzzer's 300 s ceiling or its reaction to `stop_buzzer` at interval boundaries. Nor does it capture that the first email reads a clip file that is still being written.
- Loading the environment and credentials and constructing the clients are left out.
- The rate is a `nat`. A negative reported rate, for which `deque` raises `ValueError`, is not modelled.
- The pixels of a frame and the `frame.copy()` that protects buffered frames from the overlay drawing are left out: a frame is its index, which is already a value.
- Writer open, write and release failures are not modelled; OpenCV reports them without raising.
- Camera.StartApplication: the counters assume that `make_call` and the blocking `send_email` of camera.py:155 return. In the source an exception from `client.calls.create` (camera.py:128, no handler) or from opening the clip file (camera.py:61, outside the `try` at camera.py:67-73) ends `startapplication` without the cleanup at camera.py:171-174, so on such a run the final state is not `Episode.Run`. The threaded `send_email` of camera.py:145 fails only in its own thread.
- `stop_buzzer` is a module global. A second call of `startapplication` in the same process would start with the previous value. The model starts every run with the value `False` that the module sets.
