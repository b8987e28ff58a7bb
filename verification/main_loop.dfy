/**
 * The application's main loop: while running, drain the frame's events,
 * then draw the frame from the updated state. Presenting the frame and
 * pacing it to the frame rate have no observable effect on the state.
 */
module MainLoop {
  import opened Config
  import opened Launcher
  import opened Render
  import opened LauncherProps

  /** The state after applying the given frames' event batches one frame after another. */
  function ApplyFrames(s: AppState, frames: seq<seq<Event>>): (r: AppState)
    requires Valid(s)
    ensures Valid(r)
    decreases |frames|
  {
    if |frames| == 0 then s
    else ApplyEvents(ApplyFrames(s, frames[..|frames| - 1]), frames[|frames| - 1])
  }

  /** All the events of a sequence of frames, in arrival order. */
  function Flatten(frames: seq<seq<Event>>): seq<Event>
    decreases |frames|
  {
    if |frames| == 0 then [] else Flatten(frames[..|frames| - 1]) + frames[|frames| - 1]
  }

  /**
   * Frame boundaries do not matter to the state: applying the batches frame
   * by frame gives the same state as applying all their events as one batch.
   */
  lemma {:induction false} ApplyFramesFlatten(s: AppState, frames: seq<seq<Event>>)
    requires Valid(s)
    ensures ApplyFrames(s, frames) == ApplyEvents(s, Flatten(frames))
    decreases |frames|
  {
    if |frames| > 0 {
      var init := frames[..|frames| - 1];
      ApplyFramesFlatten(s, init);
      ApplyEventsAppend(s, Flatten(init), frames[|frames| - 1]);
    }
  }

  /** One more frame applies its batch to the state the earlier frames left. */
  lemma ApplyFramesSnoc(s: AppState, frames: seq<seq<Event>>, i: nat)
    requires Valid(s) && i < |frames|
    ensures ApplyFrames(s, frames[..i + 1]) == ApplyEvents(ApplyFrames(s, frames[..i]), frames[i])
  {
    assert frames[..i + 1][..i] == frames[..i];
  }

  /** After a sequence of frames the launcher is running exactly when it was and no frame held a Quit. */
  lemma RunningAfterFrames(s: AppState, frames: seq<seq<Event>>)
    requires Valid(s)
    ensures ApplyFrames(s, frames).running <==> s.running && Quit !in Flatten(frames)
  {
    ApplyFramesFlatten(s, frames);
    RunningAfterBatch(s, Flatten(frames));
  }

  /** The frames drawn while handling the given batches, one after each batch. */
  function Trace(s: AppState, frames: seq<seq<Event>>): (r: seq<seq<DrawOp>>)
    requires Valid(s)
    ensures |r| == |frames|
    decreases |frames|
  {
    if |frames| == 0 then []
    else Trace(s, frames[..|frames| - 1]) + [Draw(ApplyFrames(s, frames))]
  }

  /** Frame k of the trace of the first n batches is drawn from the state after batches 0..k. */
  lemma {:induction false} TraceFrame(s: AppState, frames: seq<seq<Event>>, n: nat, k: nat)
    requires Valid(s) && k < n <= |frames|
    ensures Trace(s, frames[..n])[k] == Draw(ApplyFrames(s, frames[..k + 1]))
    decreases n
  {
    var init := frames[..n - 1];
    assert frames[..n][..n - 1] == init;
    var last := Draw(ApplyFrames(s, frames[..n]));
    assert Trace(s, frames[..n]) == Trace(s, init) + [last];
    if k < n - 1 {
      TraceFrame(s, frames, n - 1, k);
      assert (Trace(s, init) + [last])[k] == Trace(s, init)[k];
    } else {
      assert (Trace(s, init) + [last])[k] == last;
    }
  }

  /**
   * Runs the loop over the event batches the platform delivers, one batch
   * per frame, and returns the final state and every frame drawn. Each frame
   * is drawn from the state after its batch. The running flag is tested
   * before each frame, so the frame in which a Quit arrives is still drawn,
   * and it is the last one.
   */
  method Run(s: AppState, frames: seq<seq<Event>>) returns (t: AppState, drawn: seq<seq<DrawOp>>)
    requires Valid(s)
    ensures |drawn| <= |frames|
    ensures t == ApplyFrames(s, frames[..|drawn|])
    ensures forall k :: 0 <= k < |drawn| ==> drawn[k] == Draw(ApplyFrames(s, frames[..k + 1]))
    ensures |drawn| < |frames| ==> !t.running
    ensures t.running <==> s.running && Quit !in Flatten(frames[..|drawn|])
    ensures |drawn| > 0 ==> s.running && Quit !in Flatten(frames[..|drawn| - 1])
    ensures s.running && |frames| > 0 ==> |drawn| > 0
    ensures !s.running ==> t == s && drawn == []
    ensures |drawn| > 0 ==> drawn[|drawn| - 1] == Draw(t)
  {
    t := s;
    drawn := [];
    var n := 0;
    while t.running && n < |frames|
      invariant n <= |frames|
      invariant t == ApplyFrames(s, frames[..n])
      invariant drawn == Trace(s, frames[..n])
      invariant n > 0 ==> ApplyFrames(s, frames[..n - 1]).running
      decreases |frames| - n
    {
      ApplyFramesSnoc(s, frames, n);
      assert frames[..n + 1][..n] == frames[..n];
      t := HandleEvents(t, frames[n]);
      drawn := drawn + [Draw(t)];
      n := n + 1;
    }
    forall k | 0 <= k < n
      ensures drawn[k] == Draw(ApplyFrames(s, frames[..k + 1]))
    {
      TraceFrame(s, frames, n, k);
    }
    RunningAfterFrames(s, frames[..n]);
    if n > 0 {
      RunningAfterFrames(s, frames[..n - 1]);
    }
  }
}
