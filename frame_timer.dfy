/** The frame-timing state machine behind the FPS overlay, as values: the
    frame counter and the time of the last sample, one step per rendered
    frame, and a trace of steps over a sequence of clock readings. */
module FrameTimer {
  import opened Options

  /** The counter is an `unsigned int`: 32 bits, wrapping around. */
  const UintModulus: nat := 0x1_0000_0000

  type Uint32 = n: nat | n < UintModulus

  /** A sample is published once at least this many seconds have elapsed. */
  const SampleInterval: real := 1.0

  /** Frames counted since the last sample, and the clock reading of that sample. */
  datatype Timer = Timer(frames: Uint32, lastTime: real)

  /** One counted frame: the next timer state and, when the frame closes a
      sample, the count that is published. */
  datatype Frame = Frame(next: Timer, published: Option<nat>)

  /** `++` on the 32-bit counter: the largest value wraps around to 0. */
  function Increment(n: Uint32): (r: Uint32)
    ensures r == (n + 1) % UintModulus
  {
    if n + 1 == UintModulus then 0 else n + 1
  }

  /** One frame at clock reading `now`: count it, then close the sample if a
      second or more has elapsed since the last one. */
  function ShowFpsStep(t: Timer, now: real): Frame {
    var counted := Increment(t.frames);
    if now - t.lastTime >= SampleInterval then Frame(Timer(0, now), Some(counted))
    else Frame(Timer(counted, t.lastTime), None)
  }

  /** A published sample: how many frames it counted, when it started and
      ended, and the index of the frame that closed it. */
  datatype Sample = Sample(frames: nat, start: real, end: real, call: nat)

  /** The timer after a run of frames, and the samples published on the way. */
  datatype Trace = Trace(final: Timer, samples: seq<Sample>)

  /** `before` followed by one more frame, the `call`-th, at reading `now`. */
  function Extend(before: Trace, now: real, call: nat): Trace {
    var f := ShowFpsStep(before.final, now);
    var published := if f.published.Some?
      then [Sample(f.published.value, before.final.lastTime, now, call)]
      else [];
    Trace(f.next, before.samples + published)
  }

  /** The run of `|clock|` frames, the i-th at clock reading `clock[i]`. */
  function Run(t: Timer, clock: seq<real>): Trace
    decreases |clock|
  {
    if clock == [] then Trace(t, [])
    else Extend(Run(t, clock[..|clock| - 1]), clock[|clock| - 1], |clock| - 1)
  }

  lemma RunSnoc(t: Timer, prefix: seq<real>, now: real)
    ensures Run(t, prefix + [now]) == Extend(Run(t, prefix), now, |prefix|)
  {
    assert (prefix + [now])[..|prefix|] == prefix;
  }

  /** One more frame moves the run's timer by one step, and appends a sample
      with the published count exactly when the step publishes one. */
  lemma RunStep(t: Timer, clock: seq<real>, now: real)
    ensures Run(t, clock + [now]).final == ShowFpsStep(Run(t, clock).final, now).next
    ensures ShowFpsStep(Run(t, clock).final, now).published.None? ==>
      Run(t, clock + [now]).samples == Run(t, clock).samples
    ensures ShowFpsStep(Run(t, clock).final, now).published.Some? ==>
      var s := Run(t, clock + [now]).samples;
      s != [] && s[|s| - 1].frames == ShowFpsStep(Run(t, clock).final, now).published.value
  {
    RunSnoc(t, clock, now);
  }

  /** Every sample in `r` was closed by a frame of `clock`, at that frame's
      reading, at least a second after it started. */
  ghost predicate SamplesAreTimed(clock: seq<real>, r: Trace) {
    forall i :: 0 <= i < |r.samples| ==>
      r.samples[i].call < |clock| && r.samples[i].end == clock[r.samples[i].call]
      && r.samples[i].end - r.samples[i].start >= SampleInterval
  }

  /** Every published count is the number of frames since the previous sample
      (or since `t`, plus what `t` had counted already), including the frame
      that closed it; samples follow each other without gap; the final timer
      has counted the frames after the last sample. */
  ghost predicate SamplesCountFrames(t: Timer, clock: seq<real>, r: Trace) {
    var s := r.samples;
    && (s == [] ==> r.final.frames == t.frames + |clock| && r.final.lastTime == t.lastTime)
    && (s != [] ==>
          s[0].start == t.lastTime && s[0].frames == t.frames + s[0].call + 1
          && s[|s| - 1].call < |clock|
          && r.final.frames == |clock| - 1 - s[|s| - 1].call && r.final.lastTime == s[|s| - 1].end)
    && (forall i :: 0 < i < |s| ==> Follows(s[i - 1], s[i]))
  }

  /** Sample `b` starts where `a` ended and counts the frames after `a`'s
      closing frame, up to and including its own. */
  predicate Follows(a: Sample, b: Sample) {
    a.call < b.call && b.start == a.end && b.frames == b.call - a.call
  }

  /** Every frame of `clock` in `lo..hi` came less than a second after `start`. */
  ghost predicate QuietWithin(clock: seq<real>, lo: int, hi: int, start: real)
    requires 0 <= lo && hi <= |clock|
  {
    forall j :: lo <= j < hi ==> clock[j] - start < SampleInterval
  }

  /** The first frame that sample `i` counts: the one after the previous
      sample's closing frame, or the first frame of the run. */
  function FirstCounted(s: seq<Sample>, i: nat): nat
    requires i <= |s|
  {
    if i == 0 then 0 else s[i - 1].call + 1
  }

  /** The frames counted in sample `i` before its closing frame all came
      less than a second after its start. */
  ghost predicate QuietBefore(clock: seq<real>, s: seq<Sample>, i: nat)
    requires i < |s|
  {
    FirstCounted(s, i) <= s[i].call <= |clock|
    && QuietWithin(clock, FirstCounted(s, i), s[i].call, s[i].start)
  }

  /** No sample was missed: every frame that closed no sample came less than
      a second after the start of the sample it was counted in, the open
      sample of `r.final` for the frames after the last sample. */
  ghost predicate NoMissedSample(clock: seq<real>, r: Trace) {
    var s := r.samples;
    && (forall i :: 0 <= i < |s| ==> QuietBefore(clock, s, i))
    && FirstCounted(s, |s|) <= |clock|
    && QuietWithin(clock, FirstCounted(s, |s|), |clock|, r.final.lastTime)
  }

  /** A later frame does not change which earlier frames were quiet. */
  lemma QuietWithinSnoc(prefix: seq<real>, now: real, lo: int, hi: int, start: real)
    requires 0 <= lo && hi <= |prefix|
    requires QuietWithin(prefix, lo, hi, start)
    ensures QuietWithin(prefix + [now], lo, hi, start)
  {
    assert forall j :: lo <= j < hi ==> (prefix + [now])[j] == prefix[j];
  }

  /** A quiet frame extends a quiet stretch that ends where it comes. */
  lemma QuietFrameSnoc(prefix: seq<real>, now: real, lo: int, start: real)
    requires 0 <= lo <= |prefix|
    requires QuietWithin(prefix, lo, |prefix|, start)
    requires now - start < SampleInterval
    ensures QuietWithin(prefix + [now], lo, |prefix| + 1, start)
  {
    assert forall j :: lo <= j < |prefix| ==> (prefix + [now])[j] == prefix[j];
  }

  /** One more frame keeps every earlier frame's status, and either closes
      a sample or is itself quiet. */
  lemma NoMissedStep(prefix: seq<real>, now: real, before: Trace)
    requires NoMissedSample(prefix, before)
    ensures NoMissedSample(prefix + [now], Extend(before, now, |prefix|))
  {
    var s := before.samples;
    var lo := FirstCounted(s, |s|);
    forall i | 0 <= i < |s|
      ensures QuietBefore(prefix + [now], s, i)
    {
      assert QuietBefore(prefix, s, i);
      QuietWithinSnoc(prefix, now, FirstCounted(s, i), s[i].call, s[i].start);
    }
    if now - before.final.lastTime >= SampleInterval {
      QuietWithinSnoc(prefix, now, lo, |prefix|, before.final.lastTime);
      var x := Sample(Increment(before.final.frames), before.final.lastTime, now, |prefix|);
      ClosedSampleKeepsNoMissed(prefix + [now], s, x, Timer(0, now));
      assert Extend(before, now, |prefix|) == Trace(Timer(0, now), s + [x]);
    } else {
      QuietFrameSnoc(prefix, now, lo, before.final.lastTime);
      assert Extend(before, now, |prefix|)
        == Trace(Timer(Increment(before.final.frames), before.final.lastTime), s);
    }
  }

  /** Appending a sample whose counted frames were quiet, and after which no
      frame has come yet, keeps the condition. */
  lemma ClosedSampleKeepsNoMissed(clock: seq<real>, s: seq<Sample>, x: Sample, final: Timer)
    requires forall i :: 0 <= i < |s| ==> QuietBefore(clock, s, i)
    requires FirstCounted(s, |s|) <= x.call && x.call + 1 == |clock|
    requires QuietWithin(clock, FirstCounted(s, |s|), x.call, x.start)
    ensures NoMissedSample(clock, Trace(final, s + [x]))
  {
    var s' := s + [x];
    forall i | 0 <= i < |s'|
      ensures QuietBefore(clock, s', i)
    {
      if i < |s| {
        assert s'[i] == s[i] && FirstCounted(s', i) == FirstCounted(s, i);
        assert QuietBefore(clock, s, i);
      } else {
        assert s'[i] == x && FirstCounted(s', i) == FirstCounted(s, |s|);
      }
    }
    assert FirstCounted(s', |s'|) == |clock|;
  }

  /** The counter's two conditions as one: no wrap-around within the run. */
  predicate NoWrap(t: Timer, clock: seq<real>) {
    t.frames + |clock| < UintModulus
  }

  /** Over any run that does not wrap the counter, the published counts are
      exact frame counts, every sample spans at least a second, and every
      frame a second or more after the start of its sample closes it. */
  lemma {:induction false} RunAccounting(t: Timer, clock: seq<real>)
    requires NoWrap(t, clock)
    ensures SamplesAreTimed(clock, Run(t, clock))
    ensures SamplesCountFrames(t, clock, Run(t, clock))
    ensures NoMissedSample(clock, Run(t, clock))
    decreases |clock|
  {
    if clock != [] {
      var prefix, now := clock[..|clock| - 1], clock[|clock| - 1];
      assert prefix + [now] == clock;
      RunAccounting(t, prefix);
      RunSnoc(t, prefix, now);
      AccountingStep(t, prefix, now, Run(t, prefix));
      NoMissedStep(prefix, now, Run(t, prefix));
    }
  }

  /** One more frame keeps the accounting of a run. */
  lemma AccountingStep(t: Timer, prefix: seq<real>, now: real, before: Trace)
    requires NoWrap(t, prefix + [now])
    requires SamplesAreTimed(prefix, before)
    requires SamplesCountFrames(t, prefix, before)
    ensures SamplesAreTimed(prefix + [now], Extend(before, now, |prefix|))
    ensures SamplesCountFrames(t, prefix + [now], Extend(before, now, |prefix|))
  {
    var clock := prefix + [now];
    var s := before.samples;
    assert forall i :: 0 <= i < |s| ==> clock[s[i].call] == prefix[s[i].call];
    assert before.final.frames <= t.frames + |prefix| by {
      if s != [] {
        assert s[|s| - 1].call < |prefix|;
      }
    }
    if now - before.final.lastTime >= SampleInterval {
      var x := Sample(before.final.frames + 1, before.final.lastTime, now, |prefix|);
      var s' := s + [x];
      assert Extend(before, now, |prefix|) == Trace(Timer(0, now), s');
      forall i | 0 < i < |s'|
        ensures Follows(s'[i - 1], s'[i])
      {
        if i < |s| {
          assert s'[i - 1] == s[i - 1] && s'[i] == s[i];
        } else {
          assert s'[i - 1] == s[|s| - 1] && s'[i] == x;
        }
      }
    } else {
      assert Extend(before, now, |prefix|)
        == Trace(Timer(before.final.frames + 1, before.final.lastTime), s);
    }
  }

  /** Every published count is at least one. */
  lemma SamplesArePositive(t: Timer, clock: seq<real>)
    requires NoWrap(t, clock)
    ensures forall i :: 0 <= i < |Run(t, clock).samples| ==> Run(t, clock).samples[i].frames >= 1
  {
    RunAccounting(t, clock);
    var s := Run(t, clock).samples;
    forall i | 0 <= i < |s|
      ensures s[i].frames >= 1
    {
      if i > 0 {
        assert Follows(s[i - 1], s[i]);
      }
    }
  }

  /** Frames that all come less than a second after the last sample only
      count: nothing is published and the sample start does not move. */
  lemma {:induction false} QuietRun(t: Timer, clock: seq<real>)
    requires NoWrap(t, clock)
    requires forall i :: 0 <= i < |clock| ==> clock[i] - t.lastTime < SampleInterval
    ensures Run(t, clock) == Trace(Timer(t.frames + |clock|, t.lastTime), [])
    decreases |clock|
  {
    if clock != [] {
      var prefix := clock[..|clock| - 1];
      assert forall i :: 0 <= i < |prefix| ==> prefix[i] == clock[i];
      QuietRun(t, prefix);
      assert prefix + [clock[|clock| - 1]] == clock;
      RunSnoc(t, prefix, clock[|clock| - 1]);
    }
  }

  /** A run whose last frame is the first to come a second or more after the
      last sample publishes exactly once, the number of frames in the run
      (plus what was already counted), and ends with a fresh sample at that
      frame's reading. */
  lemma SampleAtFirstCrossing(t: Timer, clock: seq<real>)
    requires NoWrap(t, clock) && |clock| >= 1
    requires forall i :: 0 <= i < |clock| - 1 ==> clock[i] - t.lastTime < SampleInterval
    requires clock[|clock| - 1] - t.lastTime >= SampleInterval
    ensures Run(t, clock) == Trace(Timer(0, clock[|clock| - 1]),
      [Sample(t.frames + |clock|, t.lastTime, clock[|clock| - 1], |clock| - 1)])
  {
    var prefix, now := clock[..|clock| - 1], clock[|clock| - 1];
    assert Run(t, prefix) == Trace(Timer(t.frames + |prefix|, t.lastTime), []) by {
      assert forall i :: 0 <= i < |prefix| ==> prefix[i] - t.lastTime < SampleInterval;
      QuietRun(t, prefix);
    }
    assert prefix + [now] == clock;
    CrossingAfterQuietRun(t, prefix, now);
  }

  /** A quiet run followed by a frame that crosses the second. */
  lemma CrossingAfterQuietRun(t: Timer, prefix: seq<real>, now: real)
    requires t.frames + |prefix| + 1 < UintModulus
    requires Run(t, prefix) == Trace(Timer(t.frames + |prefix|, t.lastTime), [])
    requires now - t.lastTime >= SampleInterval
    ensures Run(t, prefix + [now]) == Trace(Timer(0, now),
      [Sample(t.frames + |prefix| + 1, t.lastTime, now, |prefix|)])
  {
    RunSnoc(t, prefix, now);
    FirstSample(Run(t, prefix), now, |prefix|);
  }

  /** The frame that closes the first sample of a run. */
  lemma FirstSample(before: Trace, now: real, call: nat)
    requires before.samples == [] && before.final.frames + 1 < UintModulus
    requires now - before.final.lastTime >= SampleInterval
    ensures Extend(before, now, call) == Trace(Timer(0, now),
      [Sample(before.final.frames + 1, before.final.lastTime, now, call)])
  {
    assert before.samples + [Sample(before.final.frames + 1, before.final.lastTime, now, call)]
      == [Sample(before.final.frames + 1, before.final.lastTime, now, call)];
  }

  /** From a counter at 0, as after construction, the first published count
      is the number of frames counted up to and including the one that
      published it. */
  lemma FirstSampleCountsEveryFrame(lastTime: real, clock: seq<real>)
    requires |clock| < UintModulus
    requires Run(Timer(0, lastTime), clock).samples != []
    ensures Run(Timer(0, lastTime), clock).samples[0].frames
            == Run(Timer(0, lastTime), clock).samples[0].call + 1
  {
    RunAccounting(Timer(0, lastTime), clock);
  }

  /** `n` frames at the same clock reading. */
  function Repeat(now: real, n: nat): (clock: seq<real>)
    ensures |clock| == n && forall i :: 0 <= i < n ==> clock[i] == now
  {
    seq(n, _ => now)
  }

  /** Thirty frames at the reading of the timer start, then one a second
      later: the single sample counts all thirty-one. */
  lemma ThirtyOneFrameSample(t0: real)
    ensures Run(Timer(0, t0), Repeat(t0, 30) + [t0 + 1.0])
            == Trace(Timer(0, t0 + 1.0), [Sample(31, t0, t0 + 1.0, 30)])
  {
    SampleAtFirstCrossing(Timer(0, t0), Repeat(t0, 30) + [t0 + 1.0]);
  }

  /** No frame for two seconds after the timer start, then one: it publishes
      a count of one. */
  lemma SingleLateFrameSample(t0: real)
    ensures Run(Timer(0, t0), [t0 + 2.0]).samples == [Sample(1, t0, t0 + 2.0, 0)]
  {
    SampleAtFirstCrossing(Timer(0, t0), [t0 + 2.0]);
  }
}
