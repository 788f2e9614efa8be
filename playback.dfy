/**
 * `play_arrangement` of main.rs with the wall clock abstracted away: the
 * per-track time per tick, then the loop in which every track whose next time
 * has been reached pulls one event, and the common clock jumps to the smallest
 * next time. A `fuel` bound counts the loop's iterations.
 */
module Playback {
  import opened Wrappers
  import opened Midi
  import EventHandler
  import Arrangement

  const U32Max: nat := 0xFFFF_FFFF

  /**
   * Microseconds per tick as the loop uses it, `time_per_ticks[i] as u32`:
   * tempo / ticks-per-beat truncated for Metrical timing (the cast saturates,
   * so a zero ticks-per-beat gives u32::MAX, or 0 for 0 / 0), and 1 / fps
   * truncated, which is 0, for Timecode timing.
   */
  function TimePerTick(timing: Timing, tempo: nat): (r: nat)
    ensures r <= U32Max
    ensures timing.Metrical? && timing.ticksPerBeat == 0 ==> r == (if tempo == 0 then 0 else U32Max)
    ensures timing.Timecode? ==> r == 0
  {
    match timing
    case Metrical(ticksPerBeat) =>
      if ticksPerBeat == 0 then (if tempo == 0 then 0 else U32Max)
      else if tempo / ticksPerBeat > U32Max then U32Max
      else tempo / ticksPerBeat
    case Timecode(_, _) => 0
  }

  /** For Metrical timing the time per tick is the tempo divided by ticks per beat, rounded down. */
  lemma TimePerTickTruncates(timing: Timing, tempo: nat)
    requires timing.Metrical? && timing.ticksPerBeat > 0 && tempo <= U32Max
    ensures var r := TimePerTick(timing, tempo);
      r * timing.ticksPerBeat <= tempo < r * timing.ticksPerBeat + timing.ticksPerBeat
  {
    FloorDivision(tempo, timing.ticksPerBeat);
  }

  lemma FloorDivision(a: nat, b: nat)
    requires b > 0
    ensures a / b <= a
    ensures (a / b) * b <= a < (a / b) * b + b
  {
    var q, r := a / b, a % b;
    assert a == q * b + r && 0 <= r < b;
    NoMoreThanMultiple(q, b);
  }

  lemma {:induction false} NoMoreThanMultiple(q: nat, b: nat)
    requires b > 0
    ensures q <= q * b
  {
    if b > 1 {
      NoMoreThanMultiple(q, b - 1);
      assert q * b == q * (b - 1) + q;
    }
  }

  function TimesPerTick(arrangements: seq<Arrangement.TrackPlus>, tempo: nat): (r: seq<nat>)
    ensures |r| == |arrangements|
    ensures forall k :: 0 <= k < |r| ==> r[k] == TimePerTick(arrangements[k].timing, tempo)
  {
    seq(|arrangements|, k requires 0 <= k < |arrangements| => TimePerTick(arrangements[k].timing, tempo))
  }

  function TracksOf(arrangements: seq<Arrangement.TrackPlus>): (r: seq<Track>)
    ensures |r| == |arrangements|
    ensures forall k :: 0 <= k < |r| ==> r[k] == arrangements[k].track
  {
    seq(|arrangements|, k requires 0 <= k < |arrangements| => arrangements[k].track)
  }

  /** A message emitted by the event handler, at a time in microseconds since playback began. */
  datatype Fired = Fired(time: nat, message: seq<U8>)

  /**
   * The loop's state: `next_track_times`, the position of each track's
   * iterator, and `full_track_time`.
   */
  datatype Playhead = Playhead(times: seq<nat>, cursors: seq<nat>, full: nat)

  predicate WellFormed(tracks: seq<Track>, tpt: seq<nat>, h: Playhead) {
    && |tpt| == |tracks| && |h.times| == |tracks| && |h.cursors| == |tracks|
    && forall k :: 0 <= k < |tracks| ==> h.cursors[k] <= |tracks[k]|
  }

  function Zeros(n: nat): (r: seq<nat>)
    ensures |r| == n && forall k :: 0 <= k < n ==> r[k] == 0
  {
    seq(n, _ => 0)
  }

  /** All tracks at time 0 with their iterators at the first event; the clock at `track_time`. */
  function Start(n: nat, trackTime: nat): (start: Playhead) {
    Playhead(Zeros(n), Zeros(n), trackTime)
  }

  predicate Eligible(h: Playhead, k: nat)
    requires k < |h.times|
  {
    h.times[k] <= h.full
  }

  /** Track `k` takes part in this iteration and its iterator yields an event. */
  predicate Pulls(tracks: seq<Track>, h: Playhead, k: nat)
    requires k < |tracks| == |h.times| == |h.cursors|
  {
    Eligible(h, k) && h.cursors[k] < |tracks[k]|
  }

  /** Track `k` takes part in this iteration and its iterator yields None. */
  predicate Exhausted(tracks: seq<Track>, h: Playhead, k: nat)
    requires k < |tracks| == |h.times| == |h.cursors|
  {
    Eligible(h, k) && h.cursors[k] >= |tracks[k]|
  }

  /** What `mildy_event_handler` emits for one event, stamped with the current clock. */
  function Emitted(time: nat, event: TrackEvent): (fired: seq<Fired>) {
    match EventHandler.Translate(event.kind)
    case Some(message) => [Fired(time, message)]
    case None => []
  }

  function NextTime(tracks: seq<Track>, tpt: seq<nat>, h: Playhead, k: nat): (t: nat)
    requires WellFormed(tracks, tpt, h) && k < |tracks|
  {
    if Pulls(tracks, h, k) then h.times[k] + tracks[k][h.cursors[k]].delta * tpt[k] else h.times[k]
  }

  function NextCursor(tracks: seq<Track>, tpt: seq<nat>, h: Playhead, k: nat): (c: nat)
    requires WellFormed(tracks, tpt, h) && k < |tracks|
  {
    if Pulls(tracks, h, k) then h.cursors[k] + 1 else h.cursors[k]
  }

  /** `num_finished_tracks` after the tracks before index `i` have been visited. */
  function FinishedBefore(tracks: seq<Track>, tpt: seq<nat>, h: Playhead, i: nat): (count: nat)
    requires WellFormed(tracks, tpt, h) && i <= |tracks|
  {
    if i == 0 then 0
    else FinishedBefore(tracks, tpt, h, i - 1) + if Exhausted(tracks, h, i - 1) then 1 else 0
  }

  /** The messages emitted while the tracks before index `i` were visited. */
  function FiredBefore(tracks: seq<Track>, tpt: seq<nat>, h: Playhead, i: nat): (fired: seq<Fired>)
    requires WellFormed(tracks, tpt, h) && i <= |tracks|
  {
    if i == 0 then []
    else FiredBefore(tracks, tpt, h, i - 1)
         + if Pulls(tracks, h, i - 1) then Emitted(h.full, tracks[i - 1][h.cursors[i - 1]]) else []
  }

  lemma {:induction false} FinishedCount(tracks: seq<Track>, tpt: seq<nat>, h: Playhead, i: nat)
    requires WellFormed(tracks, tpt, h) && i <= |tracks|
    ensures FinishedBefore(tracks, tpt, h, i) <= i
    ensures FinishedBefore(tracks, tpt, h, i) == i <==> forall k :: 0 <= k < i ==> Exhausted(tracks, h, k)
  {
    if i > 0 {
      FinishedCount(tracks, tpt, h, i - 1);
    }
  }

  lemma {:induction false} FiredAtClock(tracks: seq<Track>, tpt: seq<nat>, h: Playhead, i: nat)
    requires WellFormed(tracks, tpt, h) && i <= |tracks|
    ensures forall j :: 0 <= j < |FiredBefore(tracks, tpt, h, i)| ==> FiredBefore(tracks, tpt, h, i)[j].time == h.full
  {
    if i > 0 {
      FiredAtClock(tracks, tpt, h, i - 1);
    }
  }

  /** `next_track_times` after the tracks before index `i` have been visited. */
  function NextTimes(tracks: seq<Track>, tpt: seq<nat>, h: Playhead, i: nat): (r: seq<nat>)
    requires WellFormed(tracks, tpt, h) && i <= |tracks|
    ensures |r| == i
  {
    if i == 0 then [] else NextTimes(tracks, tpt, h, i - 1) + [NextTime(tracks, tpt, h, i - 1)]
  }

  /** The iterator positions after the tracks before index `i` have been visited. */
  function NextCursors(tracks: seq<Track>, tpt: seq<nat>, h: Playhead, i: nat): (r: seq<nat>)
    requires WellFormed(tracks, tpt, h) && i <= |tracks|
    ensures |r| == i
    ensures forall k :: 0 <= k < i ==> r[k] <= |tracks[k]|
  {
    if i == 0 then [] else NextCursors(tracks, tpt, h, i - 1) + [NextCursor(tracks, tpt, h, i - 1)]
  }

  lemma {:induction false} NextAt(tracks: seq<Track>, tpt: seq<nat>, h: Playhead, i: nat)
    requires WellFormed(tracks, tpt, h) && i <= |tracks|
    ensures forall k :: 0 <= k < i ==> NextTimes(tracks, tpt, h, i)[k] == NextTime(tracks, tpt, h, k)
    ensures forall k :: 0 <= k < i ==> NextCursors(tracks, tpt, h, i)[k] == NextCursor(tracks, tpt, h, k)
  {
    if i > 0 {
      NextAt(tracks, tpt, h, i - 1);
    }
  }

  datatype PassResult = PassResult(times: seq<nat>, cursors: seq<nat>, finished: nat, fired: seq<Fired>)

  /** One iteration of the `iter_mut` loop over the tracks. */
  function Pass(tracks: seq<Track>, tpt: seq<nat>, h: Playhead): (r: PassResult)
    requires WellFormed(tracks, tpt, h)
    ensures WellFormed(tracks, tpt, Playhead(r.times, r.cursors, h.full))
  {
    var n := |tracks|;
    PassResult(
      NextTimes(tracks, tpt, h, n),
      NextCursors(tracks, tpt, h, n),
      FinishedBefore(tracks, tpt, h, n),
      FiredBefore(tracks, tpt, h, n))
  }

  /**
   * What one iteration does: only tracks whose time has been reached take
   * part; each of them pulls at most one event and advances by that event's
   * delta times its time per tick; a track whose iterator is exhausted counts
   * as finished and keeps its time; every other track keeps its time and
   * cursor. The count of finished tracks equals the number of tracks exactly
   * when every track took part and was exhausted, and every message is
   * emitted at the current clock.
   */
  lemma PassEffect(tracks: seq<Track>, tpt: seq<nat>, h: Playhead)
    requires WellFormed(tracks, tpt, h)
    ensures var r := Pass(tracks, tpt, h);
      && (forall k :: 0 <= k < |tracks| && !Eligible(h, k) ==>
            r.times[k] == h.times[k] && r.cursors[k] == h.cursors[k])
      && (forall k :: 0 <= k < |tracks| && Exhausted(tracks, h, k) ==>
            r.times[k] == h.times[k] && r.cursors[k] == h.cursors[k])
      && (forall k :: 0 <= k < |tracks| && Pulls(tracks, h, k) ==>
            && r.cursors[k] == h.cursors[k] + 1
            && r.times[k] == h.times[k] + tracks[k][h.cursors[k]].delta * tpt[k])
      && (r.finished == |tracks| <==> forall k :: 0 <= k < |tracks| ==> Exhausted(tracks, h, k))
      && (forall j :: 0 <= j < |r.fired| ==> r.fired[j].time == h.full)
  {
    NextAt(tracks, tpt, h, |tracks|);
    FinishedCount(tracks, tpt, h, |tracks|);
    FiredAtClock(tracks, tpt, h, |tracks|);
  }

  /** `next_track_times.iter().min().unwrap()`. */
  function Min(s: seq<nat>): (m: nat)
    requires |s| > 0
    ensures exists k :: 0 <= k < |s| && s[k] == m
    ensures forall k :: 0 <= k < |s| ==> m <= s[k]
  {
    if |s| == 1 then s[0]
    else
      var rest := Min(s[1..]);
      assert forall k :: 1 <= k < |s| ==> s[1..][k - 1] == s[k];
      if s[0] <= rest then s[0] else rest
  }

  datatype Outcome = Outcome(fired: seq<Fired>, finished: bool)

  /**
   * At most `fuel` iterations of the loop, after the messages `acc` have
   * already been emitted: it stops when every track was exhausted in the
   * same iteration; otherwise the clock becomes the smallest next time,
   * finished tracks included.
   */
  function RunFrom(tracks: seq<Track>, tpt: seq<nat>, h: Playhead, fuel: nat, acc: seq<Fired>): (outcome: Outcome)
    requires WellFormed(tracks, tpt, h)
    decreases fuel
  {
    if fuel == 0 then Outcome(acc, false)
    else
      var p := Pass(tracks, tpt, h);
      if p.finished == |tracks| then Outcome(acc + p.fired, true)
      else RunFrom(tracks, tpt, Playhead(p.times, p.cursors, Min(p.times)), fuel - 1, acc + p.fired)
  }

  /** At most `fuel` iterations of the loop from the playhead `h`. */
  function Run(tracks: seq<Track>, tpt: seq<nat>, h: Playhead, fuel: nat): (outcome: Outcome)
    requires WellFormed(tracks, tpt, h)
  {
    RunFrom(tracks, tpt, h, fuel, [])
  }

  /** The loop over `track_timings` that fills `time_per_ticks`. */
  method ComputeTimesPerTick(arrangements: seq<Arrangement.TrackPlus>, tempo: nat) returns (timePerTicks: seq<nat>)
    ensures timePerTicks == TimesPerTick(arrangements, tempo)
  {
    timePerTicks := [];
    var t := 0;
    while t < |arrangements|
      invariant 0 <= t <= |arrangements|
      invariant |timePerTicks| == t
      invariant forall k :: 0 <= k < t ==> timePerTicks[k] == TimePerTick(arrangements[k].timing, tempo)
    {
      timePerTicks := timePerTicks + [TimePerTick(arrangements[t].timing, tempo)];
      t := t + 1;
    }
  }

  /**
   * The body of the loop up to the finished test: the `iter_mut` pass over
   * `next_track_times`, pulling from `track_iterators` and emitting each event.
   */
  method PassOver(tracks: seq<Track>, timePerTicks: seq<nat>, nextTrackTimes: seq<nat>, trackIterators: seq<nat>, fullTrackTime: nat)
    returns (times: seq<nat>, cursors: seq<nat>, numFinishedTracks: nat, fired: seq<Fired>)
    requires WellFormed(tracks, timePerTicks, Playhead(nextTrackTimes, trackIterators, fullTrackTime))
    ensures PassResult(times, cursors, numFinishedTracks, fired)
         == Pass(tracks, timePerTicks, Playhead(nextTrackTimes, trackIterators, fullTrackTime))
  {
    ghost var h := Playhead(nextTrackTimes, trackIterators, fullTrackTime);
    var n := |tracks|;
    times, cursors, numFinishedTracks, fired := nextTrackTimes, trackIterators, 0, [];
    var i := 0;
    while i < n
      invariant 0 <= i <= n
      invariant |times| == n && |cursors| == n
      invariant forall k :: 0 <= k < i ==>
        times[k] == NextTime(tracks, timePerTicks, h, k) && cursors[k] == NextCursor(tracks, timePerTicks, h, k)
      invariant forall k :: i <= k < n ==> times[k] == h.times[k] && cursors[k] == h.cursors[k]
      invariant numFinishedTracks == FinishedBefore(tracks, timePerTicks, h, i)
      invariant fired == FiredBefore(tracks, timePerTicks, h, i)
    {
      if times[i] <= fullTrackTime {
        if cursors[i] < |tracks[i]| {
          var event := tracks[i][cursors[i]];
          cursors := cursors[i := cursors[i] + 1];
          times := times[i := times[i] + event.delta * timePerTicks[i]];
          fired := fired + Emitted(fullTrackTime, event);
        } else {
          numFinishedTracks := numFinishedTracks + 1;
        }
      }
      i := i + 1;
    }
    NextAt(tracks, timePerTicks, h, n);
  }

  /** Every track's next time is at or after the clock. */
  predicate Settled(h: Playhead) {
    forall k :: 0 <= k < |h.times| ==> h.full <= h.times[k]
  }

  /** The playhead the loop moves to after a pass that did not finish. */
  function Advance(p: PassResult): (next: Playhead)
    requires |p.times| > 0
  {
    Playhead(p.times, p.cursors, Min(p.times))
  }

  /** No track's next time goes down in a pass. */
  lemma {:induction false} PassNeverRewinds(tracks: seq<Track>, tpt: seq<nat>, h: Playhead)
    requires WellFormed(tracks, tpt, h)
    ensures forall k :: 0 <= k < |tracks| ==> h.times[k] <= Pass(tracks, tpt, h).times[k]
  {
    PassEffect(tracks, tpt, h);
    var r := Pass(tracks, tpt, h);
    forall k | 0 <= k < |tracks|
      ensures h.times[k] <= r.times[k]
    {
      if !Eligible(h, k) {
      } else if Exhausted(tracks, h, k) {
      } else {
        assert Pulls(tracks, h, k);
      }
    }
  }

  /**
   * From a settled playhead, the clock the loop moves to is not earlier than
   * the current one, and the new playhead is settled again.
   */
  lemma ClockNeverGoesBack(tracks: seq<Track>, tpt: seq<nat>, h: Playhead)
    requires WellFormed(tracks, tpt, h) && Settled(h)
    requires Pass(tracks, tpt, h).finished != |tracks|
    ensures |tracks| > 0
    ensures var next := Advance(Pass(tracks, tpt, h)); h.full <= next.full && Settled(next)
  {
    var r := Pass(tracks, tpt, h);
    assert |tracks| > 0;
    PassNeverRewinds(tracks, tpt, h);
    var m := Min(r.times);
    var k :| 0 <= k < |r.times| && r.times[k] == m;
    assert h.full <= h.times[k];
  }

  /** The messages are in order of time. */
  predicate Chronological(fired: seq<Fired>) {
    forall i, j :: 0 <= i < j < |fired| ==> fired[i].time <= fired[j].time
  }

  /**
   * From a settled playhead, with everything emitted so far no later than the
   * clock, the loop emits its messages in order of time.
   */
  lemma {:induction false} RunIsChronological(tracks: seq<Track>, tpt: seq<nat>, h: Playhead, fuel: nat, acc: seq<Fired>)
    requires WellFormed(tracks, tpt, h) && Settled(h)
    requires Chronological(acc) && forall i :: 0 <= i < |acc| ==> acc[i].time <= h.full
    ensures Chronological(RunFrom(tracks, tpt, h, fuel, acc).fired)
    decreases fuel
  {
    if fuel > 0 {
      var p := Pass(tracks, tpt, h);
      PassEffect(tracks, tpt, h);
      var acc' := acc + p.fired;
      assert Chronological(acc') by {
        forall i, j | 0 <= i < j < |acc'|
          ensures acc'[i].time <= acc'[j].time
        {
          if j >= |acc| {
            assert acc'[j] == p.fired[j - |acc|];
            if i < |acc| {
              assert acc'[i] == acc[i];
            } else {
              assert acc'[i] == p.fired[i - |acc|];
            }
          }
        }
      }
      if p.finished != |tracks| {
        ClockNeverGoesBack(tracks, tpt, h);
        var next := Advance(p);
        assert forall i :: 0 <= i < |acc'| ==> acc'[i].time <= next.full by {
          forall i | 0 <= i < |acc'|
            ensures acc'[i].time <= next.full
          {
            if i < |acc| {
              assert acc'[i] == acc[i];
            } else {
              assert acc'[i] == p.fired[i - |acc|];
            }
          }
        }
        RunIsChronological(tracks, tpt, next, fuel - 1, acc');
      }
    }
  }

  /**
   * One iteration from such a playhead: it does not finish, emits at the
   * clock, leaves the clock where it is, and the exhausted track stays
   * exhausted while the other one stays ahead.
   */
  lemma StallStep(tracks: seq<Track>, tpt: seq<nat>, h: Playhead, done: nat, ahead: nat)
    requires WellFormed(tracks, tpt, h) && Settled(h)
    requires done < |tracks| && Exhausted(tracks, h, done)
    requires ahead < |tracks| && h.full < h.times[ahead]
    ensures var p := Pass(tracks, tpt, h);
      && p.finished != |tracks|
      && (forall j :: 0 <= j < |p.fired| ==> p.fired[j].time == h.full)
      && var next := Advance(p);
         && WellFormed(tracks, tpt, next) && Settled(next) && next.full == h.full
         && Exhausted(tracks, next, done) && next.full < next.times[ahead]
  {
    var p := Pass(tracks, tpt, h);
    PassEffect(tracks, tpt, h);
    assert !Exhausted(tracks, h, ahead);
    ClockNeverGoesBack(tracks, tpt, h);
    assert p.times[done] == h.times[done];
  }

  /** A prefix kept and a suffix all at one time survive appending another such suffix in front. */
  lemma StallAppend(acc: seq<Fired>, fired: seq<Fired>, r: seq<Fired>, time: nat)
    requires forall j :: 0 <= j < |fired| ==> fired[j].time == time
    requires |acc + fired| <= |r| && r[..|acc + fired|] == acc + fired
    requires forall i :: |acc + fired| <= i < |r| ==> r[i].time == time
    ensures |acc| <= |r| && r[..|acc|] == acc
    ensures forall i :: |acc| <= i < |r| ==> r[i].time == time
  {
    var all := acc + fired;
    assert r[..|acc|] == all[..|acc|];
    forall i | |acc| <= i < |r|
      ensures r[i].time == time
    {
      if i < |all| {
        assert r[i] == all[i] == fired[i - |acc|];
      }
    }
  }

  /**
   * The loop stalls: once a track has run out of events at the current
   * clock while another track's next time lies beyond it, the clock stays
   * where it is, the loop never reports that it finished, and every later
   * message is emitted at that same clock.
   */
  lemma {:induction false} Stalls(tracks: seq<Track>, tpt: seq<nat>, h: Playhead, fuel: nat, acc: seq<Fired>,
                                  done: nat, ahead: nat)
    requires WellFormed(tracks, tpt, h) && Settled(h)
    requires done < |tracks| && Exhausted(tracks, h, done)
    requires ahead < |tracks| && h.full < h.times[ahead]
    ensures var r := RunFrom(tracks, tpt, h, fuel, acc);
      && !r.finished
      && |acc| <= |r.fired| && r.fired[..|acc|] == acc
      && forall i :: |acc| <= i < |r.fired| ==> r.fired[i].time == h.full
    decreases fuel
  {
    if fuel > 0 {
      var p := Pass(tracks, tpt, h);
      StallStep(tracks, tpt, h, done, ahead);
      var next := Advance(p);
      Stalls(tracks, tpt, next, fuel - 1, acc + p.fired, done, ahead);
      StallAppend(acc, p.fired, RunFrom(tracks, tpt, next, fuel - 1, acc + p.fired).fired, h.full);
    }
  }

  /** The absolute tick of the end of `events`: the sum of their deltas. */
  function TickSum(events: seq<TrackEvent>): (ticks: nat) {
    if |events| == 0 then 0 else TickSum(events[..|events| - 1]) + events[|events| - 1].delta
  }

  lemma TickSumStep(track: Track, c: nat)
    requires c < |track|
    ensures TickSum(track[..c + 1]) == TickSum(track[..c]) + track[c].delta
  {
    assert track[..c + 1][..c] == track[..c];
  }

  /**
   * Each track's next time is the absolute time of the last event its
   * iterator yielded (0 before the first), not that of the event it
   * yields next.
   */
  predicate AtPrecedingTick(tracks: seq<Track>, tpt: seq<nat>, h: Playhead)
    requires WellFormed(tracks, tpt, h)
  {
    forall k :: 0 <= k < |tracks| ==> h.times[k] == tpt[k] * TickSum(tracks[k][..h.cursors[k]])
  }

  lemma StartsAtPrecedingTick(tracks: seq<Track>, tpt: seq<nat>, trackTime: nat)
    requires |tpt| == |tracks|
    ensures WellFormed(tracks, tpt, Start(|tracks|, trackTime))
    ensures AtPrecedingTick(tracks, tpt, Start(|tracks|, trackTime))
  {
    var h := Start(|tracks|, trackTime);
    forall k | 0 <= k < |tracks|
      ensures h.times[k] == tpt[k] * TickSum(tracks[k][..h.cursors[k]])
    {
      assert tracks[k][..0] == [];
    }
  }

  /** A pass keeps every track's next time at the tick of the last event it yielded. */
  lemma PassKeepsPrecedingTick(tracks: seq<Track>, tpt: seq<nat>, h: Playhead, clock: nat)
    requires WellFormed(tracks, tpt, h) && AtPrecedingTick(tracks, tpt, h)
    ensures var r := Pass(tracks, tpt, h);
      WellFormed(tracks, tpt, Playhead(r.times, r.cursors, clock))
      && AtPrecedingTick(tracks, tpt, Playhead(r.times, r.cursors, clock))
  {
    var r := Pass(tracks, tpt, h);
    PassEffect(tracks, tpt, h);
    forall k | 0 <= k < |tracks|
      ensures r.times[k] == tpt[k] * TickSum(tracks[k][..r.cursors[k]])
    {
      if Pulls(tracks, h, k) {
        var c := h.cursors[k];
        TickSumStep(tracks[k], c);
        assert tpt[k] * (TickSum(tracks[k][..c]) + tracks[k][c].delta)
            == tpt[k] * TickSum(tracks[k][..c]) + tracks[k][c].delta * tpt[k];
      }
    }
  }

  /**
   * On a settled playhead whose times are at the preceding ticks, the event a
   * track yields is emitted at the absolute time of the event before it:
   * its own delta times the time per tick too early.
   */
  lemma EventFiresOneDeltaEarly(tracks: seq<Track>, tpt: seq<nat>, h: Playhead, k: nat)
    requires WellFormed(tracks, tpt, h) && Settled(h) && AtPrecedingTick(tracks, tpt, h)
    requires k < |tracks| && Pulls(tracks, h, k)
    ensures var c := h.cursors[k];
      && h.full == tpt[k] * TickSum(tracks[k][..c])
      && tpt[k] * TickSum(tracks[k][..c + 1]) == h.full + tracks[k][c].delta * tpt[k]
  {
    var c := h.cursors[k];
    TickSumStep(tracks[k], c);
    assert tpt[k] * (TickSum(tracks[k][..c]) + tracks[k][c].delta)
        == tpt[k] * TickSum(tracks[k][..c]) + tracks[k][c].delta * tpt[k];
  }

  /** A track that plays a note and ends five ticks later. */
  const LateEnd: Track := [TrackEvent(0, Midi(0, NoteOn(60, 100))), TrackEvent(5, Meta(EndOfTrack))]

  /** A track that ends at once. */
  const EarlyEnd: Track := [TrackEvent(0, Meta(EndOfTrack))]

  lemma FirstPassOfUnequalEnds()
    ensures Pass([LateEnd, EarlyEnd], [1, 1], Playhead([0, 0], [0, 0], 0))
         == PassResult([0, 0], [1, 1], 0, [Fired(0, [NoteOnStatus, 60, 100])])
  {
    var tracks, tpt, h := [LateEnd, EarlyEnd], [1, 1], Playhead([0, 0], [0, 0], 0);
    assert Pulls(tracks, h, 0) && Pulls(tracks, h, 1);
    assert NextTimes(tracks, tpt, h, 1) == [0];
    assert NextTimes(tracks, tpt, h, 2) == [0, 0];
    assert NextCursors(tracks, tpt, h, 1) == [1];
    assert NextCursors(tracks, tpt, h, 2) == [1, 1];
    assert FinishedBefore(tracks, tpt, h, 1) == 0;
    assert FiredBefore(tracks, tpt, h, 1) == [Fired(0, [NoteOnStatus, 60, 100])];
  }

  lemma SecondPassOfUnequalEnds()
    ensures Pass([LateEnd, EarlyEnd], [1, 1], Playhead([0, 0], [1, 1], 0))
         == PassResult([5, 0], [2, 1], 1, [])
  {
    var tracks, tpt, h := [LateEnd, EarlyEnd], [1, 1], Playhead([0, 0], [1, 1], 0);
    assert Pulls(tracks, h, 0) && Exhausted(tracks, h, 1);
    assert NextTimes(tracks, tpt, h, 1) == [5];
    assert NextTimes(tracks, tpt, h, 2) == [5, 0];
    assert NextCursors(tracks, tpt, h, 1) == [2];
    assert NextCursors(tracks, tpt, h, 2) == [2, 1];
    assert FinishedBefore(tracks, tpt, h, 1) == 0;
    assert FiredBefore(tracks, tpt, h, 1) == [];
  }

  /** The first iteration plays the note; the clock stays at 0. */
  lemma UnequalEndsFirstStep(fuel: nat)
    requires fuel > 0
    ensures Run([LateEnd, EarlyEnd], [1, 1], Start(2, 0), fuel)
         == RunFrom([LateEnd, EarlyEnd], [1, 1], Playhead([0, 0], [1, 1], 0), fuel - 1, [Fired(0, [NoteOnStatus, 60, 100])])
  {
    var fired := [Fired(0, [NoteOnStatus, 60, 100])];
    assert Start(2, 0) == Playhead([0, 0], [0, 0], 0);
    FirstPassOfUnequalEnds();
    RunContinues([LateEnd, EarlyEnd], [1, 1], Start(2, 0), fuel, [], [0, 0], [1, 1], 0, fired);
    assert Min([0, 0]) == 0 && [] + fired == fired;
  }

  /** The second iteration finishes the second track and moves the first one to tick 5; the clock stays at 0. */
  lemma UnequalEndsSecondStep(fuel: nat, acc: seq<Fired>)
    requires fuel > 0
    ensures RunFrom([LateEnd, EarlyEnd], [1, 1], Playhead([0, 0], [1, 1], 0), fuel, acc)
         == RunFrom([LateEnd, EarlyEnd], [1, 1], Playhead([5, 0], [2, 1], 0), fuel - 1, acc)
  {
    SecondPassOfUnequalEnds();
    RunContinues([LateEnd, EarlyEnd], [1, 1], Playhead([0, 0], [1, 1], 0), fuel, acc, [5, 0], [2, 1], 1, []);
    assert Min([5, 0]) == 0 && acc + [] == acc;
  }

  /** From there on the second track is exhausted at the clock and the first one is ahead of it. */
  lemma UnequalEndsStall(fuel: nat, acc: seq<Fired>)
    ensures !RunFrom([LateEnd, EarlyEnd], [1, 1], Playhead([5, 0], [2, 1], 0), fuel, acc).finished
  {
    var tracks, h := [LateEnd, EarlyEnd], Playhead([5, 0], [2, 1], 0);
    assert Exhausted(tracks, h, 1);
    Stalls(tracks, [1, 1], h, fuel, acc, 1, 0);
  }

  /**
   * Two tracks that end at different times: the first plays a note and ends
   * five ticks later, the second ends at once. The loop never reports that
   * it finished, however many iterations it is given.
   */
  lemma UnequalEndsNeverFinish(fuel: nat)
    ensures !Run([LateEnd, EarlyEnd], [1, 1], Start(2, 0), fuel).finished
  {
    var fired := [Fired(0, [NoteOnStatus, 60, 100])];
    if fuel == 1 {
      UnequalEndsFirstStep(fuel);
    } else if fuel > 1 {
      var rest := fuel - 2;
      UnequalEndsFirstStep(rest + 2);
      UnequalEndsSecondStep(rest + 1, fired);
      UnequalEndsStall(rest, fired);
    }
  }

  /** Later iterations only append to the messages already emitted. */
  lemma {:induction false} RunKeepsEmitted(tracks: seq<Track>, tpt: seq<nat>, h: Playhead, fuel: nat, acc: seq<Fired>)
    requires WellFormed(tracks, tpt, h)
    ensures var r := RunFrom(tracks, tpt, h, fuel, acc).fired;
      |acc| <= |r| && r[..|acc|] == acc
    decreases fuel
  {
    if fuel > 0 {
      var p := Pass(tracks, tpt, h);
      assert (acc + p.fired)[..|acc|] == acc;
      if p.finished != |tracks| {
        var next := Playhead(p.times, p.cursors, Min(p.times));
        RunContinues(tracks, tpt, h, fuel, acc, p.times, p.cursors, p.finished, p.fired);
        RunKeepsEmitted(tracks, tpt, next, fuel - 1, acc + p.fired);
        var r := RunFrom(tracks, tpt, next, fuel - 1, acc + p.fired).fired;
        assert r[..|acc|] == r[..|acc + p.fired|][..|acc|];
      }
    }
  }

  /** A track with two notes, the second 96 ticks after the first. */
  const TwoNotes: Track := [TrackEvent(0, Midi(0, NoteOn(60, 100))), TrackEvent(96, Midi(0, NoteOn(62, 100)))]

  lemma FirstPassOfTwoNotes()
    ensures Pass([TwoNotes], [1], Playhead([0], [0], 0))
         == PassResult([0], [1], 0, [Fired(0, [NoteOnStatus, 60, 100])])
  {
    var tracks, tpt, h := [TwoNotes], [1], Playhead([0], [0], 0);
    assert Pulls(tracks, h, 0);
    assert NextTimes(tracks, tpt, h, 1) == [0];
    assert NextCursors(tracks, tpt, h, 1) == [1];
    assert FinishedBefore(tracks, tpt, h, 1) == 0;
    assert FiredBefore(tracks, tpt, h, 1) == [Fired(0, [NoteOnStatus, 60, 100])];
  }

  lemma SecondPassOfTwoNotes()
    ensures Pass([TwoNotes], [1], Playhead([0], [1], 0))
         == PassResult([96], [2], 0, [Fired(0, [NoteOnStatus, 62, 100])])
  {
    var tracks, tpt, h := [TwoNotes], [1], Playhead([0], [1], 0);
    assert Pulls(tracks, h, 0);
    assert NextTimes(tracks, tpt, h, 1) == [96];
    assert NextCursors(tracks, tpt, h, 1) == [2];
    assert FinishedBefore(tracks, tpt, h, 1) == 0;
    assert FiredBefore(tracks, tpt, h, 1) == [Fired(0, [NoteOnStatus, 62, 100])];
  }

  /**
   * At one microsecond per tick, the second note of `TwoNotes` lies at tick
   * 96, yet the loop emits it at time 0 together with the first.
   */
  lemma SecondNoteFiresAtZero(fuel: nat)
    requires fuel >= 2
    ensures TickSum(TwoNotes) == 96
    ensures var r := Run([TwoNotes], [1], Start(1, 0), fuel).fired;
      |r| >= 2 && r[0] == Fired(0, [NoteOnStatus, 60, 100]) && r[1] == Fired(0, [NoteOnStatus, 62, 100])
  {
    assert TwoNotes[..1] == TwoNotes[..2][..1];
    assert TwoNotes == TwoNotes[..2];
    var first, second := [Fired(0, [NoteOnStatus, 60, 100])], [Fired(0, [NoteOnStatus, 62, 100])];
    assert Start(1, 0) == Playhead([0], [0], 0);
    FirstPassOfTwoNotes();
    RunContinues([TwoNotes], [1], Start(1, 0), fuel, [], [0], [1], 0, first);
    assert Min([0]) == 0 && [] + first == first;
    SecondPassOfTwoNotes();
    RunContinues([TwoNotes], [1], Playhead([0], [1], 0), fuel - 1, first, [96], [2], 0, second);
    assert Min([96]) == 96;
    RunKeepsEmitted([TwoNotes], [1], Playhead([96], [2], 96), fuel - 2, first + second);
  }

  /** An iteration in which every track finished ends the run. */
  lemma RunFinishes(tracks: seq<Track>, tpt: seq<nat>, h: Playhead, fuel: nat, acc: seq<Fired>,
                    times: seq<nat>, cursors: seq<nat>, finished: nat, fired: seq<Fired>)
    requires WellFormed(tracks, tpt, h) && fuel > 0
    requires PassResult(times, cursors, finished, fired) == Pass(tracks, tpt, h)
    requires finished == |tracks|
    ensures RunFrom(tracks, tpt, h, fuel, acc) == Outcome(acc + fired, true)
  {
  }

  /** Any other iteration moves the clock to the smallest next time and continues. */
  lemma RunContinues(tracks: seq<Track>, tpt: seq<nat>, h: Playhead, fuel: nat, acc: seq<Fired>,
                     times: seq<nat>, cursors: seq<nat>, finished: nat, fired: seq<Fired>)
    requires WellFormed(tracks, tpt, h) && fuel > 0
    requires PassResult(times, cursors, finished, fired) == Pass(tracks, tpt, h)
    requires finished != |tracks|
    ensures |times| > 0 && WellFormed(tracks, tpt, Playhead(times, cursors, Min(times)))
    ensures RunFrom(tracks, tpt, h, fuel, acc)
         == RunFrom(tracks, tpt, Playhead(times, cursors, Min(times)), fuel - 1, acc + fired)
  {
  }

  method PlayArrangement(arrangements: seq<Arrangement.TrackPlus>, tempo: nat, trackTime: nat, fuel: nat)
    returns (fired: seq<Fired>, finished: bool)
    ensures Outcome(fired, finished)
         == Run(TracksOf(arrangements), TimesPerTick(arrangements, tempo), Start(|arrangements|, trackTime), fuel)
  {
    var n := |arrangements|;
    var tracks := TracksOf(arrangements);
    var fullTrackTime := trackTime;
    var nextTrackTimes := Zeros(n);
    var trackIterators := Zeros(n);
    var timePerTicks := ComputeTimesPerTick(arrangements, tempo);
    ghost var whole := Run(tracks, timePerTicks, Start(n, trackTime), fuel);
    fired := [];
    var steps := 0;
    while steps < fuel
      invariant steps <= fuel
      invariant WellFormed(tracks, timePerTicks, Playhead(nextTrackTimes, trackIterators, fullTrackTime))
      invariant RunFrom(tracks, timePerTicks, Playhead(nextTrackTimes, trackIterators, fullTrackTime), fuel - steps, fired)
             == whole
    {
      ghost var h := Playhead(nextTrackTimes, trackIterators, fullTrackTime);
      ghost var before := fired;
      var numFinishedTracks, passFired;
      nextTrackTimes, trackIterators, numFinishedTracks, passFired :=
        PassOver(tracks, timePerTicks, nextTrackTimes, trackIterators, fullTrackTime);
      fired := fired + passFired;
      if numFinishedTracks == n {
        RunFinishes(tracks, timePerTicks, h, fuel - steps, before,
                    nextTrackTimes, trackIterators, numFinishedTracks, passFired);
        finished := true;
        return;
      }
      RunContinues(tracks, timePerTicks, h, fuel - steps, before,
                   nextTrackTimes, trackIterators, numFinishedTracks, passFired);
      fullTrackTime := Min(nextTrackTimes);
      steps := steps + 1;
    }
    finished := false;
  }
}
