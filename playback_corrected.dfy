/**
 * The playback loop as it is evidently meant to work: every track keeps the
 * absolute time of the event it will yield next, the clock jumps to the
 * earliest such time among the tracks that still have events, every track
 * due at the clock yields its event, and the loop ends once every track has
 * yielded all of its events. Each yielded event is logged as a `Pull`.
 */
module PlaybackCorrected {
  import opened Wrappers
  import opened Midi
  import Playback

  /** `due[k]` is the absolute time of track `k`'s next event; `cursors[k]` its iterator. */
  datatype Schedule = Schedule(due: seq<nat>, cursors: seq<nat>)

  predicate Valid(tracks: seq<Track>, tpt: seq<nat>, s: Schedule) {
    && |tpt| == |tracks| && |s.due| == |tracks| && |s.cursors| == |tracks|
    && forall k :: 0 <= k < |tracks| ==> s.cursors[k] <= |tracks[k]|
  }

  /** Track `k` still has an event to yield. */
  predicate Pending(tracks: seq<Track>, s: Schedule, k: nat)
    requires k < |tracks| == |s.cursors|
  {
    s.cursors[k] < |tracks[k]|
  }

  /** The absolute time of the event at `index` of track `k`. */
  function EventTime(tracks: seq<Track>, tpt: seq<nat>, k: nat, index: nat): (time: nat)
    requires k < |tracks| == |tpt| && index < |tracks[k]|
  {
    tpt[k] * Playback.TickSum(tracks[k][..index + 1])
  }

  /** Every pending track is due at the absolute time of its next event. */
  predicate OnTime(tracks: seq<Track>, tpt: seq<nat>, s: Schedule)
    requires Valid(tracks, tpt, s)
  {
    forall k :: 0 <= k < |tracks| && Pending(tracks, s, k) ==> s.due[k] == EventTime(tracks, tpt, k, s.cursors[k])
  }

  function FirstDue(track: Track, tpt: nat): (due: nat) {
    if |track| > 0 then tpt * track[0].delta else 0
  }

  /** Every iterator at its first event, due at that event's delta. */
  function Initial(tracks: seq<Track>, tpt: seq<nat>): (s: Schedule)
    requires |tpt| == |tracks|
    ensures Valid(tracks, tpt, s)
  {
    var n := |tracks|;
    Schedule(seq(n, k requires 0 <= k < n => FirstDue(tracks[k], tpt[k])), Playback.Zeros(n))
  }

  lemma InitialOnTime(tracks: seq<Track>, tpt: seq<nat>)
    requires |tpt| == |tracks|
    ensures OnTime(tracks, tpt, Initial(tracks, tpt))
  {
    var s := Initial(tracks, tpt);
    forall k | 0 <= k < |tracks| && Pending(tracks, s, k)
      ensures s.due[k] == EventTime(tracks, tpt, k, 0)
    {
      Playback.TickSumStep(tracks[k], 0);
      assert tracks[k][..0] == [];
    }
  }

  /** The earliest due time among the pending tracks before index `i`. */
  function Earliest(tracks: seq<Track>, tpt: seq<nat>, s: Schedule, i: nat): (clock: Option<nat>)
    requires Valid(tracks, tpt, s) && i <= |tracks|
  {
    if i == 0 then None
    else
      var e := Earliest(tracks, tpt, s, i - 1);
      if !Pending(tracks, s, i - 1) then e
      else if e.None? || s.due[i - 1] < e.value then Some(s.due[i - 1])
      else e
  }

  /** Earliest finds nothing exactly when no track is pending, and otherwise the smallest due time. */
  lemma {:induction false} EarliestIsMinimum(tracks: seq<Track>, tpt: seq<nat>, s: Schedule, i: nat)
    requires Valid(tracks, tpt, s) && i <= |tracks|
    ensures var e := Earliest(tracks, tpt, s, i);
      && (e.None? <==> forall k :: 0 <= k < i ==> !Pending(tracks, s, k))
      && (e.Some? ==> exists k :: 0 <= k < i && Pending(tracks, s, k) && s.due[k] == e.value)
      && (e.Some? ==> forall k :: 0 <= k < i && Pending(tracks, s, k) ==> e.value <= s.due[k])
  {
    if i > 0 {
      EarliestIsMinimum(tracks, tpt, s, i - 1);
    }
  }

  /** Track `k` yields an event in a pass at `clock`. */
  predicate Due(tracks: seq<Track>, tpt: seq<nat>, s: Schedule, clock: nat, k: nat)
    requires Valid(tracks, tpt, s) && k < |tracks|
  {
    Pending(tracks, s, k) && s.due[k] <= clock
  }

  /** The due time after a pass: advanced by the delta of the event after the one yielded. */
  function NextDue(tracks: seq<Track>, tpt: seq<nat>, s: Schedule, clock: nat, k: nat): (due: nat)
    requires Valid(tracks, tpt, s) && k < |tracks|
  {
    var c := s.cursors[k];
    if Due(tracks, tpt, s, clock, k) && c + 1 < |tracks[k]| then s.due[k] + tracks[k][c + 1].delta * tpt[k]
    else s.due[k]
  }

  function NextCursor(tracks: seq<Track>, tpt: seq<nat>, s: Schedule, clock: nat, k: nat): (c: nat)
    requires Valid(tracks, tpt, s) && k < |tracks|
  {
    if Due(tracks, tpt, s, clock, k) then s.cursors[k] + 1 else s.cursors[k]
  }

  /** Which event of which track was yielded, and when. */
  datatype Pull = Pull(track: nat, index: nat, time: nat)

  /** The events yielded by the tracks before index `i` in a pass at `clock`. */
  function PullsBefore(tracks: seq<Track>, tpt: seq<nat>, s: Schedule, clock: nat, i: nat): (pulls: seq<Pull>)
    requires Valid(tracks, tpt, s) && i <= |tracks|
  {
    if i == 0 then []
    else
      PullsBefore(tracks, tpt, s, clock, i - 1)
      + if Due(tracks, tpt, s, clock, i - 1) then [Pull(i - 1, s.cursors[i - 1], clock)] else []
  }

  datatype Step = Step(next: Schedule, pulls: seq<Pull>)

  /** One pass over the tracks at `clock`. */
  function Pass(tracks: seq<Track>, tpt: seq<nat>, s: Schedule, clock: nat): (r: Step)
    requires Valid(tracks, tpt, s)
    ensures Valid(tracks, tpt, r.next)
  {
    var n := |tracks|;
    Step(
      Schedule(seq(n, k requires 0 <= k < n => NextDue(tracks, tpt, s, clock, k)),
               seq(n, k requires 0 <= k < n => NextCursor(tracks, tpt, s, clock, k))),
      PullsBefore(tracks, tpt, s, clock, n))
  }

  /** The number of events the tracks before index `i` have still to yield. */
  function Remaining(tracks: seq<Track>, tpt: seq<nat>, s: Schedule, i: nat): (count: nat)
    requires Valid(tracks, tpt, s) && i <= |tracks|
  {
    if i == 0 then 0 else Remaining(tracks, tpt, s, i - 1) + (|tracks[i - 1]| - s.cursors[i - 1])
  }

  lemma {:induction false} NothingRemains(tracks: seq<Track>, tpt: seq<nat>, s: Schedule, i: nat)
    requires Valid(tracks, tpt, s) && i <= |tracks|
    requires forall k :: 0 <= k < i ==> !Pending(tracks, s, k)
    ensures Remaining(tracks, tpt, s, i) == 0
  {
    if i > 0 {
      assert !Pending(tracks, s, i - 1);
      NothingRemains(tracks, tpt, s, i - 1);
    }
  }

  /** The pulls of a pass: tracks in increasing order, each due, at its cursor, at the clock. */
  predicate PassPulls(tracks: seq<Track>, tpt: seq<nat>, s: Schedule, clock: nat, pulls: seq<Pull>)
    requires Valid(tracks, tpt, s)
  {
    && (forall j :: 0 <= j < |pulls| ==>
          && pulls[j].track < |tracks| && Due(tracks, tpt, s, clock, pulls[j].track)
          && pulls[j].index == s.cursors[pulls[j].track] && pulls[j].time == clock)
    && (forall j1, j2 :: 0 <= j1 < j2 < |pulls| ==> pulls[j1].track < pulls[j2].track)
  }

  /** The pulls before index `i` are those of the due tracks among them, in increasing order. */
  lemma {:induction false} PullsBeforeSpec(tracks: seq<Track>, tpt: seq<nat>, s: Schedule, clock: nat, i: nat)
    requires Valid(tracks, tpt, s) && i <= |tracks|
    ensures var pulls := PullsBefore(tracks, tpt, s, clock, i);
      && PassPulls(tracks, tpt, s, clock, pulls)
      && (forall j :: 0 <= j < |pulls| ==> pulls[j].track < i)
  {
    if i > 0 {
      PullsBeforeSpec(tracks, tpt, s, clock, i - 1);
      var pulls := PullsBefore(tracks, tpt, s, clock, i);
      var prev := PullsBefore(tracks, tpt, s, clock, i - 1);
      assert forall j :: 0 <= j < |prev| ==> pulls[j] == prev[j];
    }
  }

  /** Every event yielded is one fewer to yield. */
  lemma {:induction false} PullsBeforeCount(tracks: seq<Track>, tpt: seq<nat>, s: Schedule, clock: nat, i: nat)
    requires Valid(tracks, tpt, s) && i <= |tracks|
    ensures Remaining(tracks, tpt, Pass(tracks, tpt, s, clock).next, i) + |PullsBefore(tracks, tpt, s, clock, i)|
         == Remaining(tracks, tpt, s, i)
  {
    if i > 0 {
      PullsBeforeCount(tracks, tpt, s, clock, i - 1);
    }
  }

  /** A pass in which some track is due yields something. */
  lemma {:induction false} PullsBeforeNonEmpty(tracks: seq<Track>, tpt: seq<nat>, s: Schedule, clock: nat, i: nat, k: nat)
    requires Valid(tracks, tpt, s) && k < i <= |tracks| && Due(tracks, tpt, s, clock, k)
    ensures |PullsBefore(tracks, tpt, s, clock, i)| > 0
  {
    if k < i - 1 {
      PullsBeforeNonEmpty(tracks, tpt, s, clock, i - 1, k);
    }
  }

  /** A pass at `clock` keeps every pending track due at its next event, and none of them before `clock`. */
  lemma PassKeepsOnTime(tracks: seq<Track>, tpt: seq<nat>, s: Schedule, clock: nat)
    requires Valid(tracks, tpt, s) && OnTime(tracks, tpt, s)
    requires forall k :: 0 <= k < |tracks| && Pending(tracks, s, k) ==> clock <= s.due[k]
    ensures var next := Pass(tracks, tpt, s, clock).next;
      && OnTime(tracks, tpt, next)
      && forall k :: 0 <= k < |tracks| && Pending(tracks, next, k) ==> clock <= next.due[k]
  {
    var next := Pass(tracks, tpt, s, clock).next;
    forall k | 0 <= k < |tracks| && Pending(tracks, next, k)
      ensures next.due[k] == EventTime(tracks, tpt, k, next.cursors[k]) && clock <= next.due[k]
    {
      var c := s.cursors[k];
      if Due(tracks, tpt, s, clock, k) {
        Playback.TickSumStep(tracks[k], c + 1);
        assert tpt[k] * (Playback.TickSum(tracks[k][..c + 1]) + tracks[k][c + 1].delta)
            == tpt[k] * Playback.TickSum(tracks[k][..c + 1]) + tracks[k][c + 1].delta * tpt[k];
      }
    }
  }

  /**
   * A pass at the earliest due time yields at least one event, yields each
   * event at its own absolute time, keeps every pending track due at its next
   * event, and does not move the earliest due time back.
   */
  lemma PassAtEarliest(tracks: seq<Track>, tpt: seq<nat>, s: Schedule, clock: nat)
    requires Valid(tracks, tpt, s) && OnTime(tracks, tpt, s)
    requires Earliest(tracks, tpt, s, |tracks|) == Some(clock)
    ensures var p := Pass(tracks, tpt, s, clock);
      && PassPulls(tracks, tpt, s, clock, p.pulls)
      && 0 < |p.pulls|
      && Remaining(tracks, tpt, p.next, |tracks|) + |p.pulls| == Remaining(tracks, tpt, s, |tracks|)
      && (forall j :: 0 <= j < |p.pulls| ==> clock == EventTime(tracks, tpt, p.pulls[j].track, p.pulls[j].index))
      && OnTime(tracks, tpt, p.next)
      && match Earliest(tracks, tpt, p.next, |tracks|) case Some(later) => clock <= later case None => true
  {
    var n := |tracks|;
    var p := Pass(tracks, tpt, s, clock);
    EarliestIsMinimum(tracks, tpt, s, n);
    PullsBeforeSpec(tracks, tpt, s, clock, n);
    PullsBeforeCount(tracks, tpt, s, clock, n);
    var first :| 0 <= first < n && Pending(tracks, s, first) && s.due[first] == clock;
    PullsBeforeNonEmpty(tracks, tpt, s, clock, n, first);
    forall j | 0 <= j < |p.pulls|
      ensures clock == EventTime(tracks, tpt, p.pulls[j].track, p.pulls[j].index)
    {
      var k := p.pulls[j].track;
      assert s.due[k] <= clock;
    }
    PassKeepsOnTime(tracks, tpt, s, clock);
    EarliestIsMinimum(tracks, tpt, p.next, n);
  }

  datatype Outcome = Outcome(pulls: seq<Pull>, finished: bool)

  /**
   * At most `fuel` passes after the events `acc` were yielded: the loop ends
   * when no track is pending; otherwise the clock moves to the earliest due
   * time and every track due by then yields its event.
   */
  function RunFrom(tracks: seq<Track>, tpt: seq<nat>, s: Schedule, fuel: nat, acc: seq<Pull>): (outcome: Outcome)
    requires Valid(tracks, tpt, s)
    decreases fuel
  {
    match Earliest(tracks, tpt, s, |tracks|)
    case None => Outcome(acc, true)
    case Some(clock) =>
      if fuel == 0 then Outcome(acc, false)
      else
        var p := Pass(tracks, tpt, s, clock);
        RunFrom(tracks, tpt, p.next, fuel - 1, acc + p.pulls)
  }

  /** The corrected playback of whole tracks from the start. */
  function Run(tracks: seq<Track>, tpt: seq<nat>, fuel: nat): (outcome: Outcome)
    requires |tpt| == |tracks|
  {
    RunFrom(tracks, tpt, Initial(tracks, tpt), fuel, [])
  }

  /** The total number of events in the tracks. */
  function EventCount(tracks: seq<Track>): (count: nat) {
    if |tracks| == 0 then 0 else EventCount(tracks[..|tracks| - 1]) + |tracks[|tracks| - 1]|
  }

  lemma {:induction false} InitialRemaining(tracks: seq<Track>, tpt: seq<nat>, i: nat)
    requires |tpt| == |tracks| && i <= |tracks|
    ensures Remaining(tracks, tpt, Initial(tracks, tpt), i) == EventCount(tracks[..i])
  {
    if i > 0 {
      InitialRemaining(tracks, tpt, i - 1);
      assert tracks[..i][..i - 1] == tracks[..i - 1];
    }
  }

  /** A logged pull names an event of the tracks and happened at that event's own time. */
  predicate Punctual(tracks: seq<Track>, tpt: seq<nat>, pull: Pull) {
    && pull.track < |tracks| == |tpt| && pull.index < |tracks[pull.track]|
    && pull.time == EventTime(tracks, tpt, pull.track, pull.index)
  }

  /** In order of time, and each track's events in their own order, each at most once. */
  predicate InOrder(pulls: seq<Pull>) {
    forall i, j :: 0 <= i < j < |pulls| ==>
      pulls[i].time <= pulls[j].time && (pulls[i].track == pulls[j].track ==> pulls[i].index < pulls[j].index)
  }

  /** What a run from `s` keeps about the pulls already logged. */
  predicate Logged(tracks: seq<Track>, tpt: seq<nat>, s: Schedule, acc: seq<Pull>)
    requires Valid(tracks, tpt, s)
  {
    && InOrder(acc)
    && (forall i :: 0 <= i < |acc| ==> Punctual(tracks, tpt, acc[i]) && acc[i].index < s.cursors[acc[i].track])
    && match Earliest(tracks, tpt, s, |tracks|)
       case Some(clock) => forall i :: 0 <= i < |acc| ==> acc[i].time <= clock
       case None => true
  }

  /** One pass at the earliest due time keeps what is logged. */
  lemma PassKeepsLogged(tracks: seq<Track>, tpt: seq<nat>, s: Schedule, clock: nat, acc: seq<Pull>)
    requires Valid(tracks, tpt, s) && OnTime(tracks, tpt, s) && Logged(tracks, tpt, s, acc)
    requires Earliest(tracks, tpt, s, |tracks|) == Some(clock)
    ensures var p := Pass(tracks, tpt, s, clock); Logged(tracks, tpt, p.next, acc + p.pulls)
  {
    var p := Pass(tracks, tpt, s, clock);
    PassAtEarliest(tracks, tpt, s, clock);
    var all := acc + p.pulls;
    forall i | 0 <= i < |all|
      ensures Punctual(tracks, tpt, all[i]) && all[i].index < p.next.cursors[all[i].track] && all[i].time <= clock
    {
      if i >= |acc| {
        assert all[i] == p.pulls[i - |acc|];
      } else {
        assert all[i] == acc[i];
      }
    }
    forall i, j | 0 <= i < j < |all|
      ensures all[i].time <= all[j].time && (all[i].track == all[j].track ==> all[i].index < all[j].index)
    {
      if j >= |acc| {
        assert all[j] == p.pulls[j - |acc|];
        if i >= |acc| {
          assert all[i] == p.pulls[i - |acc|];
        } else {
          assert all[i] == acc[i];
        }
      } else {
        assert all[i] == acc[i] && all[j] == acc[j];
      }
    }
  }

  /**
   * From an on-time schedule, a run with at least as many passes as events
   * remain finishes; a finished run has logged every remaining event, each at
   * its own time, in order of time, and each track's events in their order.
   */
  lemma {:induction false} RunFromPlaysAll(tracks: seq<Track>, tpt: seq<nat>, s: Schedule, fuel: nat, acc: seq<Pull>)
    requires Valid(tracks, tpt, s) && OnTime(tracks, tpt, s) && Logged(tracks, tpt, s, acc)
    ensures var r := RunFrom(tracks, tpt, s, fuel, acc);
      && (fuel >= Remaining(tracks, tpt, s, |tracks|) ==> r.finished)
      && (r.finished ==> |r.pulls| == |acc| + Remaining(tracks, tpt, s, |tracks|))
      && InOrder(r.pulls)
      && (forall i :: 0 <= i < |r.pulls| ==> Punctual(tracks, tpt, r.pulls[i]))
    decreases fuel
  {
    var e := Earliest(tracks, tpt, s, |tracks|);
    if e.None? {
      EarliestIsMinimum(tracks, tpt, s, |tracks|);
      NothingRemains(tracks, tpt, s, |tracks|);
    } else {
      var p := Pass(tracks, tpt, s, e.value);
      PassAtEarliest(tracks, tpt, s, e.value);
      if fuel > 0 {
        PassKeepsLogged(tracks, tpt, s, e.value, acc);
        RunFromPlaysAll(tracks, tpt, p.next, fuel - 1, acc + p.pulls);
      }
    }
  }

  /**
   * The corrected loop, given at least one pass per event, finishes, and
   * yields every event of every track exactly once in total number, each at
   * its own absolute time, in order of time.
   */
  lemma PlaysEveryEventOnTime(tracks: seq<Track>, tpt: seq<nat>, fuel: nat)
    requires |tpt| == |tracks| && fuel >= EventCount(tracks)
    ensures var r := Run(tracks, tpt, fuel);
      && r.finished
      && |r.pulls| == EventCount(tracks)
      && InOrder(r.pulls)
      && forall i :: 0 <= i < |r.pulls| ==> Punctual(tracks, tpt, r.pulls[i])
  {
    InitialOnTime(tracks, tpt);
    InitialRemaining(tracks, tpt, |tracks|);
    assert tracks[..|tracks|] == tracks;
    RunFromPlaysAll(tracks, tpt, Initial(tracks, tpt), fuel, []);
  }
}
