/**
 * `get_midi_data` of main.rs: one scan over the tracks of a parsed file that
 * finds the tempo, the index of the track carrying it, and the length of the
 * longest track in ticks.
 */
module MidiFile {
  import opened Wrappers
  import opened Midi

  /** 500000 microseconds per quarter note: 120 beats per minute. */
  const DefaultTempo: nat := 500000

  datatype MidiData = MidiData(tempo: nat, lengthInTicks: nat, metaTrackIndex: Option<nat>)

  const Initial: MidiData := MidiData(DefaultTempo, 0, None)

  function Max(a: nat, b: nat): (m: nat) {
    if a >= b then a else b
  }

  // ---------------------------------------------------------------------------
  // The scan, as the loops perform it

  /**
   * The inner loop over the events of track `i`, from the current event on,
   * with `ticks` the ticks summed so far: a Tempo event overwrites the tempo and
   * the meta track index; the first End of Track records the length and stops.
   */
  function ScanTrack(acc: MidiData, i: nat, events: seq<TrackEvent>, ticks: nat): (data: MidiData)
    decreases |events|
  {
    if events == [] then acc
    else
      var ticks' := ticks + events[0].delta;
      match events[0].kind
      case Meta(Tempo(t)) => ScanTrack(acc.(tempo := t, metaTrackIndex := Some(i)), i, events[1..], ticks')
      case Meta(EndOfTrack) => if ticks' > acc.lengthInTicks then acc.(lengthInTicks := ticks') else acc
      case _ => ScanTrack(acc, i, events[1..], ticks')
  }

  /** The outer loop over the tracks from index `i` on. */
  function ScanTracks(acc: MidiData, tracks: seq<Track>, i: nat): (data: MidiData)
    requires i <= |tracks|
    decreases |tracks| - i
  {
    if i == |tracks| then acc else ScanTracks(ScanTrack(acc, i, tracks[i], 0), tracks, i + 1)
  }

  function MidiDataOf(tracks: seq<Track>): (data: MidiData) {
    ScanTracks(Initial, tracks, 0)
  }

  method GetMidiData(tracks: seq<Track>) returns (data: MidiData)
    ensures data == MidiDataOf(tracks)
  {
    var tempo := DefaultTempo;
    var lengthInTicks := 0;
    var metaTrackIndex: Option<nat> := None;
    var i := 0;
    while i < |tracks|
      invariant 0 <= i <= |tracks|
      invariant ScanTracks(MidiData(tempo, lengthInTicks, metaTrackIndex), tracks, i) == MidiDataOf(tracks)
    {
      var track := tracks[i];
      ghost var atStart := MidiData(tempo, lengthInTicks, metaTrackIndex);
      var lengthInTicksTmp: nat := 0;
      var j := 0;
      while j < |track|
        invariant 0 <= j <= |track|
        invariant ScanTrack(MidiData(tempo, lengthInTicks, metaTrackIndex), i, track[j..], lengthInTicksTmp)
               == ScanTrack(atStart, i, track, 0)
      {
        var event := track[j];
        assert track[j..][0] == event && track[j..][1..] == track[j + 1..];
        lengthInTicksTmp := lengthInTicksTmp + event.delta;
        match event.kind {
          case Meta(Tempo(t)) =>
            tempo := t;
            metaTrackIndex := Some(i);
          case Meta(EndOfTrack) =>
            if lengthInTicksTmp > lengthInTicks {
              lengthInTicks := lengthInTicksTmp;
            }
            break;
          case _ =>
        }
        j := j + 1;
      }
      i := i + 1;
    }
    data := MidiData(tempo, lengthInTicks, metaTrackIndex);
  }

  // ---------------------------------------------------------------------------
  // What a track contributes, defined without the scan

  /** The last Tempo before the track's first End of Track, if there is one. */
  function LastTempo(events: seq<TrackEvent>): (tempo: Option<nat>)
    decreases |events|
  {
    if events == [] then None
    else match events[0].kind
      case Meta(EndOfTrack) => None
      case Meta(Tempo(t)) => (var later := LastTempo(events[1..]); if later.Some? then later else Some(t))
      case _ => LastTempo(events[1..])
  }

  /** The tick at which the track's first End of Track stands, if it has one. */
  function EndTick(events: seq<TrackEvent>): (tick: Option<nat>)
    decreases |events|
  {
    if events == [] then None
    else if events[0].kind == Meta(EndOfTrack) then Some(events[0].delta)
    else match EndTick(events[1..])
      case Some(t) => Some(events[0].delta + t)
      case None => None
  }

  lemma {:induction false} ScanTrackSummary(acc: MidiData, i: nat, events: seq<TrackEvent>, ticks: nat)
    ensures var r := ScanTrack(acc, i, events, ticks);
      && (LastTempo(events).Some? ==> r.tempo == LastTempo(events).value && r.metaTrackIndex == Some(i))
      && (LastTempo(events).None? ==> r.tempo == acc.tempo && r.metaTrackIndex == acc.metaTrackIndex)
      && r.lengthInTicks == match EndTick(events)
           case Some(t) => Max(acc.lengthInTicks, ticks + t)
           case None => acc.lengthInTicks
    decreases |events|
  {
    if events != [] {
      var ticks' := ticks + events[0].delta;
      match events[0].kind
      case Meta(Tempo(t)) =>
        ScanTrackSummary(acc.(tempo := t, metaTrackIndex := Some(i)), i, events[1..], ticks');
      case Meta(EndOfTrack) =>
      case _ =>
        ScanTrackSummary(acc, i, events[1..], ticks');
    }
  }

  /** The length found from track `i` on is the largest End of Track tick among them, or what it was. */
  lemma {:induction false} ScanTracksLength(acc: MidiData, tracks: seq<Track>, i: nat)
    requires i <= |tracks|
    ensures var r := ScanTracks(acc, tracks, i);
      && r.lengthInTicks >= acc.lengthInTicks
      && (forall k :: i <= k < |tracks| && EndTick(tracks[k]).Some? ==> EndTick(tracks[k]).value <= r.lengthInTicks)
      && (r.lengthInTicks == acc.lengthInTicks
          || exists k :: i <= k < |tracks| && EndTick(tracks[k]) == Some(r.lengthInTicks))
    decreases |tracks| - i
  {
    if i < |tracks| {
      var next := ScanTrack(acc, i, tracks[i], 0);
      ScanTrackSummary(acc, i, tracks[i], 0);
      ScanTracksLength(next, tracks, i + 1);
    }
  }

  /** The tempo found from track `i` on is that of the last track reaching a Tempo, or what it was. */
  lemma {:induction false} ScanTracksTempo(acc: MidiData, tracks: seq<Track>, i: nat)
    requires i <= |tracks|
    ensures var r := ScanTracks(acc, tracks, i);
      && ((forall k :: i <= k < |tracks| ==> LastTempo(tracks[k]).None?) ==>
            r.tempo == acc.tempo && r.metaTrackIndex == acc.metaTrackIndex)
      && ((exists k :: i <= k < |tracks| && LastTempo(tracks[k]).Some?) ==>
            && r.metaTrackIndex.Some?
            && i <= r.metaTrackIndex.value < |tracks|
            && LastTempo(tracks[r.metaTrackIndex.value]) == Some(r.tempo)
            && forall k :: r.metaTrackIndex.value < k < |tracks| ==> LastTempo(tracks[k]).None?)
    decreases |tracks| - i
  {
    if i < |tracks| {
      var next := ScanTrack(acc, i, tracks[i], 0);
      ScanTrackSummary(acc, i, tracks[i], 0);
      ScanTracksTempo(next, tracks, i + 1);
    }
  }

  /** No Tempo reached in the scan: the default tempo and no meta track, and conversely. */
  lemma DefaultTempoWhenNoneReached(tracks: seq<Track>)
    ensures MidiDataOf(tracks).metaTrackIndex.None? <==>
      forall k :: 0 <= k < |tracks| ==> LastTempo(tracks[k]).None?
    ensures MidiDataOf(tracks).metaTrackIndex.None? ==> MidiDataOf(tracks).tempo == DefaultTempo
  {
    ScanTracksTempo(Initial, tracks, 0);
  }

  /**
   * The last Tempo reached in track-then-event order decides both the tempo
   * and the meta track index; no later track reaches a Tempo.
   */
  lemma LastTempoWins(tracks: seq<Track>)
    ensures var r := MidiDataOf(tracks);
      r.metaTrackIndex.Some? ==>
        && r.metaTrackIndex.value < |tracks|
        && LastTempo(tracks[r.metaTrackIndex.value]) == Some(r.tempo)
        && forall k :: r.metaTrackIndex.value < k < |tracks| ==> LastTempo(tracks[k]).None?
  {
    ScanTracksTempo(Initial, tracks, 0);
  }

  /**
   * The length is the largest End of Track tick over the tracks that have one,
   * and 0 when none has.
   */
  lemma LengthIsLatestEnd(tracks: seq<Track>)
    ensures var len := MidiDataOf(tracks).lengthInTicks;
      && (forall k :: 0 <= k < |tracks| && EndTick(tracks[k]).Some? ==> EndTick(tracks[k]).value <= len)
      && (len == 0 || exists k :: 0 <= k < |tracks| && EndTick(tracks[k]) == Some(len))
      && ((forall k :: 0 <= k < |tracks| ==> EndTick(tracks[k]).None?) ==> len == 0)
  {
    ScanTracksLength(Initial, tracks, 0);
  }

  /** Whatever follows a track's first End of Track is never looked at. */
  lemma {:induction false} TrailingEventsIgnored(events: seq<TrackEvent>, rest: seq<TrackEvent>)
    requires EndTick(events).Some?
    ensures LastTempo(events + rest) == LastTempo(events)
    ensures EndTick(events + rest) == EndTick(events)
    decreases |events|
  {
    assert (events + rest)[1..] == events[1..] + rest;
    if events[0].kind != Meta(EndOfTrack) {
      TrailingEventsIgnored(events[1..], rest);
    }
  }
}
