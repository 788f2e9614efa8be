/**
 * The player state of main.rs and `file_upload`'s rebuild of the arrangement:
 * the tempo track is removed and every other track is tagged with the header
 * timing, replacing whatever arrangement was there.
 */
module Arrangement {
  import opened Wrappers
  import opened Midi
  import MidiFile

  /** A track to play together with the file's timing. */
  datatype TrackPlus = TrackPlus(track: Track, timing: Timing)

  function Tagged(tracks: seq<Track>, timing: Timing): (r: seq<TrackPlus>)
    ensures |r| == |tracks|
    ensures forall j :: 0 <= j < |r| ==> r[j] == TrackPlus(tracks[j], timing)
  {
    seq(|tracks|, j requires 0 <= j < |tracks| => TrackPlus(tracks[j], timing))
  }

  /**
   * The arrangement `file_upload` installs, or None where its `unwrap` of the
   * meta track index panics: the tracks without the tempo track, in order,
   * each tagged with the header timing.
   */
  function ArrangementOf(tracks: seq<Track>, timing: Timing): (r: Option<seq<TrackPlus>>)
    ensures r.None? <==> MidiFile.MidiDataOf(tracks).metaTrackIndex.None?
    ensures r.Some? ==>
      var k := MidiFile.MidiDataOf(tracks).metaTrackIndex.value;
      && k < |tracks|
      && |r.value| == |tracks| - 1
      && forall j :: 0 <= j < |r.value| ==>
           r.value[j] == TrackPlus(if j < k then tracks[j] else tracks[j + 1], timing)
  {
    match MidiFile.MidiDataOf(tracks).metaTrackIndex
    case None => None
    case Some(k) =>
      MidiFile.LastTempoWins(tracks);
      Some(Tagged(tracks[..k] + tracks[k + 1..], timing))
  }

  /** A file whose tracks reach no Tempo makes `file_upload` panic. */
  lemma NoTempoTrackPanics()
    ensures var tracks := [[TrackEvent(0, Meta(EndOfTrack))]];
      ArrangementOf(tracks, Metrical(96)).None?
  {
    var tracks := [[TrackEvent(0, Meta(EndOfTrack))]];
    MidiFile.DefaultTempoWhenNoneReached(tracks);
  }

  /**
   * The arrangement as evidently intended: the tempo track, when there is one,
   * is left out; without one every track is played.
   */
  function ArrangementCorrected(tracks: seq<Track>, timing: Timing): (r: seq<TrackPlus>)
    ensures MidiFile.MidiDataOf(tracks).metaTrackIndex.None? ==> r == Tagged(tracks, timing)
    ensures MidiFile.MidiDataOf(tracks).metaTrackIndex.Some? ==> r == ArrangementOf(tracks, timing).value
  {
    match ArrangementOf(tracks, timing)
    case None => Tagged(tracks, timing)
    case Some(arrangement) => arrangement
  }

  /** The shared player state; `tempo` starts at 120 beats per minute. */
  class MidiPlayerState {
    var arrangements: seq<TrackPlus>
    var tempo: nat
    var trackTime: nat
    var lengthInTicks: nat

    constructor ()
      ensures arrangements == [] && tempo == MidiFile.DefaultTempo
      ensures trackTime == 0 && lengthInTicks == 0
    {
      arrangements := [];
      tempo := MidiFile.DefaultTempo;
      trackTime := 0;
      lengthInTicks := 0;
    }

    /**
     * `file_upload` from the parsed file on: the scan, the removal of the meta
     * track (a panic, leaving the state as it was, when there is none), and the
     * rebuild. The scanned tempo and length are not stored.
     */
    method FileUpload(tracks: seq<Track>, timing: Timing) returns (panicked: bool)
      modifies this
      ensures panicked <==> ArrangementOf(tracks, timing).None?
      ensures arrangements == if panicked then old(arrangements) else ArrangementOf(tracks, timing).value
      ensures tempo == old(tempo) && trackTime == old(trackTime) && lengthInTicks == old(lengthInTicks)
    {
      var data := MidiFile.GetMidiData(tracks);
      if data.metaTrackIndex.None? {
        return true;
      }
      panicked := false;
      MidiFile.LastTempoWins(tracks);
      var k := data.metaTrackIndex.value;
      var remaining := tracks[..k] + tracks[k + 1..];
      Rebuild(remaining, timing);
    }

    /** `clear()` then one `push` per remaining track. */
    method Rebuild(remaining: seq<Track>, timing: Timing)
      modifies this
      ensures arrangements == Tagged(remaining, timing)
      ensures tempo == old(tempo) && trackTime == old(trackTime) && lengthInTicks == old(lengthInTicks)
    {
      arrangements := [];
      var i := 0;
      while i < |remaining|
        invariant 0 <= i <= |remaining|
        invariant arrangements == Tagged(remaining[..i], timing)
        invariant tempo == old(tempo) && trackTime == old(trackTime) && lengthInTicks == old(lengthInTicks)
      {
        arrangements := arrangements + [TrackPlus(remaining[i], timing)];
        i := i + 1;
      }
      assert remaining[..i] == remaining;
    }

    /**
     * `file_upload` as evidently intended: no panic without a tempo track, and
     * the scanned tempo and length are stored for playback.
     */
    method FileUploadCorrected(tracks: seq<Track>, timing: Timing)
      modifies this
      ensures arrangements == ArrangementCorrected(tracks, timing)
      ensures tempo == MidiFile.MidiDataOf(tracks).tempo
      ensures lengthInTicks == MidiFile.MidiDataOf(tracks).lengthInTicks
      ensures trackTime == old(trackTime)
    {
      var data := MidiFile.GetMidiData(tracks);
      match data.metaTrackIndex {
        case None =>
          Rebuild(tracks, timing);
        case Some(k) =>
          MidiFile.LastTempoWins(tracks);
          Rebuild(tracks[..k] + tracks[k + 1..], timing);
      }
      tempo := data.tempo;
      lengthInTicks := data.lengthInTicks;
    }
  }

  /**
   * A file at 100 beats per minute (tempo 600000) is uploaded; the state keeps
   * 120 beats per minute, which is what playback then reads.
   */
  method UploadedTempoIsDropped() returns (stored: nat, scanned: nat)
    ensures stored == 500000 && scanned == 600000
  {
    var tracks := [
      [TrackEvent(0, Meta(Tempo(600000))), TrackEvent(0, Meta(EndOfTrack))],
      [TrackEvent(0, Midi(0, NoteOn(60, 100))), TrackEvent(96, Midi(0, NoteOff(60, 0))), TrackEvent(0, Meta(EndOfTrack))]
    ];
    var state := new MidiPlayerState();
    var panicked := state.FileUpload(tracks, Metrical(96));
    stored := state.tempo;
    var data := MidiFile.GetMidiData(tracks);
    scanned := data.tempo;
  }
}
