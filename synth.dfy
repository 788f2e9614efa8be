/**
 * The voice registry of synth.rs: a map from source id (the MIDI key) to the
 * note sounding under it, each note shaped by an attack-decay-sustain-release
 * envelope. Wall-clock time is an explicit `now` (seconds); the audio sink of
 * a note is an opaque id, and the volume written to it is returned by Update.
 */
module Synth {
  import opened Wrappers
  import opened Midi

  /** Attack, decay and release in seconds; sustain a gain fraction. */
  datatype Envelope = Envelope(attack: real, decay: real, sustain: real, release: real)

  /** Envelopes with non-negative durations and a sustain level in [0, 1]. */
  predicate ValidEnvelope(env: Envelope) {
    env.attack >= 0.0 && env.decay >= 0.0 && env.release >= 0.0 && 0.0 <= env.sustain <= 1.0
  }

  /** Seconds a released note is kept after its release ramp before it is reaped. */
  const ReapMargin: real := 0.1

  /** Stands for the rodio sink the note plays through. */
  type SinkId = nat

  datatype ActiveNote = ActiveNote(
    envelope: Envelope,
    startTime: real,
    isReleasing: bool,
    timeReleased: Option<real>,
    sink: SinkId)

  /** A volume as an f32 can hold it here: a number, or the NaN of 0.0 / 0.0. */
  datatype Volume = Level(value: real) | NotANumber

  /** `Instant::duration_since`, which saturates at zero instead of going negative. */
  function Since(now: real, earlier: real): (d: real)
    ensures d >= 0.0
    ensures now >= earlier ==> d == now - earlier
    ensures now <= earlier ==> d == 0.0
  {
    if now >= earlier then now - earlier else 0.0
  }

  function RealMin(a: real, b: real): (m: real) {
    if a <= b then a else b
  }

  function TimeSinceStart(note: ActiveNote, now: real): (d: real) {
    Since(now, note.startTime)
  }

  /** `time_since_release().unwrap_or(0.0)`: zero for a note never released. */
  function TimeSinceRelease(note: ActiveNote, now: real): (d: real) {
    match note.timeReleased
    case Some(t) => Since(now, t)
    case None => 0.0
  }

  /**
   * The volume of a note `elapsed` seconds after it started, `sinceRelease`
   * seconds after it was released. The release branch is tried only after the
   * attack and decay branches, and the release ramp divides by `release`, so a
   * zero release yields 0.0 / 0.0. Nothing is clamped.
   */
  function Gain(env: Envelope, elapsed: real, releasing: bool, sinceRelease: real): (v: Volume)
    requires elapsed >= 0.0 && sinceRelease >= 0.0
    ensures v.NotANumber? <==>
      releasing && elapsed >= env.attack && elapsed >= env.attack + env.decay && env.release == 0.0
  {
    if elapsed < env.attack then
      Level(elapsed / env.attack)
    else if elapsed < env.attack + env.decay then
      Level(1.0 - (elapsed - env.attack) / env.decay * (1.0 - env.sustain))
    else if releasing then
      var r := RealMin(sinceRelease, env.release);
      if env.release == 0.0 then NotANumber else Level(env.sustain - r / env.release * env.sustain)
    else
      Level(env.sustain)
  }

  function NoteVolume(note: ActiveNote, now: real): (v: Volume) {
    Gain(note.envelope, TimeSinceStart(note, now), note.isReleasing, TimeSinceRelease(note, now))
  }

  /** A note is reaped once it is releasing and its release ramp plus the margin has passed. */
  predicate Expired(note: ActiveNote, now: real) {
    note.isReleasing && TimeSinceRelease(note, now) >= note.envelope.release + ReapMargin
  }

  // ---------------------------------------------------------------------------
  // The envelope, phase by phase

  /** Attack: the gain ramps linearly from 0 towards 1; a zero attack is never entered. */
  lemma AttackPhase(env: Envelope, elapsed: real, releasing: bool, sinceRelease: real)
    requires 0.0 <= elapsed < env.attack && sinceRelease >= 0.0
    ensures Gain(env, elapsed, releasing, sinceRelease) == Level(elapsed / env.attack)
    ensures 0.0 <= elapsed / env.attack < 1.0
  {
  }

  /** Decay: from 1 down towards sustain, staying between the two. */
  lemma DecayPhase(env: Envelope, elapsed: real, releasing: bool, sinceRelease: real)
    requires env.attack <= elapsed < env.attack + env.decay
    requires elapsed >= 0.0 && sinceRelease >= 0.0 && 0.0 <= env.sustain <= 1.0
    ensures var v := Gain(env, elapsed, releasing, sinceRelease);
      v.Level? && env.sustain <= v.value <= 1.0
  {
    var f := (elapsed - env.attack) / env.decay;
    assert 0.0 <= f < 1.0;
    ScaledFraction(f, 1.0 - env.sustain);
  }

  /** A fraction of a non-negative amount lies between zero and that amount. */
  lemma ScaledFraction(f: real, c: real)
    requires 0.0 <= f <= 1.0 && c >= 0.0
    ensures 0.0 <= f * c <= c
  {
    assert c - f * c == (1.0 - f) * c;
  }

  /** A release request changes nothing while the attack or decay ramp is running. */
  lemma ReleaseIgnoredBeforeSustain(env: Envelope, elapsed: real, sinceRelease: real)
    requires 0.0 <= elapsed < env.attack + env.decay && sinceRelease >= 0.0
    ensures Gain(env, elapsed, true, sinceRelease) == Gain(env, elapsed, false, 0.0)
  {
  }

  /** Sustain: held at the sustain level for as long as the note is not released. */
  lemma SustainPhase(env: Envelope, elapsed: real, sinceRelease: real)
    requires elapsed >= 0.0 && elapsed >= env.attack && elapsed >= env.attack + env.decay
    requires sinceRelease >= 0.0
    ensures Gain(env, elapsed, false, sinceRelease) == Level(env.sustain)
  {
  }

  /** The release ramp's arithmetic: `s - r / rel * s` runs from `s` down to 0 as `r` goes from 0 to `rel`. */
  lemma ReleaseRamp(s: real, r: real, rel: real)
    requires rel > 0.0 && 0.0 <= r <= rel && 0.0 <= s <= 1.0
    ensures 0.0 <= s - r / rel * s <= s
    ensures r == rel ==> s - r / rel * s == 0.0
  {
    var f := r / rel;
    assert f * rel == r;
    ScaledFraction(f, s);
  }

  /**
   * Release: the time since release is clamped at `release`, so the gain ramps
   * from sustain down to 0 and stays at exactly 0 once `release` has passed.
   */
  lemma ReleasePhase(env: Envelope, elapsed: real, sinceRelease: real)
    requires elapsed >= 0.0 && elapsed >= env.attack && elapsed >= env.attack + env.decay
    requires sinceRelease >= 0.0 && env.release > 0.0 && 0.0 <= env.sustain <= 1.0
    ensures var v := Gain(env, elapsed, true, sinceRelease);
      && v.Level? && 0.0 <= v.value <= env.sustain
      && (sinceRelease >= env.release ==> v.value == 0.0)
  {
    var r := RealMin(sinceRelease, env.release);
    ReleaseRamp(env.sustain, r, env.release);
  }

  /** With a zero release a released note past its decay has the volume 0.0 / 0.0. */
  lemma ZeroReleaseIsNotANumber(env: Envelope, elapsed: real, sinceRelease: real)
    requires elapsed >= 0.0 && elapsed >= env.attack && elapsed >= env.attack + env.decay
    requires sinceRelease >= 0.0 && env.release == 0.0
    ensures Gain(env, elapsed, true, sinceRelease) == NotANumber
  {
  }

  /** For an admissible envelope with a positive release, every gain lies in [0, 1]. */
  lemma {:induction false} GainInUnitRange(env: Envelope, elapsed: real, releasing: bool, sinceRelease: real)
    requires ValidEnvelope(env) && env.release > 0.0
    requires elapsed >= 0.0 && sinceRelease >= 0.0
    ensures var v := Gain(env, elapsed, releasing, sinceRelease); v.Level? && 0.0 <= v.value <= 1.0
  {
    if elapsed < env.attack {
      AttackPhase(env, elapsed, releasing, sinceRelease);
    } else if elapsed < env.attack + env.decay {
      DecayPhase(env, elapsed, releasing, sinceRelease);
    } else if releasing {
      ReleasePhase(env, elapsed, sinceRelease);
    }
  }

  /**
   * The gain as the envelope evidently intends it: a zero release cuts a
   * released note to silence at once instead of dividing 0.0 by 0.0.
   */
  function GainCorrected(env: Envelope, elapsed: real, releasing: bool, sinceRelease: real): (g: real)
    requires elapsed >= 0.0 && sinceRelease >= 0.0
    ensures releasing && elapsed >= env.attack && elapsed >= env.attack + env.decay && env.release == 0.0 ==> g == 0.0
  {
    if elapsed < env.attack then
      elapsed / env.attack
    else if elapsed < env.attack + env.decay then
      1.0 - (elapsed - env.attack) / env.decay * (1.0 - env.sustain)
    else if releasing then
      if env.release == 0.0 then 0.0
      else env.sustain - RealMin(sinceRelease, env.release) / env.release * env.sustain
    else
      env.sustain
  }

  /** Wherever the gain as written is a number, the corrected gain is that number. */
  lemma GainCorrectedAgrees(env: Envelope, elapsed: real, releasing: bool, sinceRelease: real)
    requires elapsed >= 0.0 && sinceRelease >= 0.0
    ensures var v := Gain(env, elapsed, releasing, sinceRelease);
      v.Level? ==> v.value == GainCorrected(env, elapsed, releasing, sinceRelease)
  {
  }

  /** For every admissible envelope, zero release included, the corrected gain lies in [0, 1]. */
  lemma GainCorrectedInUnitRange(env: Envelope, elapsed: real, releasing: bool, sinceRelease: real)
    requires ValidEnvelope(env) && elapsed >= 0.0 && sinceRelease >= 0.0
    ensures 0.0 <= GainCorrected(env, elapsed, releasing, sinceRelease) <= 1.0
  {
    if env.release > 0.0 {
      GainInUnitRange(env, elapsed, releasing, sinceRelease);
    } else if elapsed < env.attack {
      AttackPhase(env, elapsed, releasing, sinceRelease);
    } else if elapsed < env.attack + env.decay {
      DecayPhase(env, elapsed, releasing, sinceRelease);
    }
  }

  /**
   * A sample envelope: attack 0.1, decay 0.2, sustain 0.7, release 0.3, with
   * the note released at 1.0. It starts silent, peaks at the end of the
   * attack, sustains at 0.7, is silent once the release has run, and is
   * reaped 0.1 s after that.
   */
  lemma SampleEnvelope()
    ensures var env := Envelope(0.1, 0.2, 0.7, 0.3);
      && Gain(env, 0.0, false, 0.0) == Level(0.0)
      && Gain(env, 0.1, false, 0.0) == Level(1.0)
      && Gain(env, 0.3, false, 0.0) == Level(0.7)
      && Gain(env, 1.3, true, 0.3) == Level(0.0)
      && var note := ActiveNote(env, 0.0, true, Some(1.0), 0);
         !Expired(note, 1.39) && Expired(note, 1.4)
  {
  }

  // ---------------------------------------------------------------------------
  // The registry as values: what play, release and update do to the map

  type Notes = map<U8, ActiveNote>

  /** `play_source`: a fresh note under `id`, replacing any note there; other keys untouched. */
  function Played(notes: Notes, id: U8, env: Envelope, now: real, sink: SinkId): (r: Notes)
    ensures r.Keys == notes.Keys + {id}
    ensures r[id] == ActiveNote(env, now, false, None, sink)
    ensures forall k :: k in notes && k != id ==> r[k] == notes[k]
  {
    notes[id := ActiveNote(env, now, false, None, sink)]
  }

  /** `release_source`: a present note is marked releasing at `now`; an absent id changes nothing. */
  function Released(notes: Notes, id: U8, now: real): (r: Notes)
    ensures r.Keys == notes.Keys
    ensures forall k :: k in notes && k != id ==> r[k] == notes[k]
    ensures id in notes ==>
      && r[id].isReleasing && r[id].timeReleased == Some(now)
      && r[id].envelope == notes[id].envelope
      && r[id].startTime == notes[id].startTime
      && r[id].sink == notes[id].sink
  {
    if id in notes then notes[id := notes[id].(isReleasing := true, timeReleased := Some(now))]
    else notes
  }

  /** The second pass of `update`: exactly the expired notes are gone, the rest are kept as they were. */
  function Reaped(notes: Notes, now: real): (r: Notes)
    ensures r.Keys <= notes.Keys
    ensures forall k :: k in notes ==> (k in r <==> !Expired(notes[k], now))
    ensures forall k :: k in r ==> r[k] == notes[k]
  {
    map k | k in notes && !Expired(notes[k], now) :: notes[k]
  }

  /** The first pass of `update`: the volume each note's sink is set to. */
  function Volumes(notes: Notes, now: real): (r: map<U8, Volume>)
    ensures r.Keys == notes.Keys
  {
    map k | k in notes :: NoteVolume(notes[k], now)
  }

  /** Playing twice under one id leaves one note, carrying the second call's parameters. */
  lemma PlayReplaces(notes: Notes, id: U8, env1: Envelope, t1: real, s1: SinkId, env2: Envelope, t2: real, s2: SinkId)
    ensures Played(Played(notes, id, env1, t1, s1), id, env2, t2, s2) == Played(notes, id, env2, t2, s2)
  {
  }

  /** Releasing an id with no note neither fails nor creates a note. */
  lemma ReleaseUnknownIsNoOp(notes: Notes, id: U8, now: real)
    requires id !in notes
    ensures Released(notes, id, now) == notes
  {
  }

  /**
   * Release is not idempotent: a second release restamps the release time, so
   * the release ramp starts over from the sustain level.
   */
  lemma ReleaseTwiceRestamps(notes: Notes, id: U8, t1: real, t2: real)
    requires id in notes && t1 != t2
    ensures Released(Released(notes, id, t1), id, t2)[id].timeReleased == Some(t2)
    ensures Released(Released(notes, id, t1), id, t2) != Released(notes, id, t1)
  {
    assert Released(Released(notes, id, t1), id, t2)[id] != Released(notes, id, t1)[id];
  }

  /** A note that has not been released survives every update. */
  lemma HeldNotesAreKept(notes: Notes, now: real, id: U8)
    requires id in notes && !notes[id].isReleasing
    ensures id in Reaped(notes, now) && Reaped(notes, now)[id] == notes[id]
  {
  }

  /**
   * Lifecycle of one note: released at `t`, it is kept by every update before
   * `t + release + 0.1` and removed by every update from then on.
   */
  lemma ReapedExactlyAfterMargin(notes: Notes, id: U8, t: real, now: real)
    requires id in notes && now >= t
    ensures var m := Released(notes, id, t);
      id !in Reaped(m, now) <==> now - t >= notes[id].envelope.release + ReapMargin
  {
    var m := Released(notes, id, t);
    assert TimeSinceRelease(m[id], now) == now - t;
  }

  /**
   * Reaping does not wait for the decay ramp: with the envelope the listener
   * uses (decay 2 s, release 0), a note released half a second in is removed
   * at 0.6 s while its gain is still 0.7 on the decay ramp.
   */
  lemma ReapedDuringDecay()
    ensures var env := Envelope(0.0, 2.0, 0.0, 0.0);
      var m := Released(Played(map[], 60, env, 0.0, 0), 60, 0.5);
      && NoteVolume(m[60], 0.6) == Level(0.7)
      && 60 !in Reaped(m, 0.6)
  {
  }

  // ---------------------------------------------------------------------------
  // The registry as the object the source updates in place

  class Synth {
    var activeNotes: Notes

    constructor ()
      ensures activeNotes == map[]
    {
      activeNotes := map[];
    }

    method PlaySource(sourceId: U8, envelope: Envelope, sink: SinkId, now: real)
      modifies this
      ensures activeNotes == Played(old(activeNotes), sourceId, envelope, now, sink)
    {
      var activeNote := ActiveNote(envelope, now, false, None, sink);
      activeNotes := activeNotes[sourceId := activeNote];
    }

    method ReleaseSource(sourceId: U8, now: real)
      modifies this
      ensures activeNotes == Released(old(activeNotes), sourceId, now)
    {
      if sourceId in activeNotes {
        var activeNote := activeNotes[sourceId];
        activeNote := activeNote.(isReleasing := true);
        activeNote := activeNote.(timeReleased := Some(now));
        activeNotes := activeNotes[sourceId := activeNote];
      }
    }

    /**
     * The first pass of `update`: the volume every sink is set to (returned,
     * per source id) and the ids of the expired notes, in visiting order.
     */
    method SetVolumes(now: real) returns (volumes: map<U8, Volume>, toRemove: seq<U8>)
      ensures volumes == Volumes(activeNotes, now)
      ensures forall k :: k in toRemove <==> k in activeNotes && Expired(activeNotes[k], now)
    {
      toRemove := [];
      volumes := map[];
      var pending := activeNotes.Keys;
      while pending != {}
        invariant pending <= activeNotes.Keys
        invariant volumes.Keys == activeNotes.Keys - pending
        invariant forall k :: k in volumes ==> volumes[k] == NoteVolume(activeNotes[k], now)
        invariant forall k :: k in toRemove <==> k in activeNotes && k !in pending && Expired(activeNotes[k], now)
        decreases pending
      {
        var sourceId :| sourceId in pending;
        var activeNote := activeNotes[sourceId];
        var volume := NoteVolume(activeNote, now);
        volumes := volumes[sourceId := volume];
        if activeNote.isReleasing {
          if TimeSinceRelease(activeNote, now) >= activeNote.envelope.release + ReapMargin {
            toRemove := toRemove + [sourceId];
          }
        }
        pending := pending - {sourceId};
      }
    }

    /**
     * One tick: set every sink's volume while collecting the expired notes,
     * then remove those in a second pass.
     */
    method Update(now: real) returns (volumes: map<U8, Volume>)
      modifies this
      ensures volumes == Volumes(old(activeNotes), now)
      ensures activeNotes == Reaped(old(activeNotes), now)
    {
      var toRemove;
      volumes, toRemove := SetVolumes(now);
      ghost var expired := set k | k in toRemove;
      assert activeNotes - expired == Reaped(activeNotes, now);
      var j := 0;
      while j < |toRemove|
        invariant 0 <= j <= |toRemove|
        invariant activeNotes == old(activeNotes) - set k | k in toRemove[..j]
      {
        activeNotes := activeNotes - {toRemove[j]};
        j := j + 1;
      }
      assert toRemove[..j] == toRemove;
    }
  }
}
