/**
 * The two ends of the note-message bus of main.rs: `mildy_event_handler`,
 * which turns a file event into a 3-byte message, and the listener, which
 * turns a 3-byte message into a call on the synth.
 */
module EventHandler {
  import opened Wrappers
  import opened Midi
  import Synth

  /**
   * The message emitted for a file event: Note On with a non-zero velocity
   * becomes status 0x90, Note On with velocity 0 and Note Off become 0x80; the
   * channel is dropped and every other event emits nothing.
   */
  function Translate(kind: TrackEventKind): (r: Option<seq<U8>>)
    ensures r.Some? <==> kind.Midi? && (kind.message.NoteOn? || kind.message.NoteOff?)
    ensures r.Some? ==>
      && |r.value| == 3
      && (r.value[0] == NoteOnStatus || r.value[0] == NoteOffStatus)
      && r.value[1] == kind.message.key
      && r.value[2] == kind.message.vel
      && (r.value[0] == NoteOnStatus <==> kind.message.NoteOn? && kind.message.vel > 0)
  {
    match kind
    case Midi(_, NoteOn(key, vel)) =>
      if vel > 0 then Some([NoteOnStatus, key, vel]) else Some([NoteOffStatus, key, vel])
    case Midi(_, NoteOff(key, vel)) => Some([NoteOffStatus, key, vel])
    case _ => None
  }

  /** What the listener does with one message. */
  datatype Command = Play(key: U8) | Release(key: U8) | Ignore | Panic

  /** The envelope every note started by the listener gets. */
  const ListenerEnvelope: Synth.Envelope := Synth.Envelope(0.0, 2.0, 0.0, 0.0)

  /**
   * The listener's branch on the status byte. Bytes 1 and 2 are read (for the
   * pitch and the pressure) before the status is looked at, so a message
   * shorter than three bytes panics whatever its status.
   */
  function Dispatch(message: seq<U8>): (c: Command)
    ensures c.Panic? <==> |message| < 3
    ensures c.Play? <==> |message| >= 3 && message[0] == NoteOnStatus
    ensures c.Release? <==> |message| >= 3 && message[0] == NoteOffStatus
    ensures (c.Play? || c.Release?) ==> c.key == message[1]
  {
    if |message| < 3 then Panic
    else if message[0] == NoteOnStatus then Play(message[1])
    else if message[0] == NoteOffStatus then Release(message[1])
    else Ignore
  }

  /** The registry after the listener has handled a command. */
  function Apply(notes: Synth.Notes, c: Command, now: real, sink: Synth.SinkId): (after: Synth.Notes) {
    match c
    case Play(key) => Synth.Played(notes, key, ListenerEnvelope, now, sink)
    case Release(key) => Synth.Released(notes, key, now)
    case _ => notes
  }

  /**
   * File playback drives the synth as a live keyboard would: a sounding Note On
   * starts a note under its key, a silent Note On or a Note Off releases it,
   * and the channel plays no part.
   */
  lemma TranslateThenDispatch(kind: TrackEventKind)
    requires kind.Midi? && (kind.message.NoteOn? || kind.message.NoteOff?)
    ensures Translate(kind).Some?
    ensures Dispatch(Translate(kind).value) ==
      if kind.message.NoteOn? && kind.message.vel > 0 then Play(kind.message.key)
      else Release(kind.message.key)
    ensures forall channel: U4 :: Translate(Midi(channel, kind.message)) == Translate(kind)
  {
  }

  /**
   * On the live path nothing turns a silent Note On into a release: status
   * 0x90 with velocity 0 starts a (silent) note.
   */
  lemma LiveSilentNoteOnPlays(key: U8)
    ensures Dispatch([NoteOnStatus, key, 0]) == Play(key)
  {
  }

  /**
   * The listener closure: an Oscillator-backed note with the listener envelope
   * on 0x90, a release on 0x80. `sink` stands for the sink created for the note.
   */
  method OnMidiMessage(synth: Synth.Synth, message: seq<U8>, now: real, sink: Synth.SinkId)
    returns (panicked: bool)
    modifies synth
    ensures panicked <==> |message| < 3
    ensures synth.activeNotes == Apply(old(synth.activeNotes), Dispatch(message), now, sink)
  {
    if |message| < 3 {
      return true;
    }
    panicked := false;
    if message[0] == NoteOnStatus {
      synth.PlaySource(message[1], ListenerEnvelope, sink, now);
    }
    if message[0] == NoteOffStatus {
      synth.ReleaseSource(message[1], now);
    }
  }

  /** The listener as evidently intended: a message too short to be a note message is ignored. */
  function DispatchCorrected(message: seq<U8>): (c: Command)
    ensures !c.Panic?
    ensures |message| >= 3 ==> c == Dispatch(message)
    ensures |message| < 3 ==> c == Ignore
  {
    if |message| < 3 then Ignore else Dispatch(message)
  }

  /** A one-byte real-time message (timing clock, 0xF8) panics the listener as written. */
  lemma ClockBytePanics()
    ensures Dispatch([0xF8]) == Panic
    ensures DispatchCorrected([0xF8]) == Ignore
  {
  }
}
