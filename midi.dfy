/**
 * The parsed shape of a Standard MIDI File as the player receives it from the
 * file parser: tracks of (delta, kind) events and the header timing. The byte
 * level parser is not part of this model; these types only carry the fields the
 * player reads, with the integer widths the parser guarantees.
 */
module Midi {
  type U4 = x: nat | x < 0x10
  type U7 = x: nat | x < 0x80
  type U8 = x: nat | x < 0x100
  type U14 = x: nat | x < 0x4000
  type U15 = x: nat | x < 0x8000
  type U24 = x: nat | x < 0x100_0000
  type U28 = x: nat | x < 0x1000_0000

  /** Channel voice messages (MIDI 1.0); only Note On and Note Off are told apart. */
  datatype MidiMessage =
    | NoteOff(key: U7, vel: U7)
    | NoteOn(key: U7, vel: U7)
    | Aftertouch(key: U7, vel: U7)
    | Controller(controller: U7, value: U7)
    | ProgramChange(program: U7)
    | ChannelAftertouch(vel: U7)
    | PitchBend(bend: U14)

  /** Meta events: Set Tempo (FF 51, microseconds per quarter note) and End of Track (FF 2F). */
  datatype MetaMessage = Tempo(microsPerBeat: U24) | EndOfTrack | OtherMeta

  datatype TrackEventKind =
    | Midi(channel: U4, message: MidiMessage)
    | SysEx
    | Escape
    | Meta(meta: MetaMessage)

  /** One event of a track: the ticks since the previous event and what happens. */
  datatype TrackEvent = TrackEvent(delta: U28, kind: TrackEventKind)

  type Track = seq<TrackEvent>

  /** SMPTE frame rates; 29 stands for 29.97 drop-frame. */
  datatype Fps = Fps24 | Fps25 | Fps29 | Fps30

  /** The header's timing: ticks per quarter note, or frames per second and ticks per frame. */
  datatype Timing = Metrical(ticksPerBeat: U15) | Timecode(fps: Fps, subframes: U8)

  /** The status bytes of the 3-byte messages the player emits (MIDI 1.0 channel 1). */
  const NoteOnStatus: U8 := 0x90
  const NoteOffStatus: U8 := 0x80
}
