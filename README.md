# A verified model of the ui_synth player core

ui_synth is a small desktop synthesizer. A Rust back end holds a registry of
sounding notes, and each note is shaped by an attack-decay-sustain-release
envelope. A listener turns 3-byte note messages into plays and releases on
that registry. A Standard MIDI File player reads a parsed file, then
schedules the events of its tracks against a common clock and sends each one
down the same message path. This project models that core in Dafny and proves
what it does.

The modules follow the two source files:

- `Midi` (midi.dfy): the parsed file as the player receives it. Tracks are
  sequences of (delta, kind) events, and the header carries Metrical or
  Timecode timing. Fields have the integer widths the parser guarantees.
- `Synth` (synth.dfy, from `synth.rs`):
  - the envelope and its gain, phase by phase;
  - the registry as a map from key to note, with the value-level effect of
    play, release and the two passes of `update`;
  - the class `Synth`, whose methods change that map in place and are
    proved equal to those functions.
- `MidiFile` (midi_file.dfy): `get_midi_data`'s nested loops, proved against
  a forward scan. The scan is characterised by per-track reference
  definitions: the last Tempo and the End of Track tick.
- `EventHandler` (event_handler.dfy):
  - `mildy_event_handler`'s translation of an event into a message;
  - the listener's branch on the status byte;
  - the listener driving a `Synth` object.
- `Arrangement` (arrangement.dfy):
  - the player state as a class;
  - `file_upload`'s removal of the tempo track and rebuild of the
    arrangement.
- `Playback` (playback.dfy): `play_arrangement`.
  - The time per tick of each track.
  - One pass of the loop over the tracks, as a method proved against a
    function.
  - The whole loop under an iteration bound.
  - What the loop does with time: the clock never goes back, messages come
    out in time order, the clock stalls, and events fire one delta early.
- `PlaybackCorrected` (playback_corrected.dfy): the loop as it is evidently
  meant to work, with its termination and timing proved.

Time is a parameter: `now` in seconds for the synth, and microseconds counted
from the start of playback for the player. A note's audio sink is an opaque
id, and the volume `update` writes to each sink is returned instead.

In three places the code does not do what an attack-decay-sustain-release
envelope is usually taken to do, and the model follows the code:

- A second release restamps the release time. It is not idempotent.
- The gain is never clamped.
- A zero release divides 0.0 by 0.0 instead of jumping to silence.

The corrected members next to the literal ones state the intended behaviour.

## Model

| member | source | states |
|---|---|---|
| Synth.Gain | src-tauri/src/synth.rs:95-111 | the gain is NaN exactly when the note is released, past attack and decay, with a zero release |
| Synth.AttackPhase | src-tauri/src/synth.rs:95-97 | during the attack the gain is elapsed / attack, in [0, 1) |
| Synth.DecayPhase | src-tauri/src/synth.rs:98-100 | during the decay, with sustain in [0, 1], the gain lies between sustain and 1 |
| Synth.ReleaseIgnoredBeforeSustain | src-tauri/src/synth.rs:95-101 | while attack or decay is running, a released note has the same gain as a held one |
| Synth.SustainPhase | src-tauri/src/synth.rs:108-110 | past attack and decay, a held note's gain is the sustain level |
| Synth.ReleasePhase | src-tauri/src/synth.rs:101-107 | with a positive release, the released gain lies in [0, sustain] and is exactly 0 once release has passed |
| Synth.ZeroReleaseIsNotANumber | src-tauri/src/synth.rs:101-107 | with a zero release, a released note past its decay gets 0.0 / 0.0 |
| Synth.GainInUnitRange | src-tauri/src/synth.rs:95-111 | for non-negative durations, sustain in [0, 1] and a positive release, every gain is a number in [0, 1] |
| Synth.GainCorrected | src-tauri/src/synth.rs:101-107 | the corrected gain: a zero release gives silence for a released note past its decay |
| Synth.GainCorrectedAgrees | src-tauri/src/synth.rs:95-111 | wherever the written gain is a number, the corrected gain equals it |
| Synth.GainCorrectedInUnitRange | src-tauri/src/synth.rs:95-111 | for every admissible envelope, zero release included, the corrected gain lies in [0, 1] |
| Synth.SampleEnvelope | src-tauri/src/synth.rs:95-119 | the envelope (0.1, 0.2, 0.7, 0.3) gives gain 0 at the start, 1 at the end of the attack, 0.7 in sustain, and 0 once a release at 1.0 has run; the note is kept at 1.39 and reaped at 1.4 |
| Synth.Since | src-tauri/src/synth.rs:36-43 | an elapsed time is never negative: it saturates at 0 when the instant lies in the future. `TimeSinceStart` and `TimeSinceRelease` (with `unwrap_or(0.0)`, synth.rs:103-105 and 116) are built on it |
| Synth.Played | src-tauri/src/synth.rs:59-78 | after a play, the key holds a fresh note (given envelope, start now, not releasing, no release time); other keys are unchanged |
| Synth.Released | src-tauri/src/synth.rs:80-85 | a present note becomes releasing with release time now, and keeps its envelope, start and sink; other keys and absent ids are unchanged |
| Synth.Reaped | src-tauri/src/synth.rs:115-126 | a note is removed exactly when it is `Expired`, the test at synth.rs:115-116: releasing, with time since release at least release + 0.1; kept notes are unchanged |
| Synth.Volumes | src-tauri/src/synth.rs:90-113 | every note present gets a volume, its `NoteVolume` (the gain at its elapsed times), and no other key does |
| Synth.PlayReplaces | src-tauri/src/synth.rs:77 | playing twice under one key is the same as playing only the second time |
| Synth.ReleaseUnknownIsNoOp | src-tauri/src/synth.rs:80-81 | releasing an absent key leaves the registry unchanged |
| Synth.ReleaseTwiceRestamps | src-tauri/src/synth.rs:80-84 | a second release at another time overwrites the release time, so release is not idempotent |
| Synth.HeldNotesAreKept | src-tauri/src/synth.rs:115-119 | a note that is not releasing is never removed |
| Synth.ReapedExactlyAfterMargin | src-tauri/src/synth.rs:115-126 | a note released at t is removed at now exactly when now - t >= release + 0.1 |
| Synth.ReapedDuringDecay | src-tauri/src/synth.rs:95-126 | with the listener's envelope, a note released at 0.5 s is removed at 0.6 s while its gain is still 0.7 |
| Synth.Synth.constructor | src-tauri/src/synth.rs:52-57 | a new synth has no notes |
| Synth.Synth.PlaySource | src-tauri/src/synth.rs:59-78 | the registry becomes Played of the old registry |
| Synth.Synth.ReleaseSource | src-tauri/src/synth.rs:80-85 | the registry becomes Released of the old registry |
| Synth.Synth.SetVolumes | src-tauri/src/synth.rs:88-120 | the first pass gives each note its volume and collects exactly the ids of the expired notes |
| Synth.Synth.Update | src-tauri/src/synth.rs:87-127 | the volumes are those of the old registry; the registry becomes Reaped of the old one |
| MidiFile.GetMidiData | src-tauri/src/main.rs:343-368 | the nested loops with their break compute the forward scan over tracks, then events |
| MidiFile.ScanTrackSummary | src-tauri/src/main.rs:349-364 | one track's scan takes the track's last Tempo before End of Track and the index, and raises the length to that End of Track's tick |
| MidiFile.ScanTracksLength | src-tauri/src/main.rs:345-366 | the length is at least every scanned track's End of Track tick and equals one of them, or stays what it was |
| MidiFile.ScanTracksTempo | src-tauri/src/main.rs:344-366 | the tempo and index come from the last track that reaches a Tempo, or stay what they were |
| MidiFile.DefaultTempoWhenNoneReached | src-tauri/src/main.rs:344-356 | there is no meta track index exactly when no track reaches a Tempo, and then the tempo is 500000 |
| MidiFile.LastTempoWins | src-tauri/src/main.rs:347-361 | the meta track's last Tempo is the tempo, and no later track reaches a Tempo |
| MidiFile.LengthIsLatestEnd | src-tauri/src/main.rs:345-362 | the length is the largest End of Track tick over the tracks, and 0 when no track has one |
| MidiFile.TrailingEventsIgnored | src-tauri/src/main.rs:357-361 | events after a track's first End of Track change neither its tempo nor its length |
| EventHandler.Translate | src-tauri/src/main.rs:262-295 | a message exists only for Note On or Note Off; it is [status, key, vel], with status 0x90 exactly for a Note On with velocity > 0 and 0x80 otherwise |
| EventHandler.Dispatch | src-tauri/src/main.rs:323-335 | a message shorter than 3 bytes panics; status 0x90 plays message[1]; 0x80 releases message[1]; anything else is ignored |
| EventHandler.TranslateThenDispatch | src-tauri/src/main.rs:262-295 | a file's sounding Note On plays its key; a silent Note On or a Note Off releases it; the channel plays no part |
| EventHandler.LiveSilentNoteOnPlays | src-tauri/src/main.rs:326-331 | a live 0x90 message with velocity 0 starts a note |
| EventHandler.OnMidiMessage | src-tauri/src/main.rs:313-336 | the listener panics exactly on short messages; otherwise the synth's registry becomes `Apply` of the dispatched command: Played with the listener's envelope (0, 2, 0, 0) for a play, Released for a release, unchanged otherwise (main.rs:326-335) |
| EventHandler.DispatchCorrected | src-tauri/src/main.rs:323-324 | the corrected listener never panics: short messages are ignored and others dispatched as written |
| EventHandler.ClockBytePanics | src-tauri/src/main.rs:323-324 | the one-byte timing clock 0xF8 panics the listener as written and is ignored by the corrected one |
| Arrangement.ArrangementOf | src-tauri/src/main.rs:140-162 | None exactly when there is no meta track index; otherwise the tracks without the meta track, in order, each tagged with the timing |
| Arrangement.NoTempoTrackPanics | src-tauri/src/main.rs:140 | a file whose only track is an End of Track has no arrangement: the unwrap panics |
| Arrangement.ArrangementCorrected | src-tauri/src/main.rs:140-162 | without a tempo track every track is kept; with one, the arrangement is that of the written code |
| Arrangement.MidiPlayerState.constructor | src-tauri/src/main.rs:307-310 | the player state starts with no arrangement, tempo 500000, and time and length 0 |
| Arrangement.MidiPlayerState.FileUpload | src-tauri/src/main.rs:135-162 | the upload panics exactly when there is no arrangement; otherwise the arrangement is replaced; tempo, time and length never change |
| Arrangement.MidiPlayerState.Rebuild | src-tauri/src/main.rs:154-162 | clear and push leave exactly the remaining tracks, in order, tagged with the timing |
| Arrangement.MidiPlayerState.FileUploadCorrected | src-tauri/src/main.rs:135-162 | the corrected upload installs the corrected arrangement and stores the scanned tempo and length |
| Arrangement.UploadedTempoIsDropped | src-tauri/src/main.rs:135-140 | after uploading a file with tempo 600000, the state still holds 500000 |
| Playback.TimePerTick | src-tauri/src/main.rs:200-219 | the time per tick fits a u32; zero ticks per beat saturates; Timecode timing gives 0 |
| Playback.TimePerTickTruncates | src-tauri/src/main.rs:203 | for Metrical timing the time per tick is tempo / ticks per beat, rounded down |
| Playback.ComputeTimesPerTick | src-tauri/src/main.rs:193-219 | the loop gives every track its own time per tick, in track order |
| Playback.PassEffect | src-tauri/src/main.rs:224-239 | one pass: ineligible and exhausted tracks keep time and cursor; others advance one event by delta times time per tick; finished equals the track count exactly when every track was exhausted; every message, which `Emitted` builds from `mildy_event_handler`'s translation (main.rs:231), carries the current clock |
| Playback.PassOver | src-tauri/src/main.rs:223-239 | the in-place pass over the tracks computes Pass |
| Playback.Min | src-tauri/src/main.rs:256 | the result is an element, and no element is smaller |
| Playback.RunFinishes | src-tauri/src/main.rs:240-243 | unfolding step for the proof of PlayArrangement: a pass in which every track finished ends the loop |
| Playback.RunContinues | src-tauri/src/main.rs:240-256 | unfolding step for the proof of PlayArrangement: any other pass moves the clock to the smallest next time and continues |
| Playback.RunKeepsEmitted | src-tauri/src/main.rs:222-259 | later iterations only append to the messages already emitted |
| Playback.PlayArrangement | src-tauri/src/main.rs:185-259 | the loop emits exactly the messages of Run and reports whether it broke out |
| Playback.PassNeverRewinds | src-tauri/src/main.rs:224-231 | no track's next time goes down in a pass |
| Playback.ClockNeverGoesBack | src-tauri/src/main.rs:256 | from a settled playhead, the next clock is not earlier and the playhead is settled again |
| Playback.RunIsChronological | src-tauri/src/main.rs:222-259 | from a settled playhead, the loop emits its messages in order of time |
| Playback.StallStep | src-tauri/src/main.rs:224-256 | with one track exhausted at the clock and another ahead, a pass does not finish and leaves the clock and both conditions as they were |
| Playback.Stalls | src-tauri/src/main.rs:240-256 | from such a playhead the loop never finishes, and every later message is emitted at that same clock |
| Playback.UnequalEndsNeverFinish | src-tauri/src/main.rs:240-256 | two tracks that end at ticks 5 and 0 never finish, for any number of iterations |
| Playback.StartsAtPrecedingTick | src-tauri/src/main.rs:187-192 | at the start every track's next time is the tick of no event, 0 |
| Playback.PassKeepsPrecedingTick | src-tauri/src/main.rs:229-230 | after a pass, every track's next time is still the absolute time of the last event it yielded |
| Playback.EventFiresOneDeltaEarly | src-tauri/src/main.rs:225-231 | a yielded event is emitted at the time of the event before it, which is its own delta times the time per tick too early |
| Playback.SecondNoteFiresAtZero | src-tauri/src/main.rs:222-259 | a run from the start over [Note On +0, Note On +96], at one microsecond per tick, emits the second note at time 0, although its tick is 96 |
| PlaybackCorrected.EarliestIsMinimum | src-tauri/src/main.rs:256 | the corrected clock exists exactly when some track is pending, and is the smallest due time among the pending tracks |
| PlaybackCorrected.PassAtEarliest | src-tauri/src/main.rs:224-239 | a corrected pass at the earliest due time yields at least one event, each at its own time, and keeps every track due at its next event without moving the clock back |
| PlaybackCorrected.RunFromPlaysAll | src-tauri/src/main.rs:222-259 | a corrected run with at least one pass per remaining event finishes; a finished run logs every remaining event, each on time, in order of time |
| PlaybackCorrected.PlaysEveryEventOnTime | src-tauri/src/main.rs:222-259 | with at least one pass per event, the corrected loop finishes and yields as many pulls as there are events. Each pull is on time, in order of time, and each track's events come in order |

## Left out

- Tauri: commands, `emit`, `emit_and_trigger`, `listen_global`, the JSON payload and its `unwrap`s, and window handles. This is an event bus and I/O. The message a handler emits is the value it returns.
- Live MIDI input through midir. This is device I/O.
- The file dialog, `std::fs::read`, `midly::Smf::parse` and the `static mut file_data` buffer. These are I/O and a foreign parser. The parsed tracks and timing are inputs.
- rodio: creating a sink, and its failure at `expect`; `append`; `set_volume`; `OutputStream`; and the `oscillator` module, which is not part of this model. A sink is an opaque id, and the volume set on it is returned by Update.
- The pitch `powf` and the velocity-to-pressure scaling in the listener. These are f32 numerics feeding the oscillator.
- Wall-clock time: `Instant::now`, the spin-wait before each iteration of `play_arrangement`, and `update_synth`'s endless locked loop. Time is a parameter, and Mutex locking and concurrency are not modelled.
- The progress bar and `length_in_microseconds`. These only feed the display.
- f32 arithmetic: gains and times are exact reals. NaN appears only where the code divides 0.0 by 0.0. The time per tick is the exact quotient, rounded down, rather than an f32 quotient.
- Playback.PlayArrangement: stops after `fuel` iterations and reports that it did not finish. Where the fuel runs out, the source keeps looping and may still reach the break at main.rs:240-243. Once it stalls (Playback.Stalls), it loops forever. `play_arrangement` is also not among the commands registered with `generate_handler` (src-tauri/src/main.rs:304).
- Playback.PassOver: the u32 addition of `delta * time_per_tick` to a track's time is unbounded here. So is the u32 sum of deltas in `get_midi_data`. Overflow is not modelled.
- Synth.Synth.SetVolumes: visits the notes in an arbitrary order, as the HashMap does. The order of the removal list is not fixed.
- The JavaScript user interface.

## Findings

| source | as written | input that shows it | evidently intended | confidence | as-written member | corrected member |
|---|---|---|---|---|---|---|
| src-tauri/src/synth.rs:101-107 | the release ramp divides by `release`, so a released note past its decay gets 0.0 / 0.0 = NaN when release is 0 | the listener's envelope (0, 2, 0, 0): a note released at 1.95 s and updated at 2.0 s | a zero release cuts the note to silence at once | not executed | Synth.ZeroReleaseIsNotANumber | Synth.GainCorrectedInUnitRange |
| src-tauri/src/main.rs:140 | `meta_track_index.unwrap()` panics when no track reaches a Tempo event | a file with the single track [End of Track] | play every track at the default tempo | not executed | Arrangement.NoTempoTrackPanics | Arrangement.ArrangementCorrected |
| src-tauri/src/main.rs:135-162 | the scanned tempo and length are never stored, so playback always uses 500000 | a file whose tempo track sets 600000 | store the scanned tempo and length in the player state | not executed | Arrangement.UploadedTempoIsDropped | Arrangement.MidiPlayerState.FileUploadCorrected |
| src-tauri/src/main.rs:240-256 | the loop breaks only when every track is exhausted in the same pass. A finished track keeps its time in the minimum, so the clock stalls there and the loop never ends | tracks [Note On +0, End of Track +5] and [End of Track +0], one microsecond per tick | the clock follows the tracks still playing; the loop ends once every track is exhausted | not executed | Playback.UnequalEndsNeverFinish | PlaybackCorrected.PlaysEveryEventOnTime |
| src-tauri/src/main.rs:225-231 | a track yields its next event once the previous event's time is reached, and only then adds the event's own delta | a track [Note On +0, Note On +96] at one microsecond per tick fires its second note at 0 instead of at 96 | emit each event at its own absolute tick | not executed | Playback.SecondNoteFiresAtZero | PlaybackCorrected.PlaysEveryEventOnTime |
| src-tauri/src/main.rs:323-324 | the listener reads bytes 1 and 2 before it looks at the status, so a shorter message panics | the one-byte timing clock [0xF8] from a live keyboard | ignore messages too short to be note messages | not executed | EventHandler.ClockBytePanics | EventHandler.DispatchCorrected |
