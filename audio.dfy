/**
 * The playback service: lazily sets up three instrument voices, then plays
 * a list of notes as an arpeggio followed by one block chord.
 */
module Audio {
  import opened Options

  /** The three instruments a caller may ask for. */
  datatype InstrumentType = Piano | Guitar | Violin

  /** The key under which each instrument's voice is stored. */
  function InstrumentKey(t: InstrumentType): string {
    match t
    case Piano => "piano"
    case Guitar => "guitar"
    case Violin => "violin"
  }

  /** Looking an instrument up by key: any other key finds no slot. */
  function ParseInstrument(key: string): (r: Option<InstrumentType>)
    ensures r.Some? ==> InstrumentKey(r.value) == key
  {
    if key == "piano" then Some(Piano)
    else if key == "guitar" then Some(Guitar)
    else if key == "violin" then Some(Violin)
    else None
  }

  /** The oscillator shapes the voices use. */
  datatype Waveform = Triangle | Square | Sawtooth

  /** Attack, decay and release in seconds; sustain as a level. */
  datatype Envelope = Envelope(attack: real, decay: real, sustain: real, release: real)

  /** A polyphonic voice, reduced to its configuration. */
  datatype Synth = PolySynth(oscillator: Waveform, envelope: Envelope)

  /** The voice `init` creates for each instrument. */
  function VoiceFor(t: InstrumentType): Synth {
    match t
    case Piano => PolySynth(Triangle, Envelope(0.01, 0.1, 0.1, 1.0))
    case Guitar => PolySynth(Square, Envelope(0.01, 0.5, 0.2, 1.2))
    case Violin => PolySynth(Sawtooth, Envelope(0.5, 0.1, 1.0, 1.0))
  }

  /** What one trigger plays: a single pitch, or all pitches of a chord at once. */
  datatype Sound = Note(pitch: string) | Chord(pitches: seq<string>)

  /** One `triggerAttackRelease` call on a voice. */
  datatype Event = Trigger(voice: Synth, sound: Sound, duration: string, time: real)

  const DefaultInstrument: string := "piano"
  const DefaultDuration: string := "4n"
  /** The octave given to a note that names none. */
  const DefaultOctave: string := "4"
  /** Seconds between two successive notes of the arpeggio. */
  const Step: real := 0.5

  predicate IsDigit(c: char) {
    '0' <= c <= '9'
  }

  /** The regular expression `/[0-9]/` matches `s`. */
  predicate HasDigit(s: string) {
    exists i :: 0 <= i < |s| && IsDigit(s[i])
  }

  /** A note that carries an octave digit is kept; any other gets the default octave. */
  function ToPitch(note: string): string {
    if HasDigit(note) then note else note + DefaultOctave
  }

  /** `notes.map(ToPitch)`. */
  function MapNotes(notes: seq<string>): seq<string> {
    seq(|notes|, i requires 0 <= i < |notes| => ToPitch(notes[i]))
  }

  /** The start time of the `i`-th note of the arpeggio. */
  function NoteTime(now: real, i: nat): real {
    now + i as real * Step
  }

  /** The start time of the chord that follows `n` arpeggio notes. */
  function ChordTime(now: real, n: nat): real {
    now + n as real * Step + Step
  }

  /** The single-note triggers for `pitches`, one per pitch, in order. */
  function Arpeggio(voice: Synth, pitches: seq<string>, duration: string, now: real): seq<Event> {
    seq(|pitches|, i requires 0 <= i < |pitches| => Trigger(voice, Note(pitches[i]), duration, NoteTime(now, i)))
  }

  /** Everything one playback issues: the arpeggio, then the chord of all pitches. */
  function Schedule(voice: Synth, pitches: seq<string>, duration: string, now: real): seq<Event> {
    Arpeggio(voice, pitches, duration, now) + [Trigger(voice, Chord(pitches), duration, ChordTime(now, |pitches|))]
  }

  /** The arpeggio of one more pitch is the arpeggio so far and that pitch's trigger. */
  lemma ArpeggioGrows(voice: Synth, pitches: seq<string>, i: nat, duration: string, now: real)
    requires i < |pitches|
    ensures Arpeggio(voice, pitches[..i + 1], duration, now) ==
      Arpeggio(voice, pitches[..i], duration, now) + [Trigger(voice, Note(pitches[i]), duration, NoteTime(now, i))]
  {
  }

  /** Every instrument is found again under its own key. */
  lemma InstrumentKeyRoundTrip(t: InstrumentType)
    ensures ParseInstrument(InstrumentKey(t)) == Some(t)
  {
  }

  /** Exactly the three instrument keys find a slot. */
  lemma KnownInstrumentKeys(key: string)
    ensures ParseInstrument(key).Some? <==> key in ["piano", "guitar", "violin"]
  {
  }

  /** A mapped pitch always names an octave, and starts with the note it came from. */
  lemma PitchNamesOctave(note: string)
    ensures HasDigit(ToPitch(note))
    ensures note <= ToPitch(note) && |ToPitch(note)| <= |note| + 1
  {
    if !HasDigit(note) {
      assert IsDigit(ToPitch(note)[|note|]);
    }
  }

  /** Mapping is idempotent: a mapped pitch is passed through unchanged. */
  lemma PitchIdempotent(note: string)
    ensures ToPitch(ToPitch(note)) == ToPitch(note)
  {
    PitchNamesOctave(note);
  }

  /** Examples: "A3" already has an octave; "A" and "C#" get octave 4. */
  lemma PitchExamples()
    ensures ToPitch("A3") == "A3" && ToPitch("A") == "A4" && ToPitch("C#") == "C#4"
  {
    assert IsDigit("A3"[1]);
  }

  /** The mapped list keeps the length and the order of the notes, and maps each one alone. */
  lemma MapNotesPointwise(a: seq<string>, b: seq<string>)
    ensures |MapNotes(a)| == |a|
    ensures MapNotes(a + b) == MapNotes(a) + MapNotes(b)
    ensures forall i :: 0 <= i < |a| ==> HasDigit(MapNotes(a)[i]) && a[i] <= MapNotes(a)[i]
  {
    forall i | 0 <= i < |a|
      ensures HasDigit(MapNotes(a)[i]) && a[i] <= MapNotes(a)[i]
    {
      PitchNamesOctave(a[i]);
    }
  }

  /** Mapping twice is mapping once. */
  lemma MapNotesIdempotent(notes: seq<string>)
    ensures MapNotes(MapNotes(notes)) == MapNotes(notes)
  {
    forall i | 0 <= i < |notes|
      ensures MapNotes(MapNotes(notes))[i] == MapNotes(notes)[i]
    {
      PitchIdempotent(notes[i]);
    }
  }

  /**
   * A playback of `n` pitches issues `n + 1` triggers: pitch `i` alone at
   * `now + i * 0.5`, then all pitches together at `now + n * 0.5 + 0.5`,
   * all on the same voice with the same duration.
   */
  lemma ScheduleShape(voice: Synth, pitches: seq<string>, duration: string, now: real)
    ensures |Schedule(voice, pitches, duration, now)| == |pitches| + 1
    ensures forall i :: 0 <= i < |pitches| ==>
      Schedule(voice, pitches, duration, now)[i] == Trigger(voice, Note(pitches[i]), duration, now + i as real * 0.5)
    ensures Schedule(voice, pitches, duration, now)[|pitches|]
      == Trigger(voice, Chord(pitches), duration, now + |pitches| as real * 0.5 + 0.5)
  {
  }

  /** Triggers start strictly one after another; the chord starts after every single note. */
  lemma ScheduleInOrder(voice: Synth, pitches: seq<string>, duration: string, now: real, i: nat, j: nat)
    requires i < j <= |pitches|
    ensures Schedule(voice, pitches, duration, now)[i].time < Schedule(voice, pitches, duration, now)[j].time
  {
  }

  /** Every trigger of a playback is on the same voice and lasts the same duration. */
  lemma ScheduleUniform(voice: Synth, pitches: seq<string>, duration: string, now: real, e: Event)
    requires e in Schedule(voice, pitches, duration, now)
    ensures e.voice == voice && e.duration == duration
  {
  }

  /** No notes give no single-note triggers, but still an empty chord half a beat later. */
  lemma EmptySchedule(voice: Synth, duration: string, now: real)
    ensures Schedule(voice, [], duration, now) == [Trigger(voice, Chord([]), duration, now + 0.5)]
  {
  }

  /** Playing C, E, G: C4, E4, G4 half a second apart, then the chord of all three. */
  lemma ScheduleExample(now: real)
    ensures Schedule(VoiceFor(Piano), MapNotes(["C", "E", "G"]), DefaultDuration, now) == [
      Trigger(VoiceFor(Piano), Note("C4"), "4n", now),
      Trigger(VoiceFor(Piano), Note("E4"), "4n", now + 0.5),
      Trigger(VoiceFor(Piano), Note("G4"), "4n", now + 1.0),
      Trigger(VoiceFor(Piano), Chord(["C4", "E4", "G4"]), "4n", now + 2.0)]
  {
    assert !HasDigit("C") && !HasDigit("E") && !HasDigit("G");
    assert ToPitch("C") == "C4" && ToPitch("E") == "E4" && ToPitch("G") == "G4";
    assert MapNotes(["C", "E", "G"]) == ["C4", "E4", "G4"];
  }

  /**
   * The service. `starts` counts how often the audio engine was started;
   * `log` is every trigger issued so far, in order.
   */
  class AudioService {
    var isInitialized: bool
    var piano: Option<Synth>
    var guitar: Option<Synth>
    var violin: Option<Synth>
    var starts: nat
    var log: seq<Event>

    /** Either nothing is set up yet, or the engine started once and every slot holds its voice. */
    ghost predicate Valid()
      reads this
    {
      if isInitialized then
        starts == 1 && piano == Some(VoiceFor(Piano)) && guitar == Some(VoiceFor(Guitar)) && violin == Some(VoiceFor(Violin))
      else
        starts == 0 && piano.None? && guitar.None? && violin.None?
    }

    /** The voice currently stored for `t`. */
    function Slot(t: InstrumentType): Option<Synth>
      reads this
    {
      match t
      case Piano => piano
      case Guitar => guitar
      case Violin => violin
    }

    /** `this.synths[key]`: absent for a key that names no instrument. */
    function Lookup(key: string): Option<Synth>
      reads this
    {
      match ParseInstrument(key)
      case None => None
      case Some(t) => Slot(t)
    }

    constructor ()
      ensures Valid() && !isInitialized && log == []
      ensures piano.None? && guitar.None? && violin.None? && starts == 0
    {
      isInitialized := false;
      piano, guitar, violin := None, None, None;
      starts := 0;
      log := [];
    }

    /** Sets up the engine and the three voices, once; later calls change nothing. */
    method Init()
      requires Valid()
      modifies this
      ensures Valid() && isInitialized && log == old(log)
      ensures old(isInitialized) ==> unchanged(this)
      ensures !old(isInitialized) ==> starts == old(starts) + 1
      ensures forall t :: Slot(t) == Some(VoiceFor(t))
    {
      if isInitialized {
        return;
      }
      starts := starts + 1;
      piano := Some(VoiceFor(Piano));
      guitar := Some(VoiceFor(Guitar));
      violin := Some(VoiceFor(Violin));
      isInitialized := true;
    }

    /**
     * Plays `notes` on `instrument` (default piano), each for `duration`
     * (default a quarter note), starting at the engine time `now`.
     */
    method PlayNotes(notes: seq<string>, instrument: Option<string>, duration: Option<string>, now: real)
      requires Valid()
      modifies this
      ensures Valid() && isInitialized
      ensures forall t :: Slot(t) == Some(VoiceFor(t))
      ensures !old(isInitialized) ==> starts == old(starts) + 1
      ensures old(isInitialized) ==> starts == old(starts)
      ensures log == old(log) +
        match ParseInstrument(instrument.GetOr(DefaultInstrument))
        case None => []
        case Some(t) => Schedule(VoiceFor(t), MapNotes(notes), duration.GetOr(DefaultDuration), now)
    {
      Init();
      var synth := Lookup(instrument.GetOr(DefaultInstrument));
      if synth.None? {
        return;
      }
      var voice := synth.value;
      var length := duration.GetOr(DefaultDuration);
      var mappedNotes := MapNotes(notes);
      ghost var before := log;
      for i := 0 to |mappedNotes|
        invariant Valid() && isInitialized
        invariant log == before + Arpeggio(voice, mappedNotes[..i], length, now)
      {
        ArpeggioGrows(voice, mappedNotes, i, length, now);
        log := log + [Trigger(voice, Note(mappedNotes[i]), length, NoteTime(now, i))];
      }
      assert mappedNotes[..|mappedNotes|] == mappedNotes;
      log := log + [Trigger(voice, Chord(mappedNotes), length, ChordTime(now, |mappedNotes|))];
    }
  }
}
