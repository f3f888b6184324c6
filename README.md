# MuseTheory: piano layout and note playback, in Dafny

This project models the two pieces of deterministic logic in the MuseTheory
music-theory companion:

- **The piano keyboard** (`components/Piano.tsx` with `OCTAVE_NOTES` from
  `constants.ts`). The keyboard has 25 key slots: two copies of the 12-name
  chromatic pattern, then a high C. A name containing `#` is a black key and is
  not emitted in the main flow. Each white key records whether it is
  highlighted, whether a black overlay follows it (the next slot's name
  contains `#`), and whether that overlay is highlighted. Highlighting is exact
  string membership in the highlighted list.
- **The playback service** (`AudioService` in `services/audioService.ts`). A
  class with an `isInitialized` flag and three voice slots (piano, guitar,
  violin). `Init` fills them once. `PlayNotes` maps every note to a pitch
  (appending octave `4` when the note has no digit). It then issues one trigger
  per pitch at `now + i * 0.5` and finally one chord trigger of all pitches at
  `now + n * 0.5 + 0.5`.

Files:

- `options.dfy`: module `Options`. `Option` stands for `null`/`undefined` and
  for omitted default parameters.
- `constants.dfy`: module `Constants`. The chromatic pattern `OctaveNotes`
  (`OCTAVE_NOTES`) and its shape.
- `piano.dfy`: module `Piano`. The sharp test, position and name filters over
  a list of names with append lemmas, the key list, the per-key decision
  (`RenderKey`) and the rendered white-key sequence (`RenderKeys`, `Layout`),
  plus the lemmas about them.
- `audio.dfy`: module `Audio`. Instruments, voices, events, and the pure pitch
  mapping and schedule. The class `AudioService` has the fields `isInitialized`,
  `piano`, `guitar` and `violin`, a counter `starts` of engine starts, and an
  event `log` that `PlayNotes` appends to in a `for` loop.

Modelling choices:

- The engine clock `Tone.now()` becomes the parameter `now: real`. Start times
  are exact rationals: `now + i * 0.5` and `now + n * 0.5 + 0.5` are sums
  without the rounding of JavaScript doubles (see "## Left out").
- `Tone.start()` becomes an increment of `starts`.
- A `triggerAttackRelease` call becomes an `Event` appended to `log`. It records
  the voice, a single pitch or a chord, the duration and the start time.
- A voice is reduced to its configuration: waveform plus envelope, with the
  constants of `init`.
- The instrument arrives as a string. Looking up `synths[instrument]` finds a
  voice only for `"piano"`, `"guitar"` and `"violin"`. Any other key finds
  nothing, and `PlayNotes` returns after `Init` without issuing a trigger.
- The default parameters (`'piano'`, `'4n'`) are `Option` arguments read with
  `GetOr`.

Behaviour worth noting:

- Highlighting is exact membership of the key's name in the highlighted list,
  with no octave stripping and no normalisation. Only an exact name such as
  `"C#"` lights a key; `"C4"` or `"Db"` lights nothing (`Piano.NothingLit`).
- Playing an empty list still issues one chord trigger, with no pitches, at
  `now + 0.5` (`Audio.EmptySchedule`).
- `init` has no single-flight guard: `isInitialized` is set only after the
  engine has started. The model runs calls one after another and proves only
  that the engine starts once across such calls.

## Model

| member | source | states |
|---|---|---|
| Constants.OctaveNotesShape | constants.ts:11 | The pattern `OctaveNotes` (the constant `OCTAVE_NOTES`) has 12 names, begins with "C" and names no pitch twice |
| Piano.IsSharp | components/Piano.tsx:17 | Definition: a name is a black key's name exactly when it contains '#' |
| Piano.SharpPositions | constants.ts:11 | Exactly five names contain '#', at positions 1, 3, 6, 8 and 10 |
| Piano.NaturalPositions | constants.ts:11 | The names without '#' sit at positions 0, 2, 4, 5, 7, 9 and 11 |
| Piano.SharpsFollowNaturals | constants.ts:11 | The pattern begins and ends with a name without '#', and no two '#' names are neighbours |
| Piano.NaturalNames | constants.ts:11 | The names without '#' are C, D, E, F, G, A, B, in that order |
| Piano.Naturals | components/Piano.tsx:17-21 | Dropping the '#' names never lengthens the list |
| Piano.NaturalsSound | components/Piano.tsx:17-21 | No kept name contains '#', and every name without '#' is kept |
| Piano.PositionsComplete | components/Piano.tsx:17 | A position is listed if and only if it is in range and its name has the asked-for kind (contains '#' or not) |
| Piano.PositionsAppend | components/Piano.tsx:10 | The positions of one kind in a concatenation are those of the first part followed by those of the second part, moved right by the first part's length |
| Piano.NaturalsAppend | components/Piano.tsx:10 | The names without '#' of a concatenation are those of the first part followed by those of the second |
| Piano.NoAdjacentSharpsAppend | components/Piano.tsx:10 | Two lists without neighbouring '#' names, joined after a name without '#', still have none |
| Piano.IsHighlighted | components/Piano.tsx:14 | Definition: a name is highlighted exactly when it is an element of the highlighted list |
| Piano.Keys | components/Piano.tsx:10 | The key list has 25 slots and ends in "C" |
| Piano.KeysListed | components/Piano.tsx:10 | The key list is the chromatic pattern twice followed by "C", written out |
| Piano.KeysNoAdjacentSharps | components/Piano.tsx:10 | The keyboard starts at a key without '#' and never has two '#' keys side by side |
| Piano.TwoOctavesAndC | components/Piano.tsx:10 | In two copies of a 12-name octave followed by "C", the positions of one kind are the octave's, the same moved by 12, and 24 for the naturals |
| Piano.KeysByOctave | components/Piano.tsx:10 | The keyboard's '#' (or natural) positions are those of the pattern, the same moved by 12, and the high C at 24 for the naturals |
| Piano.RenderKey | components/Piano.tsx:16-27 | A key yields no white-key record exactly when its name contains '#'; otherwise the record carries the key's own name and index |
| Piano.RenderKeys | components/Piano.tsx:76 | Definition: `keys.map(renderKey)` from a position on, with the `null` results dropped, in key order; its meaning is stated by the lemmas below |
| Piano.Layout | components/Piano.tsx:73-79 | Definition: the rendered white keys of the 25-key keyboard for a highlighted list |
| Piano.RenderKeysSound | components/Piano.tsx:76 | Every emitted record is the decision for its own key, and records come in strictly increasing key order |
| Piano.RenderedKeyFacts | components/Piano.tsx:14-26 | An emitted key has no '#'; it is active iff its name is in the highlighted list; it has a black neighbour iff a next key exists and contains '#'; its overlay is active iff it has a black neighbour and that neighbour's name is highlighted |
| Piano.RenderKeysAreWhiteKeys | components/Piano.tsx:17-21 | The emitted keys are exactly the keys without '#', each once, in index order |
| Piano.RenderKeysNames | components/Piano.tsx:17-21 | The emitted keys' names are the natural names of the key list, in order |
| Piano.WhiteKeyEmitted | components/Piano.tsx:21 | Every key without '#' is emitted as a white key |
| Piano.RenderKeyBeforeBlack | components/Piano.tsx:16-26 | A white key followed by a '#' key is emitted with its own index and a black neighbour, its overlay lit iff the '#' key's name is highlighted, and the '#' key itself is skipped |
| Piano.OverlayStepBlack | components/Piano.tsx:24-25 | A white key followed by a '#' key contributes that key's position as an overlay target, and rendering resumes after the '#' key |
| Piano.OverlayStepWhite | components/Piano.tsx:24-25 | A white key not followed by a '#' key contributes no overlay target, and rendering resumes at the next key |
| Piano.OverlaysCoverBlackKeys | components/Piano.tsx:24-25 | With no two adjacent sharps, the positions overlaid by white keys are exactly the positions of the '#' keys, in order |
| Piano.BlackKeyOverlaidOnce | components/Piano.tsx:24-26 | A black key after a natural one is overlaid by exactly one white key, the one before it, and that overlay is active iff the black key's name is highlighted |
| Piano.KeyboardBlackKeysOverlaid | components/Piano.tsx:21-26 | On the 25-key keyboard every black key is overlaid by exactly one white key, and its overlay is lit iff its name is highlighted |
| Piano.LayoutWhiteKeys | components/Piano.tsx:10-21 | The keyboard emits 15 white keys: at the pattern's natural positions, the same moved by 12, and 24; named by the pattern's naturals twice and then C |
| Piano.LayoutOverlays | components/Piano.tsx:24-25 | Exactly ten white keys carry an overlay; the overlaid positions are the keyboard's '#' positions, i.e. the pattern's and the same moved by 12 |
| Piano.KeysAfterEAndB | constants.ts:11 | On the keyboard an E or a B is never followed by a '#' name |
| Piano.NoOverlayAfterEAndB | components/Piano.tsx:24-25 | White keys named E or B, and the final key at index 24, never carry an overlay |
| Piano.ForeignNamesLightNothing | components/Piano.tsx:12-14 | If no highlighted name equals any key name, no key and no overlay is active |
| Piano.NothingLit | components/Piano.tsx:14 | On the keyboard, a highlighted list holding no name of the chromatic pattern (empty, or only names such as "Db" and "C4") lights no key and no overlay |
| Piano.ForeignNameExamples | components/Piano.tsx:12-14 | "Db", "Bb" and "C4" are not key names, so by the above they light nothing |
| Piano.OccurrencesAppend | components/Piano.tsx:10 | The positions of one name in a concatenation are those in the first part followed by those in the second part, moved right by the first part's length |
| Piano.OccurrencesDistinct | constants.ts:11 | In a list without repeated names, the name at position `i` occurs at `i` and nowhere else |
| Piano.TwoOctavesAndCOccurrences | components/Piano.tsx:10 | In two copies of a repeat-free 12-name octave followed by "C", the `i`-th name occurs at `i` and `i + 12`, and also at 24 when it is "C" |
| Piano.KeyOccurrences | components/Piano.tsx:10 | On the keyboard the `i`-th name of the pattern sits exactly at `i` and `i + 12`, and "C" also at 24 |
| Piano.ActiveKeyStep | components/Piano.tsx:18 | One key further: a white key adds its position to the lit keys exactly when its name is the highlighted name |
| Piano.ActiveKeysOfName | components/Piano.tsx:14-21 | With one highlighted name, the lit white keys are exactly the positions carrying that name, in order, and none when the name contains '#' |
| Piano.OverlayLitStepBlack | components/Piano.tsx:24-26 | A white key before a '#' key adds that key's position to the lit overlays exactly when the '#' key carries the highlighted name |
| Piano.OverlayLitStepWhite | components/Piano.tsx:24-26 | A white key not before a '#' key adds no lit overlay |
| Piano.ActiveOverlaysOfName | components/Piano.tsx:24-26 | With no two adjacent sharps and one highlighted name, the lit overlays are exactly the positions of the '#' keys carrying that name, in order, and none when the name has no '#' |
| Piano.LayoutHighlightsOneName | components/Piano.tsx:10-26 | On the keyboard, highlighting the pattern's `i`-th name lights, for a natural name, exactly the white keys at `i` and `i + 12` (and 24 for "C") and no overlay; for a '#' name, no white key and exactly the overlays at `i` and `i + 12` |
| Piano.HighlightC | components/Piano.tsx:10-26 | Highlighting "C" lights the white keys 0, 12 and 24 and no overlay |
| Piano.HighlightFSharp | components/Piano.tsx:10-26 | Highlighting "F#" lights no white key and the overlays at 6 and 18 |
| Audio.VoiceFor | services/audioService.ts:18-31 | Definition: piano is a triangle voice with envelope 0.01/0.1/0.1/1, guitar a square voice with 0.01/0.5/0.2/1.2, violin a sawtooth voice with 0.5/0.1/1/1 |
| Audio.ParseInstrument | services/audioService.ts:3 | A key that finds an instrument is that instrument's own key |
| Audio.InstrumentKeyRoundTrip | services/audioService.ts:6-10 | Each instrument's voice is found under its own key |
| Audio.KnownInstrumentKeys | services/audioService.ts:38-39 | A lookup finds a voice slot iff the key is "piano", "guitar" or "violin" |
| Audio.ToPitch | services/audioService.ts:44 | Definition: a note containing a digit is kept, any other gets "4" appended; `PitchNamesOctave` and `PitchIdempotent` state what this means |
| Audio.MapNotes | services/audioService.ts:42-45 | Definition: every note mapped by `ToPitch`, in order; `MapNotesPointwise` and `MapNotesIdempotent` state its properties |
| Audio.PitchNamesOctave | services/audioService.ts:42-45 | A mapped pitch always contains a digit, begins with the original note, and is at most one character longer |
| Audio.PitchIdempotent | services/audioService.ts:44 | Mapping an already-mapped pitch leaves it unchanged |
| Audio.PitchExamples | services/audioService.ts:44 | "A3" stays "A3"; "A" becomes "A4"; "C#" becomes "C#4" |
| Audio.MapNotesPointwise | services/audioService.ts:42-45 | Mapping keeps the length and order of the list, distributes over concatenation, and every mapped entry names an octave and extends its note |
| Audio.MapNotesIdempotent | services/audioService.ts:42-45 | Mapping a mapped list changes nothing |
| Audio.Arpeggio | services/audioService.ts:51-53 | Definition: one single-pitch trigger per pitch, the `i`-th at `now + i * 0.5`, on one voice with one duration |
| Audio.Schedule | services/audioService.ts:51-56 | Definition: the arpeggio followed by one chord trigger of all pitches at `now + n * 0.5 + 0.5`; `ScheduleShape`, `ScheduleInOrder` and `ScheduleUniform` state its properties |
| Audio.ArpeggioGrows | services/audioService.ts:51-53 | One more loop round appends exactly the next pitch's trigger at its time to the arpeggio so far |
| Audio.ScheduleShape | services/audioService.ts:51-56 | n pitches give n + 1 triggers: pitch i alone at now + i*0.5, then the chord of all pitches at now + n*0.5 + 0.5 |
| Audio.ScheduleInOrder | services/audioService.ts:51-56 | Trigger start times strictly increase; the chord starts after every single note |
| Audio.ScheduleUniform | services/audioService.ts:52-56 | Every trigger of one playback uses the same voice and the same duration |
| Audio.EmptySchedule | services/audioService.ts:51-56 | An empty note list gives only an empty chord trigger at now + 0.5 |
| Audio.ScheduleExample | services/audioService.ts:36-56 | Playing C, E, G on the piano with the default duration gives C4, E4, G4 at now, now + 0.5, now + 1.0 and the chord at now + 2.0 |
| Audio.AudioService.constructor | services/audioService.ts:6-11 | A new service is uninitialised, with all three slots empty, no engine start and no triggers |
| Audio.AudioService.Lookup | services/audioService.ts:38-39 | Definition: `this.synths[key]`, the slot of the instrument the key names, and nothing for any other key |
| Audio.AudioService.Init | services/audioService.ts:13-34 | If already initialised, nothing changes; otherwise the engine starts once, every slot gets its voice and the flag is set; no trigger is issued |
| Audio.AudioService.PlayNotes | services/audioService.ts:36-57 | After the implied Init the log grows by exactly the schedule of the mapped notes on the looked-up voice with the given or default duration, or by nothing when the instrument key finds no slot |

## Left out

- JSX and CSS rendering in `components/Piano.tsx`: class strings, pulse dots and positioning. The model keeps only the boolean decisions.
- Tone.js itself: `Tone.start`, `PolySynth` construction and sound output are foreign library calls. A voice is its configuration, an engine start is a counter, and a trigger is a log entry.
- Failures of those calls are not modelled: `Init` and `PlayNotes` always succeed. In the code a rejected `Tone.start()` (services/audioService.ts:15) leaves `isInitialized` false and makes the call reject; a throwing `PolySynth` constructor (lines 18-31) leaves the slots partly filled, a state `Valid()` excludes; a throwing `triggerAttackRelease` (lines 52, 56) stops playback after the triggers already issued.
- Floating point: start times are exact rationals, not rounded doubles. For an arbitrary `now`, `now + i * 0.5` and `now + n * 0.5 + 0.5` round in the code; the strict ordering of `Audio.ScheduleInOrder` holds for the code only while `now` is small enough that adding 0.5 is not lost to rounding.
- `Tone.now()` is a clock read; it is the parameter `now`.
- Asynchrony: `init` sets `isInitialized` only after `await Tone.start()`, so two interleaved calls could both start the engine. Calls are modelled one after another, and no exactly-once claim is made under interleaving.
- Object prototype keys: in JavaScript, `synths["constructor"]` and similar keys find a truthy value that is not a voice, and playback would then throw. The model treats every key other than the three instruments as absent.
- `Tone.Sampler`, named in the slot type, is never created, so it is not modelled.
- `services/geminiService.ts` (network calls, JSON parsing, a module-global chat cache), the React components `MusicVisualizer.tsx`, `ChatBot.tsx`, `ImageGenerator.tsx`, `Navigation.tsx`, `Footer.tsx`, and `app/layout.tsx` are UI and API plumbing and are not part of this model.
- The translation, model-name and default-size constants of `constants.ts`, and `types.ts`, are plain data without behaviour.
