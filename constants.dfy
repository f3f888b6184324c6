/** The fixed chromatic pattern the piano keyboard is laid out from. */
module Constants {

  /** The twelve note names of one octave, in ascending chromatic order. */
  const OctaveNotes: seq<string> := ["C", "C#", "D", "D#", "E", "F", "F#", "G", "G#", "A", "A#", "B"]

  /** The pattern has twelve entries, starts at C, and names no pitch twice. */
  lemma OctaveNotesShape()
    ensures |OctaveNotes| == 12 && OctaveNotes[0] == "C"
    ensures forall i, j :: 0 <= i < j < |OctaveNotes| ==> OctaveNotes[i] != OctaveNotes[j]
  {
  }
}
