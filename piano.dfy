/**
 * The piano keyboard: which of its 25 key slots are drawn as white keys,
 * which carry a black overlay, and which of both are highlighted.
 */
module Piano {
  import opened Options
  import opened Constants

  /** A name is a raised (black-key) name exactly when it contains '#'. */
  predicate IsSharp(note: string) {
    '#' in note
  }

  /** The names of `notes` at or after `from` that contain no '#', in their original order. */
  function Naturals(notes: seq<string>, from: nat): (r: seq<string>)
    requires from <= |notes|
    decreases |notes| - from
    ensures |r| <= |notes| - from
  {
    if from == |notes| then []
    else if IsSharp(notes[from]) then Naturals(notes, from + 1)
    else [notes[from]] + Naturals(notes, from + 1)
  }

  /** No filtered name contains '#', and every name without '#' is kept. */
  lemma {:induction false} NaturalsSound(notes: seq<string>, from: nat)
    requires from <= |notes|
    decreases |notes| - from
    ensures forall k :: 0 <= k < |Naturals(notes, from)| ==> !IsSharp(Naturals(notes, from)[k])
    ensures forall i :: from <= i < |notes| && !IsSharp(notes[i]) ==> notes[i] in Naturals(notes, from)
  {
    if from < |notes| {
      NaturalsSound(notes, from + 1);
    }
  }

  /** The positions at or after `from` whose name is a sharp (when `sharp`) or a natural (otherwise). */
  function Positions(notes: seq<string>, from: nat, sharp: bool): (r: seq<nat>)
    requires from <= |notes|
    decreases |notes| - from
  {
    if from == |notes| then []
    else if IsSharp(notes[from]) == sharp then [from] + Positions(notes, from + 1, sharp)
    else Positions(notes, from + 1, sharp)
  }

  /** One step of `Positions`: the name at `from`, if of the asked-for kind, then the rest. */
  lemma PositionsStep(notes: seq<string>, from: nat, sharp: bool)
    requires from < |notes|
    ensures Positions(notes, from, sharp) ==
      (if IsSharp(notes[from]) == sharp then [from] else []) + Positions(notes, from + 1, sharp)
  {
  }

  /** A position is listed exactly when it is in range and its name has the asked-for kind. */
  lemma {:induction false} PositionsComplete(notes: seq<string>, from: nat, sharp: bool, i: nat)
    requires from <= |notes|
    decreases |notes| - from
    ensures i in Positions(notes, from, sharp) <==> from <= i < |notes| && IsSharp(notes[i]) == sharp
  {
    if from < |notes| {
      PositionsComplete(notes, from + 1, sharp, i);
    }
  }

  /** No two neighbouring names of `notes` both contain '#'. */
  ghost predicate NoAdjacentSharps(notes: seq<string>) {
    forall i, j :: 0 <= i < j < |notes| && j == i + 1 ==> !(IsSharp(notes[i]) && IsSharp(notes[j]))
  }

  /** In such a list the name after a sharp, if any, is natural. */
  lemma AfterSharpIsNatural(notes: seq<string>, i: nat)
    requires NoAdjacentSharps(notes)
    requires i < |notes| && IsSharp(notes[i])
    ensures i + 1 < |notes| ==> !IsSharp(notes[i + 1])
  {
  }

  /** Joining two lists without adjacent sharps at a natural name keeps them apart. */
  lemma NoAdjacentSharpsAppend(a: seq<string>, b: seq<string>)
    requires NoAdjacentSharps(a) && NoAdjacentSharps(b)
    requires |a| > 0 && !IsSharp(a[|a| - 1])
    ensures NoAdjacentSharps(a + b)
  {
    forall i, j | 0 <= i < j < |a + b| && j == i + 1
      ensures !(IsSharp((a + b)[i]) && IsSharp((a + b)[j]))
    {
      if j < |a| {
        assert (a + b)[i] == a[i] && (a + b)[j] == a[j];
      } else if i >= |a| {
        assert (a + b)[i] == b[i - |a|] && (a + b)[j] == b[j - |a|];
      } else {
        assert (a + b)[i] == a[|a| - 1];
      }
    }
  }

  /** Every position of `ps` moved right by `d`. */
  function Shift(ps: seq<nat>, d: nat): (r: seq<nat>)
    ensures |r| == |ps| && forall k :: 0 <= k < |ps| ==> r[k] == ps[k] + d
  {
    seq(|ps|, k requires 0 <= k < |ps| => ps[k] + d)
  }

  /** Shifting distributes over concatenation. */
  lemma ShiftAppend(ps: seq<nat>, qs: seq<nat>, d: nat)
    ensures Shift(ps + qs, d) == Shift(ps, d) + Shift(qs, d)
  {
  }

  /** Positions inside an appended block are that block's own positions, shifted. */
  lemma {:induction false} PositionsInSuffix(a: seq<string>, b: seq<string>, j: nat, sharp: bool)
    requires j <= |b|
    decreases |b| - j
    ensures Positions(a + b, |a| + j, sharp) == Shift(Positions(b, j, sharp), |a|)
  {
    if j < |b| {
      PositionsInSuffix(a, b, j + 1, sharp);
      assert (a + b)[|a| + j] == b[j];
      PositionsStep(a + b, |a| + j, sharp);
      PositionsStep(b, j, sharp);
      var head: seq<nat> := if IsSharp(b[j]) == sharp then [j] else [];
      ShiftAppend(head, Positions(b, j + 1, sharp), |a|);
      assert Shift(head, |a|) == if IsSharp(b[j]) == sharp then [|a| + j] else [];
    }
  }

  /** The positions in `a + b` are those in `a` followed by those in `b`, shifted by `|a|`. */
  lemma {:induction false} PositionsAppend(a: seq<string>, b: seq<string>, from: nat, sharp: bool)
    requires from <= |a|
    decreases |a| - from
    ensures Positions(a + b, from, sharp) == Positions(a, from, sharp) + Shift(Positions(b, 0, sharp), |a|)
  {
    if from == |a| {
      PositionsInSuffix(a, b, 0, sharp);
    } else {
      PositionsAppend(a, b, from + 1, sharp);
      assert (a + b)[from] == a[from];
      PositionsStep(a + b, from, sharp);
      PositionsStep(a, from, sharp);
    }
  }

  /** The natural names inside an appended block are that block's own. */
  lemma {:induction false} NaturalsInSuffix(a: seq<string>, b: seq<string>, j: nat)
    requires j <= |b|
    decreases |b| - j
    ensures Naturals(a + b, |a| + j) == Naturals(b, j)
  {
    if j < |b| {
      NaturalsInSuffix(a, b, j + 1);
      assert (a + b)[|a| + j] == b[j];
    }
  }

  /** The natural names of `a + b` are those of `a` followed by those of `b`. */
  lemma {:induction false} NaturalsAppend(a: seq<string>, b: seq<string>, from: nat)
    requires from <= |a|
    decreases |a| - from
    ensures Naturals(a + b, from) == Naturals(a, from) + Naturals(b, 0)
  {
    if from == |a| {
      NaturalsInSuffix(a, b, 0);
    } else {
      NaturalsAppend(a, b, from + 1);
      assert (a + b)[from] == a[from];
    }
  }

  /** Exactly five names are sharps, at positions 1, 3, 6, 8 and 10. */
  lemma SharpPositions()
    ensures Positions(OctaveNotes, 0, true) == [1, 3, 6, 8, 10]
  {
  }

  /** No two sharps are adjacent, and the pattern starts and ends with a natural name. */
  lemma SharpsFollowNaturals()
    ensures !IsSharp(OctaveNotes[0]) && !IsSharp(OctaveNotes[11]) && NoAdjacentSharps(OctaveNotes)
  {
  }

  /** The natural names sit at positions 0, 2, 4, 5, 7, 9 and 11. */
  lemma NaturalPositions()
    ensures Positions(OctaveNotes, 0, false) == [0, 2, 4, 5, 7, 9, 11]
  {
  }

  /** The natural names are exactly C D E F G A B, in that order. */
  lemma NaturalNames()
    ensures Naturals(OctaveNotes, 0) == ["C", "D", "E", "F", "G", "A", "B"]
  {
  }

  /** Two full octaves of the chromatic pattern followed by a high C. */
  function Keys(): (keys: seq<string>)
    ensures |keys| == 25 && keys[24] == "C"
  {
    OctaveNotes + OctaveNotes + ["C"]
  }

  /** Highlighting is exact membership: no octave stripping, no enharmonics. */
  predicate IsHighlighted(highlighted: seq<string>, note: string) {
    note in highlighted
  }

  /** What is decided for one rendered white key. */
  datatype WhiteKey = WhiteKey(
    note: string,
    index: nat,
    isActive: bool,
    hasBlackNeighbor: bool,
    isNextActive: bool)

  /**
   * The decisions made for the key at `index`: `None` for a black key (it is
   * not emitted in the main flow), otherwise the white key's record. The key
   * after the last one does not exist, so the last key has no black neighbour.
   */
  function RenderKey(keys: seq<string>, highlighted: seq<string>, index: nat): (r: Option<WhiteKey>)
    requires index < |keys|
    ensures r.None? <==> IsSharp(keys[index])
    ensures r.Some? ==> r.value.note == keys[index] && r.value.index == index
  {
    var note := keys[index];
    if IsSharp(note) then None
    else
      var hasBlackNeighbor := index + 1 < |keys| && IsSharp(keys[index + 1]);
      var isNextActive := hasBlackNeighbor && IsHighlighted(highlighted, keys[index + 1]);
      Some(WhiteKey(note, index, IsHighlighted(highlighted, note), hasBlackNeighbor, isNextActive))
  }

  /** `keys.map(renderKey)` from position `from` on, with the `null`s dropped. */
  function RenderKeys(keys: seq<string>, highlighted: seq<string>, from: nat): seq<WhiteKey>
    requires from <= |keys|
    decreases |keys| - from
  {
    if from == |keys| then []
    else
      match RenderKey(keys, highlighted, from)
      case None => RenderKeys(keys, highlighted, from + 1)
      case Some(w) => [w] + RenderKeys(keys, highlighted, from + 1)
  }

  /** The white keys of the keyboard, in left-to-right order. */
  function Layout(highlighted: seq<string>): seq<WhiteKey> {
    RenderKeys(Keys(), highlighted, 0)
  }

  /** The key positions of `ws`, in order. */
  function Indices(ws: seq<WhiteKey>): (r: seq<nat>)
    ensures |r| == |ws| && forall j :: 0 <= j < |ws| ==> r[j] == ws[j].index
  {
    if ws == [] then [] else [ws[0].index] + Indices(ws[1..])
  }

  /** The note names of `ws`, in order. */
  function Names(ws: seq<WhiteKey>): (r: seq<string>)
    ensures |r| == |ws| && forall j :: 0 <= j < |ws| ==> r[j] == ws[j].note
  {
    if ws == [] then [] else [ws[0].note] + Names(ws[1..])
  }

  /** The positions of the black keys that the white keys of `ws` overlay. */
  function OverlayTargets(ws: seq<WhiteKey>): seq<nat> {
    if ws == [] then []
    else if ws[0].hasBlackNeighbor then [ws[0].index + 1] + OverlayTargets(ws[1..])
    else OverlayTargets(ws[1..])
  }

  /**
   * Every emitted record is the decision for its own key, taken from `from`
   * on, and the records come in strictly increasing key order.
   */
  lemma {:induction false} RenderKeysSound(keys: seq<string>, highlighted: seq<string>, from: nat)
    requires from <= |keys|
    decreases |keys| - from
    ensures forall j :: 0 <= j < |RenderKeys(keys, highlighted, from)| ==>
      from <= RenderKeys(keys, highlighted, from)[j].index < |keys| &&
      RenderKey(keys, highlighted, RenderKeys(keys, highlighted, from)[j].index) == Some(RenderKeys(keys, highlighted, from)[j])
    ensures forall j, k :: 0 <= j < k < |RenderKeys(keys, highlighted, from)| ==>
      RenderKeys(keys, highlighted, from)[j].index < RenderKeys(keys, highlighted, from)[k].index
  {
    if from < |keys| {
      RenderKeysSound(keys, highlighted, from + 1);
    }
  }

  /** Each emitted record carries the decisions the source makes for its key. */
  lemma RenderedKeyFacts(keys: seq<string>, highlighted: seq<string>, w: WhiteKey)
    requires w in RenderKeys(keys, highlighted, 0)
    ensures w.index < |keys| && w.note == keys[w.index] && !IsSharp(w.note)
    ensures w.isActive <==> w.note in highlighted
    ensures w.hasBlackNeighbor <==> w.index + 1 < |keys| && IsSharp(keys[w.index + 1])
    ensures w.isNextActive <==> w.hasBlackNeighbor && keys[w.index + 1] in highlighted
  {
    RenderKeysSound(keys, highlighted, 0);
  }

  /** Exactly the keys without '#' are emitted, each once, in index order. */
  lemma {:induction false} RenderKeysAreWhiteKeys(keys: seq<string>, highlighted: seq<string>, from: nat)
    requires from <= |keys|
    decreases |keys| - from
    ensures Indices(RenderKeys(keys, highlighted, from)) == Positions(keys, from, false)
  {
    if from < |keys| {
      RenderKeysAreWhiteKeys(keys, highlighted, from + 1);
      var rest := RenderKeys(keys, highlighted, from + 1);
      if !IsSharp(keys[from]) {
        assert RenderKeys(keys, highlighted, from) == [RenderKey(keys, highlighted, from).value] + rest;
        assert ([RenderKey(keys, highlighted, from).value] + rest)[1..] == rest;
      }
    }
  }

  /** One step of `RenderKeys`: the key at `from`, if white, then the rest. */
  lemma RenderKeysStep(keys: seq<string>, highlighted: seq<string>, from: nat)
    requires from < |keys|
    ensures RenderKeys(keys, highlighted, from) ==
      if IsSharp(keys[from]) then RenderKeys(keys, highlighted, from + 1)
      else [RenderKey(keys, highlighted, from).value] + RenderKeys(keys, highlighted, from + 1)
  {
  }

  /** One step of `OverlayTargets`. */
  lemma OverlayTargetsStep(w: WhiteKey, rest: seq<WhiteKey>)
    ensures OverlayTargets([w] + rest) == (if w.hasBlackNeighbor then [w.index + 1] else []) + OverlayTargets(rest)
  {
    assert ([w] + rest)[1..] == rest;
  }

  /** The record of a white key before a black one; rendering resumes after the black key. */
  lemma RenderKeyBeforeBlack(keys: seq<string>, highlighted: seq<string>, from: nat)
    requires from + 1 < |keys| && !IsSharp(keys[from]) && IsSharp(keys[from + 1])
    ensures RenderKeys(keys, highlighted, from) ==
      [RenderKey(keys, highlighted, from).value] + RenderKeys(keys, highlighted, from + 2)
    ensures RenderKey(keys, highlighted, from).value.index == from
    ensures RenderKey(keys, highlighted, from).value.hasBlackNeighbor
    ensures RenderKey(keys, highlighted, from).value.isNextActive <==> keys[from + 1] in highlighted
  {
    RenderKeysStep(keys, highlighted, from);
    RenderKeysStep(keys, highlighted, from + 1);
  }

  /** A white key followed by a black one overlays it, then rendering resumes after the black key. */
  lemma OverlayStepBlack(keys: seq<string>, highlighted: seq<string>, from: nat)
    requires from + 1 < |keys| && !IsSharp(keys[from]) && IsSharp(keys[from + 1])
    requires OverlayTargets(RenderKeys(keys, highlighted, from + 2)) == Positions(keys, from + 2, true)
    ensures OverlayTargets(RenderKeys(keys, highlighted, from)) == Positions(keys, from, true)
  {
    RenderKeyBeforeBlack(keys, highlighted, from);
    PositionsStep(keys, from, true);
    PositionsStep(keys, from + 1, true);
    OverlayTargetsStep(RenderKey(keys, highlighted, from).value, RenderKeys(keys, highlighted, from + 2));
  }

  /** A white key not followed by a black one overlays nothing. */
  lemma OverlayStepWhite(keys: seq<string>, highlighted: seq<string>, from: nat)
    requires from < |keys| && !IsSharp(keys[from]) && !(from + 1 < |keys| && IsSharp(keys[from + 1]))
    requires OverlayTargets(RenderKeys(keys, highlighted, from + 1)) == Positions(keys, from + 1, true)
    ensures OverlayTargets(RenderKeys(keys, highlighted, from)) == Positions(keys, from, true)
  {
    var w := RenderKey(keys, highlighted, from).value;
    RenderKeysStep(keys, highlighted, from);
    PositionsStep(keys, from, true);
    OverlayTargetsStep(w, RenderKeys(keys, highlighted, from + 1));
  }

  /**
   * When no two '#' names are adjacent and rendering starts at a natural key,
   * every black key is overlaid by exactly the white key before it: the
   * overlay targets are precisely the black keys' positions.
   */
  lemma {:induction false} OverlaysCoverBlackKeys(keys: seq<string>, highlighted: seq<string>, from: nat)
    requires from <= |keys|
    requires from < |keys| ==> !IsSharp(keys[from])
    requires NoAdjacentSharps(keys)
    decreases |keys| - from
    ensures OverlayTargets(RenderKeys(keys, highlighted, from)) == Positions(keys, from, true)
  {
    if from < |keys| {
      if from + 1 < |keys| && IsSharp(keys[from + 1]) {
        AfterSharpIsNatural(keys, from + 1);
        OverlaysCoverBlackKeys(keys, highlighted, from + 2);
        OverlayStepBlack(keys, highlighted, from);
      } else {
        OverlaysCoverBlackKeys(keys, highlighted, from + 1);
        OverlayStepWhite(keys, highlighted, from);
      }
    }
  }

  /** The emitted white keys are named by the natural names of `keys`, in order. */
  lemma {:induction false} RenderKeysNames(keys: seq<string>, highlighted: seq<string>, from: nat)
    requires from <= |keys|
    decreases |keys| - from
    ensures Names(RenderKeys(keys, highlighted, from)) == Naturals(keys, from)
  {
    if from < |keys| {
      RenderKeysNames(keys, highlighted, from + 1);
      var rest := RenderKeys(keys, highlighted, from + 1);
      if !IsSharp(keys[from]) {
        assert RenderKeys(keys, highlighted, from) == [RenderKey(keys, highlighted, from).value] + rest;
        assert ([RenderKey(keys, highlighted, from).value] + rest)[1..] == rest;
      }
    }
  }

  /** The 25 key names, written out. */
  lemma KeysListed()
    ensures Keys() == ["C", "C#", "D", "D#", "E", "F", "F#", "G", "G#", "A", "A#", "B",
                       "C", "C#", "D", "D#", "E", "F", "F#", "G", "G#", "A", "A#", "B", "C"]
  {
  }

  /** The keyboard starts at a natural key and never has two '#' keys side by side. */
  lemma KeysNoAdjacentSharps()
    ensures !IsSharp(Keys()[0]) && NoAdjacentSharps(Keys())
  {
    SharpsFollowNaturals();
    NoAdjacentSharpsAppend(OctaveNotes, OctaveNotes);
    assert (OctaveNotes + OctaveNotes)[23] == OctaveNotes[11];
    NoAdjacentSharpsAppend(OctaveNotes + OctaveNotes, ["C"]);
    assert Keys()[0] == OctaveNotes[0];
  }

  /**
   * The positions of naturals (or sharps) in two copies of an octave and a
   * high C: those of the lower octave, the same shifted by 12, and the C's.
   */
  lemma {:induction false} TwoOctavesAndC(octave: seq<string>, sharp: bool, lower: seq<nat>)
    requires |octave| == 12 && Positions(octave, 0, sharp) == lower
    ensures Positions(octave + octave + ["C"], 0, sharp) == lower + Shift(lower, 12) + (if sharp then [] else [24])
  {
    PositionsAppend(octave, octave, 0, sharp);
    PositionsAppend(octave + octave, ["C"], 0, sharp);
    assert Positions(["C"], 0, sharp) == if sharp then [] else [0];
  }

  /**
   * The naturals (or sharps) of the keyboard: those of the lower octave, the
   * same shifted by 12, and the high C.
   */
  lemma KeysByOctave(sharp: bool)
    ensures Positions(Keys(), 0, sharp) ==
      Positions(OctaveNotes, 0, sharp) + Shift(Positions(OctaveNotes, 0, sharp), 12) + (if sharp then [] else [24])
  {
    TwoOctavesAndC(OctaveNotes, sharp, Positions(OctaveNotes, 0, sharp));
  }

  /**
   * The keyboard emits 15 white keys: at the natural positions of the lower
   * octave (C D E F G A B), the same shifted by 12, and the high C at 24.
   */
  lemma LayoutWhiteKeys(highlighted: seq<string>)
    ensures Indices(Layout(highlighted)) ==
      Positions(OctaveNotes, 0, false) + Shift(Positions(OctaveNotes, 0, false), 12) + [24]
    ensures Names(Layout(highlighted)) == Naturals(OctaveNotes, 0) + Naturals(OctaveNotes, 0) + ["C"]
    ensures |Layout(highlighted)| == 15
  {
    RenderKeysAreWhiteKeys(Keys(), highlighted, 0);
    KeysByOctave(false);
    NaturalPositions();
    RenderKeysNames(Keys(), highlighted, 0);
    NaturalsAppend(OctaveNotes, OctaveNotes, 0);
    NaturalsAppend(OctaveNotes + OctaveNotes, ["C"], 0);
    assert Naturals(["C"], 0) == ["C"];
  }

  /** Exactly ten white keys carry an overlay, one for each of the ten black keys. */
  lemma LayoutOverlays(highlighted: seq<string>)
    ensures OverlayTargets(Layout(highlighted)) == Positions(Keys(), 0, true)
    ensures OverlayTargets(Layout(highlighted)) ==
      Positions(OctaveNotes, 0, true) + Shift(Positions(OctaveNotes, 0, true), 12)
    ensures |OverlayTargets(Layout(highlighted))| == 10
  {
    KeysNoAdjacentSharps();
    OverlaysCoverBlackKeys(Keys(), highlighted, 0);
    KeysByOctave(true);
    SharpPositions();
  }

  /** Every key without '#' is emitted as a white key. */
  lemma WhiteKeyEmitted(keys: seq<string>, highlighted: seq<string>, i: nat)
    requires i < |keys| && !IsSharp(keys[i])
    ensures exists j :: 0 <= j < |RenderKeys(keys, highlighted, 0)| && RenderKeys(keys, highlighted, 0)[j].index == i
  {
    RenderKeysAreWhiteKeys(keys, highlighted, 0);
    PositionsComplete(keys, 0, false, i);
    var r := RenderKeys(keys, highlighted, 0);
    var j :| 0 <= j < |Indices(r)| && Indices(r)[j] == i;
  }

  /**
   * A black key that follows a natural one is overlaid by exactly one white
   * key, the one just before it, and that overlay is lit exactly when the
   * black key's name is highlighted. So rendering only white keys loses no
   * black key.
   */
  lemma BlackKeyOverlaidOnce(keys: seq<string>, highlighted: seq<string>, ws: seq<WhiteKey>, b: nat)
    requires ws == RenderKeys(keys, highlighted, 0)
    requires 0 < b < |keys| && IsSharp(keys[b]) && !IsSharp(keys[b - 1])
    ensures exists j :: 0 <= j < |ws| && ws[j].index + 1 == b
    ensures forall j :: 0 <= j < |ws| && ws[j].index + 1 == b ==>
      ws[j].hasBlackNeighbor && (ws[j].isNextActive <==> keys[b] in highlighted)
    ensures forall j, k :: 0 <= j < |ws| && 0 <= k < |ws| && ws[j].index + 1 == b && ws[k].index + 1 == b ==> j == k
  {
    RenderKeysSound(keys, highlighted, 0);
    WhiteKeyEmitted(keys, highlighted, b - 1);
  }

  /** A highlighted name that no key carries lights nothing: there is no normalisation. */
  lemma ForeignNamesLightNothing(keys: seq<string>, highlighted: seq<string>, ws: seq<WhiteKey>)
    requires ws == RenderKeys(keys, highlighted, 0)
    requires forall x :: x in highlighted ==> x !in keys
    ensures forall j :: 0 <= j < |ws| ==> !ws[j].isActive && !ws[j].isNextActive
  {
    RenderKeysSound(keys, highlighted, 0);
  }

  /** On the keyboard: every black key is overlaid by exactly one white key, the one before it. */
  lemma KeyboardBlackKeysOverlaid(highlighted: seq<string>, ws: seq<WhiteKey>, b: nat)
    requires ws == Layout(highlighted)
    requires b < |Keys()| && IsSharp(Keys()[b])
    ensures exists j :: 0 <= j < |ws| && ws[j].index + 1 == b
    ensures forall j :: 0 <= j < |ws| && ws[j].index + 1 == b ==>
      ws[j].hasBlackNeighbor && (ws[j].isNextActive <==> Keys()[b] in highlighted)
    ensures forall j, k :: 0 <= j < |ws| && 0 <= k < |ws| && ws[j].index + 1 == b && ws[k].index + 1 == b ==> j == k
  {
    KeysNoAdjacentSharps();
    assert b > 0 && !IsSharp(Keys()[b - 1]);
    BlackKeyOverlaidOnce(Keys(), highlighted, ws, b);
  }

  /** On the keyboard an E or a B is never followed by a '#' name. */
  lemma KeysAfterEAndB()
    ensures forall i :: 0 <= i < 24 && (Keys()[i] == "E" || Keys()[i] == "B") ==> !IsSharp(Keys()[i + 1])
  {
    KeysListed();
  }

  /** The white keys E and B, and the final high C, never carry a black overlay. */
  lemma NoOverlayAfterEAndB(highlighted: seq<string>, ws: seq<WhiteKey>)
    requires ws == Layout(highlighted)
    ensures forall j :: 0 <= j < |ws| && (ws[j].note == "E" || ws[j].note == "B" || ws[j].index == 24) ==> !ws[j].hasBlackNeighbor
  {
    KeysAfterEAndB();
    RenderKeysSound(Keys(), highlighted, 0);
    forall j | 0 <= j < |ws|
      ensures ws[j].note == Keys()[ws[j].index]
      ensures ws[j].hasBlackNeighbor <==> ws[j].index < 24 && IsSharp(Keys()[ws[j].index + 1])
    {
      RenderedKeyFacts(Keys(), highlighted, ws[j]);
    }
  }

  /**
   * With nothing highlighted, or only names that no key carries (such as
   * "Db" or "C4"), no key and no overlay lights up.
   */
  lemma NothingLit(highlighted: seq<string>, ws: seq<WhiteKey>)
    requires ws == Layout(highlighted)
    requires forall x :: x in highlighted ==> x !in OctaveNotes
    ensures forall j :: 0 <= j < |ws| ==> !ws[j].isActive && !ws[j].isNextActive
  {
    assert forall x :: x in Keys() ==> x in OctaveNotes;
    ForeignNamesLightNothing(Keys(), highlighted, ws);
  }

  /** Flat names and names with an octave are not key names. */
  lemma ForeignNameExamples()
    ensures "Db" !in OctaveNotes && "C4" !in OctaveNotes && "Bb" !in OctaveNotes
  {
  }
  /** The positions at or after `from` that carry exactly the name `name`. */
  function Occurrences(notes: seq<string>, from: nat, name: string): seq<nat>
    requires from <= |notes|
    decreases |notes| - from
  {
    if from == |notes| then []
    else if notes[from] == name then [from] + Occurrences(notes, from + 1, name)
    else Occurrences(notes, from + 1, name)
  }

  /** One step of `Occurrences`. */
  lemma OccurrencesStep(notes: seq<string>, from: nat, name: string)
    requires from < |notes|
    ensures Occurrences(notes, from, name) ==
      (if notes[from] == name then [from] else []) + Occurrences(notes, from + 1, name)
  {
  }

  /** Occurrences inside an appended block are that block's own, shifted. */
  lemma {:induction false} OccurrencesInSuffix(a: seq<string>, b: seq<string>, j: nat, name: string)
    requires j <= |b|
    decreases |b| - j
    ensures Occurrences(a + b, |a| + j, name) == Shift(Occurrences(b, j, name), |a|)
  {
    if j < |b| {
      OccurrencesInSuffix(a, b, j + 1, name);
      assert (a + b)[|a| + j] == b[j];
      OccurrencesStep(a + b, |a| + j, name);
      OccurrencesStep(b, j, name);
      var head: seq<nat> := if b[j] == name then [j] else [];
      ShiftAppend(head, Occurrences(b, j + 1, name), |a|);
      assert Shift(head, |a|) == if b[j] == name then [|a| + j] else [];
    }
  }

  /** The occurrences in `a + b` are those in `a` followed by those in `b`, shifted by `|a|`. */
  lemma {:induction false} OccurrencesAppend(a: seq<string>, b: seq<string>, from: nat, name: string)
    requires from <= |a|
    decreases |a| - from
    ensures Occurrences(a + b, from, name) == Occurrences(a, from, name) + Shift(Occurrences(b, 0, name), |a|)
  {
    if from == |a| {
      OccurrencesInSuffix(a, b, 0, name);
    } else {
      OccurrencesAppend(a, b, from + 1, name);
      assert (a + b)[from] == a[from];
      OccurrencesStep(a + b, from, name);
      OccurrencesStep(a, from, name);
    }
  }

  /** In a list without repeated names, the name at `i` occurs at `i` only. */
  lemma {:induction false} OccurrencesDistinct(notes: seq<string>, from: nat, i: nat)
    requires from <= |notes| && i < |notes|
    requires forall p, q :: 0 <= p < q < |notes| ==> notes[p] != notes[q]
    decreases |notes| - from
    ensures Occurrences(notes, from, notes[i]) == if from <= i then [i] else []
  {
    if from < |notes| {
      OccurrencesDistinct(notes, from + 1, i);
      OccurrencesStep(notes, from, notes[i]);
      assert notes[from] == notes[i] <==> from == i;
    }
  }

  /**
   * In two copies of a 12-name octave without repeats followed by "C", the
   * name at `i` occurs at `i` and `i + 12`, and also at 24 when it is "C".
   */
  lemma TwoOctavesAndCOccurrences(octave: seq<string>, i: nat)
    requires |octave| == 12 && i < 12
    requires forall p, q :: 0 <= p < q < |octave| ==> octave[p] != octave[q]
    ensures Occurrences(octave + octave + ["C"], 0, octave[i]) ==
      [i, i + 12] + (if octave[i] == "C" then [24] else [])
  {
    OccurrencesAppend(octave, octave, 0, octave[i]);
    OccurrencesAppend(octave + octave, ["C"], 0, octave[i]);
    OccurrencesDistinct(octave, 0, i);
    assert Occurrences(["C"], 0, octave[i]) == if octave[i] == "C" then [0] else [];
    assert Shift([i], 12) == [i + 12];
    assert Shift([0], 24) == [24];
  }

  /** On the keyboard the `i`-th name of the pattern sits at `i` and `i + 12`, and C also at 24. */
  lemma KeyOccurrences(i: nat)
    requires i < 12
    ensures Occurrences(Keys(), 0, OctaveNotes[i]) == [i, i + 12] + (if i == 0 then [24] else [])
  {
    OctaveNotesShape();
    TwoOctavesAndCOccurrences(OctaveNotes, i);
  }

  /** The positions of the lit white keys of `ws`, in order. */
  function ActiveKeys(ws: seq<WhiteKey>): seq<nat> {
    if ws == [] then []
    else if ws[0].isActive then [ws[0].index] + ActiveKeys(ws[1..])
    else ActiveKeys(ws[1..])
  }

  /** The positions of the black keys whose overlay is lit in `ws`, in order. */
  function ActiveOverlays(ws: seq<WhiteKey>): seq<nat> {
    if ws == [] then []
    else if ws[0].isNextActive then [ws[0].index + 1] + ActiveOverlays(ws[1..])
    else ActiveOverlays(ws[1..])
  }

  /** One step of `ActiveKeys` and of `ActiveOverlays`. */
  lemma ActiveStep(w: WhiteKey, rest: seq<WhiteKey>)
    ensures ActiveKeys([w] + rest) == (if w.isActive then [w.index] else []) + ActiveKeys(rest)
    ensures ActiveOverlays([w] + rest) == (if w.isNextActive then [w.index + 1] else []) + ActiveOverlays(rest)
  {
    assert ([w] + rest)[1..] == rest;
  }

  /** One key further: a white key is lit exactly when it carries `name`. */
  lemma ActiveKeyStep(keys: seq<string>, name: string, from: nat)
    requires from < |keys|
    requires ActiveKeys(RenderKeys(keys, [name], from + 1)) ==
      if IsSharp(name) then [] else Occurrences(keys, from + 1, name)
    ensures ActiveKeys(RenderKeys(keys, [name], from)) ==
      if IsSharp(name) then [] else Occurrences(keys, from, name)
  {
    var rest := RenderKeys(keys, [name], from + 1);
    RenderKeysStep(keys, [name], from);
    OccurrencesStep(keys, from, name);
    if IsSharp(keys[from]) {
      assert RenderKeys(keys, [name], from) == rest;
      assert keys[from] == name ==> IsSharp(name);
    } else {
      var w := RenderKey(keys, [name], from).value;
      assert RenderKeys(keys, [name], from) == [w] + rest;
      ActiveStep(w, rest);
      assert w.index == from && (w.isActive <==> keys[from] == name);
    }
  }

  /**
   * Highlighting a single name lights exactly the white keys carrying that
   * name, or none when the name contains '#'.
   */
  lemma {:induction false} ActiveKeysOfName(keys: seq<string>, name: string, from: nat)
    requires from <= |keys|
    decreases |keys| - from
    ensures ActiveKeys(RenderKeys(keys, [name], from)) == if IsSharp(name) then [] else Occurrences(keys, from, name)
  {
    if from < |keys| {
      ActiveKeysOfName(keys, name, from + 1);
      ActiveKeyStep(keys, name, from);
    }
  }

  /** A white key before a black one lights its overlay exactly when the black key carries `name`. */
  lemma OverlayLitStepBlack(keys: seq<string>, name: string, from: nat)
    requires from + 1 < |keys| && !IsSharp(keys[from]) && IsSharp(keys[from + 1])
    requires ActiveOverlays(RenderKeys(keys, [name], from + 2)) ==
      if IsSharp(name) then Occurrences(keys, from + 2, name) else []
    ensures ActiveOverlays(RenderKeys(keys, [name], from)) ==
      if IsSharp(name) then Occurrences(keys, from, name) else []
  {
    var w := RenderKey(keys, [name], from).value;
    var rest := RenderKeys(keys, [name], from + 2);
    RenderKeyBeforeBlack(keys, [name], from);
    assert w.isNextActive <==> keys[from + 1] == name;
    ActiveStep(w, rest);
    if IsSharp(name) {
      OccurrencesStep(keys, from, name);
      OccurrencesStep(keys, from + 1, name);
      assert keys[from] != name;
      assert Occurrences(keys, from, name) == (if w.isNextActive then [from + 1] else []) + Occurrences(keys, from + 2, name);
    } else {
      assert !w.isNextActive;
    }
  }

  /** A white key not before a black one lights no overlay. */
  lemma OverlayLitStepWhite(keys: seq<string>, name: string, from: nat)
    requires from < |keys| && !IsSharp(keys[from]) && !(from + 1 < |keys| && IsSharp(keys[from + 1]))
    requires ActiveOverlays(RenderKeys(keys, [name], from + 1)) ==
      if IsSharp(name) then Occurrences(keys, from + 1, name) else []
    ensures ActiveOverlays(RenderKeys(keys, [name], from)) ==
      if IsSharp(name) then Occurrences(keys, from, name) else []
  {
    RenderKeysStep(keys, [name], from);
    OccurrencesStep(keys, from, name);
    ActiveStep(RenderKey(keys, [name], from).value, RenderKeys(keys, [name], from + 1));
  }

  /**
   * With no two adjacent sharps, highlighting a single name lights exactly
   * the overlays of the black keys carrying that name, or none when the name
   * has no '#'.
   */
  lemma {:induction false} ActiveOverlaysOfName(keys: seq<string>, name: string, from: nat)
    requires from <= |keys|
    requires from < |keys| ==> !IsSharp(keys[from])
    requires NoAdjacentSharps(keys)
    decreases |keys| - from
    ensures ActiveOverlays(RenderKeys(keys, [name], from)) ==
      if IsSharp(name) then Occurrences(keys, from, name) else []
  {
    if from < |keys| {
      if from + 1 < |keys| && IsSharp(keys[from + 1]) {
        AfterSharpIsNatural(keys, from + 1);
        ActiveOverlaysOfName(keys, name, from + 2);
        OverlayLitStepBlack(keys, name, from);
      } else {
        ActiveOverlaysOfName(keys, name, from + 1);
        OverlayLitStepWhite(keys, name, from);
      }
    }
  }

  /**
   * Highlighting one name of the pattern, the `i`-th, on the keyboard: a
   * natural name lights the white keys at `i` and `i + 12` (and the high C
   * at 24 for "C") and no overlay; a '#' name lights no white key and the
   * overlays of the black keys at `i` and `i + 12`.
   */
  lemma LayoutHighlightsOneName(i: nat)
    requires i < 12
    ensures ActiveKeys(Layout([OctaveNotes[i]])) ==
      if IsSharp(OctaveNotes[i]) then [] else [i, i + 12] + (if i == 0 then [24] else [])
    ensures ActiveOverlays(Layout([OctaveNotes[i]])) ==
      if IsSharp(OctaveNotes[i]) then [i, i + 12] else []
  {
    KeyOccurrences(i);
    ActiveKeysOfName(Keys(), OctaveNotes[i], 0);
    KeysNoAdjacentSharps();
    ActiveOverlaysOfName(Keys(), OctaveNotes[i], 0);
  }

  /** Highlighting "C" lights the three C keys and no overlay. */
  lemma HighlightC(highlighted: seq<string>)
    requires highlighted == ["C"]
    ensures ActiveKeys(Layout(highlighted)) == [0, 12, 24] && ActiveOverlays(Layout(highlighted)) == []
  {
    LayoutHighlightsOneName(0);
    assert OctaveNotes[0] == "C" && !IsSharp("C");
  }

  /** Highlighting "F#" lights no white key and the two F# overlays. */
  lemma HighlightFSharp(highlighted: seq<string>)
    requires highlighted == ["F#"]
    ensures ActiveKeys(Layout(highlighted)) == [] && ActiveOverlays(Layout(highlighted)) == [6, 18]
  {
    LayoutHighlightsOneName(6);
    assert OctaveNotes[6] == "F#" && IsSharp("F#");
  }
}
