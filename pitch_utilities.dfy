/**
 * `note_name_to_number`: a note name such as "Bb5" or "C#2" read as a MIDI
 * number, with "C4" = 60. The name is lower-cased and its spaces removed;
 * the first character is the pitch class, the last the octave digit, and
 * whatever lies between is the accidental.
 */
module PitchUtilities {
  import opened Wrappers

  /** The exceptions of `note_name_to_number`, in the order Python meets them. */
  datatype NoteNameError =
    | EmptyName          // IndexError: `note_name[0]` of an empty name
    | OctaveNotDigit     // ValueError: `int(octave)`
    | UnknownPitchClass  // KeyError: `_pitch_class_displacements[pitch_class_name]`

  /** `str.lower()` on one character, for the ASCII letters. */
  function Lower(c: char): char
  {
    if 'A' <= c <= 'Z' then (c as int + 32) as char else c
  }

  /** `name.lower().replace(' ', '')`. */
  function Normalize(name: string): (r: string)
    ensures |r| <= |name|
  {
    if name == [] then []
    else (if name[0] == ' ' then [] else [Lower(name[0])]) + Normalize(name[1..])
  }

  /** `_pitch_class_displacements`. */
  function PitchClassOffset(c: char): Option<int>
  {
    match c
    case 'c' => Some(0)
    case 'd' => Some(2)
    case 'e' => Some(4)
    case 'f' => Some(5)
    case 'g' => Some(7)
    case 'a' => Some(9)
    case 'b' => Some(11)
    case _ => None
  }

  /** `_accidental_displacements`, with 0 for an accidental not in the table. */
  function AccidentalOffset(accidental: string): int
  {
    if accidental == "#" || accidental == "s" then 1
    else if accidental == "f" || accidental == "b" then -1
    else if accidental == "x" then 2
    else if accidental == "bb" then -2
    else 0
  }

  /** A character `int()` reads as a one-digit number; only the ASCII digits are modelled. */
  predicate IsDigit(c: char)
  {
    '0' <= c <= '9'
  }

  /** `note_name[1:-1]`, which is empty for a one-character name. */
  function Middle(n: string): string
  {
    if |n| >= 2 then n[1..|n| - 1] else []
  }

  /** `note_name_to_number`: `(octave + 1) * 12 + pitch class + accidental`. */
  function NoteNameToNumber(name: string): Result<int, NoteNameError>
  {
    var n := Normalize(name);
    if n == [] then Failure(EmptyName)
    else if !IsDigit(n[|n| - 1]) then Failure(OctaveNotDigit)
    else if PitchClassOffset(n[0]).None? then Failure(UnknownPitchClass)
    else
      var octave := n[|n| - 1] as int - '0' as int;
      Success((octave + 1) * 12 + PitchClassOffset(n[0]).value + AccidentalOffset(Middle(n)))
  }

  /** A normalised name has no spaces and no capitals. */
  lemma {:induction false} NormalizeClean(name: string)
    ensures forall i :: 0 <= i < |Normalize(name)| ==> Normalize(name)[i] != ' ' && !('A' <= Normalize(name)[i] <= 'Z')
  {
    if name != [] {
      NormalizeClean(name[1..]);
    }
  }

  /** Normalising a clean name changes nothing. */
  lemma {:induction false} NormalizeFixesClean(n: string)
    requires forall i :: 0 <= i < |n| ==> n[i] != ' ' && !('A' <= n[i] <= 'Z')
    ensures Normalize(n) == n
  {
    if n != [] {
      NormalizeFixesClean(n[1..]);
      assert [n[0]] + n[1..] == n;
    }
  }

  /** Spaces and capitals make no difference: the name reads like its normal form. */
  lemma NoteNameNormalized(name: string)
    ensures NoteNameToNumber(Normalize(name)) == NoteNameToNumber(name)
  {
    NormalizeClean(name);
    NormalizeFixesClean(Normalize(name));
  }

  /** A name of spaces only is the IndexError case. */
  lemma {:induction false} NormalizeEmpty(name: string)
    ensures Normalize(name) == [] <==> forall i :: 0 <= i < |name| ==> name[i] == ' '
  {
    if name != [] {
      NormalizeEmpty(name[1..]);
      assert forall i :: 1 <= i < |name| ==> name[1..][i - 1] == name[i];
    }
  }

  /** The error cases in the order Python meets them, and the range of a successful result. */
  lemma NoteNameCases(name: string)
    ensures NoteNameToNumber(name) == Failure(EmptyName) <==> forall i :: 0 <= i < |name| ==> name[i] == ' '
    ensures NoteNameToNumber(name) == Failure(OctaveNotDigit) <==>
      Normalize(name) != [] && !IsDigit(Normalize(name)[|Normalize(name)| - 1])
    ensures NoteNameToNumber(name) == Failure(UnknownPitchClass) <==>
      Normalize(name) != [] && IsDigit(Normalize(name)[|Normalize(name)| - 1]) && Normalize(name)[0] !in "cdefgab"
    ensures NoteNameToNumber(name).Success? ==> 10 <= NoteNameToNumber(name).value <= 133
  {
    NormalizeEmpty(name);
  }

  /** The upper-case letter of a natural pitch class 0, 2, 4, 5, 7, 9 or 11. */
  function NaturalLetter(pc: int): char
  {
    if pc < 2 then 'C' else if pc < 4 then 'D' else if pc < 5 then 'E' else if pc < 7 then 'F'
    else if pc < 9 then 'G' else if pc < 11 then 'A' else 'B'
  }

  /** A pitch class spelled with a sharp where it has no natural name. */
  function PitchClassName(pc: int): string
  {
    if pc in {1, 3, 6, 8, 10} then [NaturalLetter(pc), '#'] else [NaturalLetter(pc)]
  }

  /** The sharp spelling of a MIDI number in octaves 0 to 9, e.g. "C#2" for 37. */
  function NoteName(m: int): string
    requires 12 <= m < 132
  {
    PitchClassName(m % 12) + [('0' as int + m / 12 - 1) as char]
  }

  /** Reading a pitch-class spelling back gives the pitch class. */
  lemma PitchClassRoundTrip(pc: int, d: char)
    requires 0 <= pc < 12 && IsDigit(d)
    ensures var n := Normalize(PitchClassName(pc) + [d]);
      && n == [Lower(NaturalLetter(pc))] + Middle(PitchClassName(pc) + [d]) + [d]
      && PitchClassOffset(n[0]).Some?
      && PitchClassOffset(n[0]).value + AccidentalOffset(Middle(n)) == pc
  {
    var s := PitchClassName(pc) + [d];
    NormalizeFixesClean([Lower(NaturalLetter(pc))] + Middle(s) + [d]);
    if |PitchClassName(pc)| == 2 {
      assert s == [NaturalLetter(pc), '#', d];
      assert Normalize(s) == [Lower(NaturalLetter(pc)), '#', d] by {
        assert s[1..] == ['#', d] && s[1..][1..] == [d] && s[1..][1..][1..] == [];
      }
    } else {
      assert s == [NaturalLetter(pc), d];
      assert Normalize(s) == [Lower(NaturalLetter(pc)), d] by {
        assert s[1..] == [d] && s[1..][1..] == [];
      }
    }
  }

  /** Every MIDI number from 12 to 131 survives spelling and reading back. */
  lemma NoteNameRoundTrip(m: int)
    requires 12 <= m < 132
    ensures NoteNameToNumber(NoteName(m)) == Success(m)
  {
    var d := ('0' as int + m / 12 - 1) as char;
    PitchClassRoundTrip(m % 12, d);
  }

  /** The examples of the docstring: "C4" is 60 and "Bb5" is 82. */
  lemma DocstringExamples()
    ensures NoteNameToNumber("C4") == Success(60)
    ensures NoteNameToNumber("Bb5") == Success(82)
  {
    assert Normalize("C4") == "c4" by {
      assert "C4"[1..] == "4" && "4"[1..] == [];
    }
    assert Normalize("Bb5") == "bb5" by {
      assert "Bb5"[1..] == "b5" && "b5"[1..] == "5" && "5"[1..] == [];
    }
    assert Middle("bb5") == "b";
  }
}
