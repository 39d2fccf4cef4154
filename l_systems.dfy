/**
 * `LSystem`: a Lindenmayer system over the letters of a string. Each
 * generation rewrites every letter of the previous one by its evolution rule;
 * a letter without a rule is a constant and stays as it is.
 */
module LSystems {
  import opened Wrappers

  /** The ValueError and KeyError paths of `get_generation` and `get_generation_meanings`. */
  datatype LSystemError =
    | InvalidGeneration   // n < 0
    | NoMeanings          // the system was built without a meanings dictionary
    | MissingMeaning      // a letter of the generation has no meaning: `meanings[letter]`

  /** `rules.get(letter, letter)`. */
  function Rewrite(rules: map<char, string>, letter: char): string
  {
    if letter in rules then rules[letter] else [letter]
  }

  /** `"".join(rules.get(letter, letter) for letter in s)`. */
  function Step(rules: map<char, string>, s: string): string
  {
    if s == [] then [] else Rewrite(rules, s[0]) + Step(rules, s[1..])
  }

  /** Generation n, counting the seed as generation 0. */
  function Generation(seed: string, rules: map<char, string>, n: nat): string
  {
    if n == 0 then seed else Step(rules, Generation(seed, rules, n - 1))
  }

  /** `get_generation(n)`: a ValueError for a negative n. */
  function GetGeneration(seed: string, rules: map<char, string>, n: int): (r: Result<string, LSystemError>)
    ensures r.Failure? <==> n < 0
    ensures n == 0 ==> r == Success(seed)
    ensures n > 0 ==> r == Success(Step(rules, GetGeneration(seed, rules, n - 1).value))
  {
    if n < 0 then Failure(InvalidGeneration) else Success(Generation(seed, rules, n))
  }

  /** Rewriting distributes over concatenation: each letter is rewritten on its own. */
  lemma {:induction false} StepAppend(rules: map<char, string>, s: string, t: string)
    ensures Step(rules, s + t) == Step(rules, s) + Step(rules, t)
  {
    if s == [] {
      assert s + t == t;
    } else {
      assert (s + t)[0] == s[0] && (s + t)[1..] == s[1..] + t;
      StepAppend(rules, s[1..], t);
    }
  }

  /** The total length of the rewrites of the letters of `s`, summed from the back. */
  function RewriteLength(rules: map<char, string>, s: string): nat
  {
    if s == [] then 0 else RewriteLength(rules, s[..|s| - 1]) + |Rewrite(rules, s[|s| - 1])|
  }

  /** The next generation is as long as the rewrites of this one's letters together. */
  lemma {:induction false} StepLength(rules: map<char, string>, s: string)
    ensures |Step(rules, s)| == RewriteLength(rules, s)
  {
    if s != [] {
      var init, last := s[..|s| - 1], s[|s| - 1];
      assert s == init + [last];
      StepAppend(rules, init, [last]);
      assert Step(rules, [last]) == Rewrite(rules, last) by {
        assert [last][1..] == [];
      }
      StepLength(rules, init);
    }
  }

  /** A string of constants rewrites to itself. */
  lemma {:induction false} StepConstants(rules: map<char, string>, s: string)
    requires forall i :: 0 <= i < |s| ==> s[i] !in rules
    ensures Step(rules, s) == s
  {
    if s != [] {
      StepConstants(rules, s[1..]);
      assert [s[0]] + s[1..] == s;
    }
  }

  /** When no letter of the seed has a rule, every generation is the seed. */
  lemma {:induction false} ConstantSeed(seed: string, rules: map<char, string>, n: nat)
    requires forall i :: 0 <= i < |seed| ==> seed[i] !in rules
    ensures GetGeneration(seed, rules, n) == Success(seed)
  {
    if n > 0 {
      ConstantSeed(seed, rules, n - 1);
      StepConstants(rules, seed);
    }
  }

  /** `tuple(meanings[letter] for letter in s)`, failing at the first letter without a meaning. */
  function Meanings<M>(meanings: map<char, M>, s: string): Result<seq<M>, LSystemError>
  {
    if s == [] then Success([])
    else if s[0] !in meanings then Failure(MissingMeaning)
    else
      var rest :- Meanings(meanings, s[1..]);
      Success([meanings[s[0]]] + rest)
  }

  /** `get_generation_meanings(n)`: a ValueError without meanings, checked before `n`. */
  function GetGenerationMeanings<M>(seed: string, rules: map<char, string>, meanings: Option<map<char, M>>, n: int)
    : (r: Result<seq<M>, LSystemError>)
    ensures meanings.None? ==> r == Failure(NoMeanings)
    ensures meanings.Some? && n < 0 ==> r == Failure(InvalidGeneration)
    ensures meanings.Some? && n >= 0 ==> r == Meanings(meanings.value, Generation(seed, rules, n))
  {
    if meanings.None? then Failure(NoMeanings)
    else
      var g :- GetGeneration(seed, rules, n);
      Meanings(meanings.value, g)
  }

  /** The meanings succeed exactly when every letter has one, and then give one entry per letter, in order. */
  lemma {:induction false} MeaningsPerLetter<M>(meanings: map<char, M>, s: string)
    ensures Meanings(meanings, s).Success? <==> forall i :: 0 <= i < |s| ==> s[i] in meanings
    ensures Meanings(meanings, s).Success? ==>
      |Meanings(meanings, s).value| == |s| &&
      forall i :: 0 <= i < |s| ==> Meanings(meanings, s).value[i] == meanings[s[i]]
  {
    if s != [] {
      MeaningsPerLetter(meanings, s[1..]);
      if s[0] in meanings && Meanings(meanings, s[1..]).Success? {
        var rest := Meanings(meanings, s[1..]).value;
        forall i | 1 <= i < |s|
          ensures ([meanings[s[0]]] + rest)[i] == meanings[s[i]]
        {
          assert s[1..][i - 1] == s[i];
        }
      }
      if forall i :: 0 <= i < |s| ==> s[i] in meanings {
        assert forall i :: 0 <= i < |s| - 1 ==> s[1..][i] == s[i + 1];
      }
    }
  }

  /** The two-letter algae system: A -> AB, B -> A. */
  function Algae(): map<char, string>
  {
    map['A' := "AB", 'B' := "A"]
  }

  /** Its second generation from "A" is "ABA". */
  lemma AlgaeSecondGeneration()
    ensures GetGeneration("A", Algae(), 2) == Success("ABA")
  {
    assert Step(Algae(), "A") == "AB" by {
      assert "A"[1..] == [];
    }
    assert Step(Algae(), "AB") == "ABA" by {
      assert "AB"[1..] == "B" && "B"[1..] == [];
    }
  }
}
