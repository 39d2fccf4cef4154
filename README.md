# scamp_extensions in Dafny

A verified model of the computational core of `scamp_extensions`, the
extension package of the SCAMP music-composition library.

The main part is the metric indispensability engine, after Clarence Barlow's
rhythmic indispensability. It covers:

- the hand-written meter-expression parser (`MeterArithmeticGroup.parse`) and
  its translation into `MetricLayer` trees;
- the layer constructor, which collapses redundant nesting and optionally
  breaks numbers above 3 into 2s and 3s;
- the backward beat numbering, depth normalisation and priority flattening;
- the final indispensability array;
- the three public entry points built on them;
- the older strata-based version of the same algorithm in `barlicity.py`,
  together with its integer helpers (Euclid's gcd, lcm, a primality test,
  prime factorisation and the cached n-th prime).

Beside it the project models the package's smaller self-contained cores:

- sequence rotation and nesting depth, and `lcm`;
- the pitch-interval algebra of both `PitchInterval` classes, including
  their `parse` and dict round trip;
- modal rotation of a `ScaleType` and the line loop of the Scala loader;
- note-name to MIDI-number conversion;
- L-system rewriting;
- boolean streams and Xenakis sieves;
- the two generators `random_walk` and `non_repeating_shuffle`;
- the preset state machine of `MultiPresetInstrument`;
- the key table and key handler of `KeyPlane`;
- the MIDI note pairing loop and the dict scraper.

## Module layout

The modules follow the program's structure. Their dependencies, and what each
one models, are listed below.

**Shared definitions**

- `Wrappers` (`wrappers.dfy`): `Option` and `Result`.
- `Builtins` (`builtins.dfy`): Python's slices, `range`, `reversed`, `str`,
  `int` and `join`.
- `MathUtil` (`math_util.dfy`): Python's `//` and `%`, the gcd and `lcm`.
- `Fractions` (`fractions.dfy`): `fractions.Fraction` as a reduced pair of
  integers.

**The rhythm engine** (`rhythm/indispensibility.py` and its public wrapper)

- `Sequences`: `rotate_sequence` and `sequence_depth`.
- `MetricLayers`: the `MetricLayer` constructor and its operators.
- `Flatten`: `flatten_beat_groups`.
- `BeatTrees`: beat numbering and `normalize_depth`.
- `BeatPriorities`: the flattening loop and the array.
- `MeterParser`: `parse` and `to_metric_layer`.
- `Indispensability`: the three entry points.

**`barlicity.py`**

- `Barlicity`: the strata-based indispensability algorithm.
- `BarlicityNumbers`: the integer helpers.

**The smaller cores**, one module each:

- `PitchIntervals`
- `ScaleTypes`
- `PitchUtilities`
- `LSystems`
- `BooleanStreams`
- `Generators`
- `Presets`
- `KeyPlanes`
- `Midi`

**How the model takes the source's form**

- Loops that update variables are methods. Each is proved against a
  specification function, and the lemmas about that function state what the
  source promises:
  - the chunk and merge loops of the parser;
  - the pops of `flatten_beat_groups`;
  - the flattening loop;
  - `_gcd`, `_prime_factor` and `_get_nth_prime`;
  - the whittling loop of the strata algorithm;
  - the strata multipliers;
  - `sequence_depth` and `decompose_to_twos_and_threes`;
  - the Scala line loop;
  - `random_walk` and `non_repeating_shuffle`;
  - the MIDI loop;
  - the sieve.
- Objects whose fields the source updates in place are classes:
  - the prime cache of `_get_nth_prime`;
  - `ScaleType`;
  - `MultiPresetInstrument`;
  - `KeyPlane`;
  - the dict that `_from_dict` rewrites.
- Random draws, the MIDI file's messages and the callables handed to the
  program are parameters.

**Two behaviours worth knowing**

- Strata (2, 2) give `[3, 0, 2, 1]` from
  `barlow_style_indispensability_array`, the same array as a bar of 4.
  Both `BarlowStyleTwoByTwo` and `Barlicity.TwoByTwoExample` prove it.
- A group of 0 beats is accepted by the `MetricLayer` constructor. It fails
  later, in `normalize_depth`, where `max()` meets an empty list.

## Model

| member | source | states |
|---|---|---|
| `Builtins.SliceBound` | rhythm/indispensibility.py:13-14 | a Python slice bound lies within `0..len`, clamped and counted from the end for negatives |
| `Builtins.Reverse` | scamp_extensions/composers/barlicity.py:493 | `reverse()` keeps the length and puts element `i` at `len - 1 - i` |
| `Builtins.PermutationMultiset` | rhythm/indispensibility.py:299-318 | `n` distinct values below `n` are exactly `range(n)` as a multiset |
| `Builtins.IndexOf` | rhythm/indispensibility.py:311 | `s.index(x)` is the first position holding `x` |
| `Builtins.DigitsValueOfNatToString` | rhythm/indispensibility.py:160 | `int(str(n)) == n` for every natural `n` |
| `MathUtil.FloorDivModIdentity` | scamp_extensions/composers/barlicity.py:57 | Python's `a == b * (a // b) + a % b`, with the remainder taking the divisor's sign |
| `MathUtil.PyModUnique` | scamp_extensions/composers/barlicity.py:57 | Python's remainder is the only one in the divisor's sign range completing the identity |
| `MathUtil.GcdDivides` | scamp_extensions/utilities/math.py:28 | `gcd(a, b)` divides both and is 0 only for `gcd(0, 0)` |
| `MathUtil.GcdGreatest` | scamp_extensions/utilities/math.py:28 | every common divisor divides the gcd |
| `MathUtil.Bezout` | scamp_extensions/utilities/math.py:28 | the gcd is an integer combination of the arguments |
| `MathUtil.GcdSymmetric` | scamp_extensions/utilities/math.py:28 | the gcd does not depend on argument order |
| `MathUtil.Lcm` | scamp_extensions/utilities/math.py:26-28 | `lcm(a, b)` raises ZeroDivisionError exactly when both are 0 |
| `MathUtil.LcmValue` | scamp_extensions/utilities/math.py:26-28 | for positive arguments `lcm` is `a * (b / gcd)`, also `(a / gcd) * b` |
| `MathUtil.LcmIsCommonMultiple` | scamp_extensions/utilities/math.py:26-28 | for positive arguments both divide `lcm(a, b)` and `lcm * gcd == a * b` |
| `MathUtil.LcmDividesCommonMultiples` | scamp_extensions/utilities/math.py:26-28 | the lcm divides every common multiple: it is the least one |
| `MathUtil.LcmSymmetric` | scamp_extensions/utilities/math.py:26-28 | `lcm(a, b) == lcm(b, a)` on all integers, including the failing `(0, 0)` |
| `Fractions.Make` | scamp_extensions/pitch/scale.py:118 | `Fraction(n, d)` is in lowest terms with a positive denominator and names `n / d`; ZeroDivisionError for `d == 0` |
| `Fractions.FromInt` | scamp_extensions/pitch/scale.py:80 | `Fraction(n)` names `n / 1` |
| `Fractions.Mul` | scamp_extensions/pitch/scale.py:126 | the product is in lowest terms and names the product of the numbers |
| `Fractions.Inv` | scamp_extensions/pitch/scale.py:121 | `1 / a` names the reciprocal; ZeroDivisionError for a zero fraction |
| `Fractions.Unique` | scamp_extensions/pitch/scale.py:118 | one number has one normal form |
| `Fractions.MulCommutes` | scamp_extensions/pitch/scale.py:126 | multiplication commutes |
| `Fractions.MulAssociates` | scamp_extensions/pitch/scale.py:126 | multiplication associates |
| `Fractions.MulOne` | scamp_extensions/pitch/scale.py:126 | 1 is the unit |
| `Fractions.MulInverse` | scamp_extensions/pitch/scale.py:121 | a nonzero fraction times its reciprocal is 1 |
| `Fractions.InvInvolutive` | scamp_extensions/pitch/scale.py:121 | taking the reciprocal twice gives the fraction back |
| `Fractions.InvMul` | scamp_extensions/pitch/scale.py:121 | the reciprocal of a product is the product of the reciprocals |
| `Sequences.RotateIsPermutation` | scamp_extensions/utilities/sequences.py:27-35 | `rotate_sequence` keeps the length and the multiset of elements |
| `Sequences.RotateAt` | scamp_extensions/utilities/sequences.py:35 | for `0 <= n <= len(s)`, element `i` is `s[(i + n) mod len(s)]` |
| `Sequences.RotateNegative` | scamp_extensions/utilities/sequences.py:35 | a shift `-len(s) <= n < 0` rotates by `len(s) + n` |
| `Sequences.RotateLongShift` | scamp_extensions/utilities/sequences.py:35 | a shift of at least the length in either direction leaves `s` unchanged: the clamped slices do not wrap around |
| `Sequences.RotateWrappedAt` | scamp_extensions/utilities/sequences.py:27-32 | the wrap-around rotation the docstring describes puts `s[(i + n) mod len(s)]` at `i` for every shift |
| `Sequences.RotateWrappedAgrees` | scamp_extensions/utilities/sequences.py:27-35 | for `-len(s) < n < len(s)` the code and the wrap-around rotation agree |
| `Sequences.RotateLongShiftExample` | scamp_extensions/utilities/sequences.py:27-35 | `rotate_sequence([0, 1], 3)` is `[0, 1]`, where wrapping around gives `[1, 0]` |
| `Sequences.SequenceDepth` | scamp_extensions/utilities/sequences.py:38-54 | with strings read as atoms, the frontier loop returns the recursive depth: 0 for a non-Sequence or empty one, else 1 + the deepest element |
| `Sequences.OneCharStringFrontierFixed` | scamp_extensions/utilities/sequences.py:52-53 | the program's frontier step maps `['a']` to itself, since a one-character string is its own element |
| `Sequences.StringSurvivesStep` | scamp_extensions/utilities/sequences.py:52-53 | a non-empty string in the frontier leaves one in the next frontier |
| `Sequences.StringsNeverEnd` | scamp_extensions/utilities/sequences.py:50-54 | once a non-empty string occurs, every later frontier is non-empty, so the loop never returns |
| `Sequences.OneStringNeverEnds` | scamp_extensions/utilities/sequences.py:46-54 | `sequence_depth(["a"])` never returns |
| `Sequences.AsWrittenAgrees` | scamp_extensions/utilities/sequences.py:52-53 | on a frontier without non-empty strings, the program's step is the model's step |
| `Sequences.SequenceDepthExample` | scamp_extensions/utilities/sequences.py:42-45 | a list nested three levels deep has depth 3 |
| `MetricLayers.DecomposeToTwosAndThrees` | rhythm/indispensibility.py:17-35 | the loop yields `Decompose(n)`: for `n >= 2` all 2s with at most one trailing 3, summing to `n` |
| `MetricLayers.DecomposeSums` | rhythm/indispensibility.py:17-35 | for `n >= 2` the pieces are 2s with at most one trailing 3 and add up to `n` |
| `MetricLayers.DecomposeExamples` | rhythm/indispensibility.py:17-35 | 7 gives `[2, 2, 3]` and 4 gives `[2, 2]` |
| `MetricLayers.RemoveRedundantNestingNormalizes` | rhythm/indispensibility.py:253-266 | removing redundant nesting reaches the normal form and keeps the beat count |
| `MetricLayers.RemoveRedundantNestingIdempotent` | rhythm/indispensibility.py:253-266 | on a normal form nothing is removed, so normalising twice is normalising once |
| `MetricLayers.BreakUp` | rhythm/indispensibility.py:244-251 | breaking up keeps one group per group |
| `MetricLayers.BreakUpKeepsCount` | rhythm/indispensibility.py:244-251 | breaking up keeps the beat count and leaves no count above 3 |
| `MetricLayers.NewLayerNormal` | rhythm/indispensibility.py:218-238 | every constructed layer is in normal form (not a single nested layer, no child of one int) and counts the beats of its groups |
| `MetricLayers.AddNests` | rhythm/indispensibility.py:340-342 | `a + b` is `[Nest(a), Nest(b)]`: both operands side by side one level down, where an operand of a single beat count stays that count; the beats add up |
| `MetricLayers.MulCount` | rhythm/indispensibility.py:344-355 | multiplying layers multiplies their beat counts |
| `MetricLayers.MulNormal` | rhythm/indispensibility.py:344-355 | every product is a constructed layer, hence in normal form |
| `MetricLayers.ExtendNormal` | rhythm/indispensibility.py:320-328 | `extend`, in place or not, gives a normal layer holding the beats of both layers |
| `MetricLayers.ExtendConcatenates` | rhythm/indispensibility.py:320-328 | extending a normal layer by a normal layer is the concatenation of their groups |
| `MetricLayers.AppendLayer` | rhythm/indispensibility.py:330-335 | appending a layer adds it as one group (a one-count layer as that count), or takes over its groups when this layer is empty; the beats add up |
| `MetricLayers.AppendBeats` | rhythm/indispensibility.py:330-335 | appending a beat count to a normal layer adds it as one more group |
| `MetricLayers.OperatorExamples` | rhythm/indispensibility.py:340-355 | worked examples of `+`, `*` and `__rmul__` on small layers |
| `Flatten.MaxLengthBounds` | rhythm/indispensibility.py:205 | the longest remaining length bounds every sub-group and is reached by one |
| `Flatten.FirstWithLengthIsFirst` | rhythm/indispensibility.py:209-212 | no sub-group before the one found has the length, and one is found whenever some sub-group has it |
| `Flatten.FirstLongest` | rhythm/indispensibility.py:205-212 | the first longest sub-group exists while any is non-empty, and none is longer or earlier with that length |
| `Flatten.AfterPickupsAt` | rhythm/indispensibility.py:197-201 | the upbeat pass takes each sub-group's head and leaves an empty one empty |
| `Flatten.FlattenBeatGroups` | rhythm/indispensibility.py:175-213 | the popping loops on a private copy return `Flattened(gs, upbeats)` and leave the argument unchanged |
| `Flatten.PopHeads` | rhythm/indispensibility.py:194-195 | the first loop outputs every sub-group's head, in order, and leaves the tails |
| `Flatten.PopPickups` | rhythm/indispensibility.py:197-201 | the upbeat loop outputs the next element of each still non-empty sub-group, in order |
| `Flatten.PopLongest` | rhythm/indispensibility.py:204-213 | the last loop pops one element at a time from the first longest sub-group until all are empty |
| `Flatten.FlattenedIsPermutation` | rhythm/indispensibility.py:175-213 | the output holds every element of the sub-groups exactly once and begins with the first sub-group's head |
| `Flatten.DrainStep` | rhythm/indispensibility.py:204-212 | each step of the last phase takes the head of the first sub-group of greatest remaining length |
| `Flatten.FlattenExampleUpbeats` | rhythm/indispensibility.py:181-188 | for `[[0, 1, 2], [3, 4]]` the upbeat to the longer group comes right after the heads |
| `Flatten.FlattenExampleNoUpbeats` | rhythm/indispensibility.py:181-188 | without upbeats the longest group is whittled first |
| `Flatten.FlattenExampleTwoPairs` | rhythm/indispensibility.py:181-188 | `[[0, 1], [2, 3]]` flattens to both heads, then both tails |
| `BeatTrees.Shift` | rhythm/indispensibility.py:273-279 | every element moves by `k`, in order |
| `BeatTrees.IncrementLeaves` | rhythm/indispensibility.py:273-279 | `_increment_nested_list` shifts the leaves by `k` and keeps the shape |
| `BeatTrees.BeatGroupLeaves` | rhythm/indispensibility.py:281-289 | a group of `n` beats holds the beat numbers `0..n-1` |
| `BeatTrees.NestedBeatGroupsLeaves` | rhythm/indispensibility.py:281-289 | read left to right, the leaves of the nested beat groups are exactly `0..N-1` for `N` beats |
| `BeatTrees.NestedFromOrder` | rhythm/indispensibility.py:281-289 | groups are numbered from the right: entry `j` is the group `j` places from the end, shifted past the beats after it |
| `BeatTrees.MaxDepthBounds` | rhythm/indispensibility.py:38-54 | `max(depth(e))` bounds every element's depth and is reached by one |
| `BeatTrees.NormalizeDepthSound` | rhythm/indispensibility.py:57-75 | after `normalize_depth` every element is uniform at the deepest element's depth and the leaf order is unchanged |
| `BeatTrees.NormalizeUniform` | rhythm/indispensibility.py:57-75 | a list already uniform at one depth is left as it is |
| `BeatTrees.NormalizeDepthIdempotent` | rhythm/indispensibility.py:57-75 | `normalize_depth` is idempotent |
| `BeatTrees.NormalizeDepthSucceeds` | rhythm/indispensibility.py:57-75 | normalisation fails (the `max()` of an empty list) exactly when the argument or some nested list is empty |
| `BeatTrees.NestedBeatGroupsNoEmptyList` | rhythm/indispensibility.py:281-297 | the nested beat groups normalise exactly when the layer has groups and no group anywhere is 0 beats or empty |
| `BeatPriorities.FlattenTreesLeaves` | rhythm/indispensibility.py:291-297 | a round of flattening keeps the leaves, reordered |
| `BeatPriorities.FlattenTreesFirst` | rhythm/indispensibility.py:291-297 | a round of flattening keeps the first leaf first |
| `BeatPriorities.FlattenTreesDepth` | rhythm/indispensibility.py:291-297 | each round takes exactly one level off a uniform list |
| `BeatPriorities.FlattenToLeavesSound` | rhythm/indispensibility.py:291-297 | flattening a uniform list of depth `d` `d` times leaves a reordering of its leaves with the first leaf first |
| `BeatPriorities.FlattenRound` | rhythm/indispensibility.py:295-296 | one pass of the `while` body advances the flattened list by one round |
| `BeatPriorities.NestingLevel` | rhythm/indispensibility.py:295 | `depth(nested)` after `k` rounds is one more than the remaining depth |
| `BeatPriorities.FlattenWhileNested` | rhythm/indispensibility.py:295-297 | the loop `while depth(nested) > 1` ends with the list flattened to leaves |
| `BeatPriorities.GetBackwardBeatPriorities` | rhythm/indispensibility.py:291-297 | normalising then flattening returns `BackwardBeatPriorities` of the layer, failing where normalisation fails |
| `BeatPriorities.BackwardBeatPrioritiesSucceeds` | rhythm/indispensibility.py:291-297 | the priorities exist exactly when the layer has groups and none anywhere is 0 beats or empty |
| `BeatPriorities.BackwardBeatPrioritiesPermutation` | rhythm/indispensibility.py:291-297 | the ranking is a permutation of the `N` beats, beat 0 first |
| `BeatPriorities.BackwardArray` | rhythm/indispensibility.py:311 | `length - 1 - bbp.index(i)` is a rank below `length` for each beat |
| `BeatPriorities.IndispensabilityArrayAt` | rhythm/indispensibility.py:299-318 | beat `j`'s indispensability is `N - 1` minus the rank of beat `(N - j) mod N` |
| `BeatPriorities.IndispensabilityArrayPermutation` | rhythm/indispensibility.py:299-318 | a permutation ranking gives a permutation array whose downbeat is `N - 1` |
| `BeatPriorities.LayerIndispensabilityArrayPermutation` | rhythm/indispensibility.py:299-318 | for a layer of `N` beats the array is a permutation of `0..N-1` with `N - 1` on the downbeat |
| `BeatPriorities.TwoPlusThreeExample` | rhythm/indispensibility.py:181-188 | "2+3" gives `[4, 1, 3, 0, 2]`, and `[4, 0, 3, 1, 2]` without upbeats first |
| `BeatPriorities.TwoPlusTwoExample` | rhythm/indispensibility.py:299-318 | "2+2" without upbeats first gives `[3, 0, 2, 1]` |
| `MeterParser.RemoveSpaces` | rhythm/indispensibility.py:102 | the result has no space and is no longer than the input |
| `MeterParser.RemoveSpacesKeeps` | rhythm/indispensibility.py:102 | removing spaces keeps every other character, in order |
| `MeterParser.RemoveSpacesIdempotent` | rhythm/indispensibility.py:102 | removing spaces twice is removing them once |
| `MeterParser.ScanFailureStays` | rhythm/indispensibility.py:127-128 | once the chunking loop has failed it stays failed with the same error |
| `MeterParser.SplitChunks` | rhythm/indispensibility.py:110-139 | the chunking loop returns the chunks, or the parenthesis error it raises |
| `MeterParser.ScanTracksBalance` | rhythm/indispensibility.py:110-139 | `paren_level` is the parenthesis balance read so far, and the loop raises exactly when it goes negative |
| `MeterParser.ChunksParentheses` | rhythm/indispensibility.py:110-139 | chunking fails exactly on unbalanced parentheses: a stray `)` in the loop, a missing `)` after it |
| `MeterParser.ChunksShorter` | rhythm/indispensibility.py:110-158 | every chunk of a compound expression is shorter than the expression, so the recursive parses end |
| `MeterParser.CollectFactors` | rhythm/indispensibility.py:143-150 | the inner merge loop collects every `*`-joined chunk as a factor and stops at the first other chunk |
| `MeterParser.UnbalancedIsSpecial` | rhythm/indispensibility.py:110 | unbalanced text holds a parenthesis, so it takes the compound branch |
| `MeterParser.ParseErrors` | rhythm/indispensibility.py:102-139 | the AssertionError of the first failing check, in order: empty, illegal character, leading or trailing operator, adjacent operators, stray `)`, missing `)` |
| `MeterParser.Parse` | rhythm/indispensibility.py:95-160 | a parse succeeds only with a well-formed tree whose products all have factors |
| `MeterParser.MergeMultiplies` | rhythm/indispensibility.py:141-158 | the merge loop returns the parsed products, keeps the `+`-separated chunks and parses them, in order |
| `MeterParser.ToMetricLayerCount` | rhythm/indispensibility.py:162-169 | the layer has as many beats as the expression's value: `+` adds, `*` multiplies |
| `MeterParser.ToMetricLayerSucceeds` | rhythm/indispensibility.py:162-169 | `to_metric_layer` fails only on an empty product, never on what `parse` returns |
| `MeterParser.ParseDigits` | rhythm/indispensibility.py:159-160 | a string of digits parses to the number it spells |
| `MeterParser.ParseNatToString` | rhythm/indispensibility.py:159-160 | `parse(str(n))` is the plain number `n` |
| `MeterParser.ChunksOfJoin` | rhythm/indispensibility.py:110-137 | `n0 op n1 ... op nk` chunks into the numerals with operator chunks between them |
| `MeterParser.ParseProduct` | rhythm/indispensibility.py:141-158 | `"*".join` of numerals parses to the number, or to a sum holding one product of all of them: a run of `*` is one node |
| `MeterParser.ParseSum` | rhythm/indispensibility.py:141-158 | `"+".join` of numerals parses to the number, or to one sum of the numbers |
| `MeterParser.ParseNestedSum` | rhythm/indispensibility.py:110-158 | "(a+b)+c" is a sum whose first member is the sum of a and b, unlike "a+b+c": sums are not associative |
| `Indispensability.FromExpressionArray` | scamp_extensions/rhythm/indispensability.py:9-13 | parse errors come out unchanged; a parsed expression gives a permutation of `0..N-1` with `N - 1` on the downbeat |
| `Indispensability.FromExpressionSucceeds` | scamp_extensions/rhythm/indispensability.py:9-13 | an expression of positive numbers always has an array |
| `Indispensability.ToMetricLayerNonEmpty` | rhythm/indispensibility.py:162-169 | the layer of a positive expression has no empty group |
| `Indispensability.NewLayerNonEmpty` | rhythm/indispensibility.py:218-238 | the constructor keeps every group non-empty, breaking up or not |
| `Indispensability.StrataExpressionOfCounts` | scamp_extensions/rhythm/indispensability.py:16-24 | whole-number strata are written as their numerals joined by `*` |
| `Indispensability.ParseOfCounts` | scamp_extensions/rhythm/indispensability.py:16-24 | whole-number strata parse to the product of the numbers |
| `Indispensability.FromStrataOfCounts` | scamp_extensions/rhythm/indispensability.py:16-24 | whole-number strata give an array exactly when all are positive; it is a permutation of `range(product)` with the downbeat highest |
| `Indispensability.BarlowStyleOfCounts` | scamp_extensions/rhythm/indispensability.py:27-31 | on positive whole numbers the array is a permutation with the downbeat highest |
| `Indispensability.BarlowStyleErrors` | scamp_extensions/rhythm/indispensability.py:28-29 | a sequence stratum raises ValueError before any text is built; no strata at all fails the empty-input assertion |
| `Indispensability.BarlowStyleNegative` | scamp_extensions/rhythm/indispensability.py:27-31 | a negative stratum fails the illegal-character assertion because of its `-` |
| `Indispensability.BarlowStyleFour` | rhythm/indispensibility.py:389-393 | `barlow_style_indispensibility_array(4)` is `[3, 0, 2, 1]` |
| `Indispensability.BarlowStyleTwoByTwo` | scamp_extensions/rhythm/indispensability.py:27-31 | the strata (2, 2) give `[3, 0, 2, 1]`, the array of a bar of 4 |
| `Indispensability.FromExpressionTwoPlusThree` | rhythm/indispensibility.py:371-375 | "2+3" gives `[4, 1, 3, 0, 2]`, and `[4, 0, 3, 1, 2]` without upbeats first |
| `Barlicity.BeatGroups` | scamp_extensions/composers/barlicity.py:416-424 | one beat group per group length |
| `Barlicity.BuildBeatGroups` | scamp_extensions/composers/barlicity.py:416-424 | the nested loops build the beat groups numbering the beats from 0 |
| `Barlicity.WhittlePass` | scamp_extensions/composers/barlicity.py:442-444 | one pass pops a beat from every group of the greatest length, in order |
| `Barlicity.WhittleLongest` | scamp_extensions/composers/barlicity.py:440-445 | the `while` loop drains every group, longest first |
| `Barlicity.FirstOrderBackwardBeatPriorities` | scamp_extensions/composers/barlicity.py:407-449 | the popping algorithm returns `FirstOrder`: `range(n)` for an int, group starts then whittled beats for a grouping, IndexError or ValueError on a malformed one |
| `Barlicity.ConcatBeatGroups` | scamp_extensions/composers/barlicity.py:416-424 | the beat groups read in turn number the beats `0, 1, 2, ...` |
| `Barlicity.EmptyGroups` | scamp_extensions/composers/barlicity.py:413-424 | group `k` is empty exactly when the `k`-th part from the end is not positive |
| `Barlicity.GroupingPermutation` | scamp_extensions/composers/barlicity.py:407-447 | a well-formed grouping ranks every beat once, the downbeat first |
| `Barlicity.GroupsCover` | scamp_extensions/composers/barlicity.py:430-445 | the group starts and the whittled rest hold each beat once between them |
| `Barlicity.FirstOrderPermutation` | scamp_extensions/composers/barlicity.py:407-449 | a stratum is ranked exactly when well formed, and then every pulse appears once, the downbeat first |
| `Barlicity.GroupStartsFirst` | scamp_extensions/composers/barlicity.py:430-431 | a grouping ranks its group starts first, from the last group backward |
| `Barlicity.Pairs` | scamp_extensions/composers/barlicity.py:468 | the product table has `len(xs) * len(ys)` entries |
| `Barlicity.Split` | scamp_extensions/composers/barlicity.py:468 | position `k` of such a table is row `k / m`, column `k % m` |
| `Barlicity.Multipliers` | scamp_extensions/composers/barlicity.py:461-465 | one multiplier per stratum, and one for no strata |
| `Barlicity.StrataMultipliers` | scamp_extensions/composers/barlicity.py:461-465 | the loop builds `Multipliers`: 1, then the running products of all lengths but the last |
| `Barlicity.FirstOrders` | scamp_extensions/composers/barlicity.py:453-455 | one ranking per stratum, or the first stratum's error |
| `Barlicity.Combined` | scamp_extensions/composers/barlicity.py:467-469 | one overall priority per tuple of `itertools.product` |
| `Barlicity.DigitsUnique` | scamp_extensions/composers/barlicity.py:468-469 | two mixed-radix readings agree exactly when both digits agree |
| `Barlicity.MixedPermutation` | scamp_extensions/composers/barlicity.py:452-471 | permutations read as mixed-radix digits number every combination once, the all-zero one 0 |
| `Barlicity.CombinedIsMixed` | scamp_extensions/composers/barlicity.py:461-469 | the weighted sums over `itertools.product` are the mixed-radix reading, with the last stratum of weight 1 |
| `Barlicity.FirstOrdersAt` | scamp_extensions/composers/barlicity.py:453-455 | the strata are ranked exactly when each is, and each ranking is its own |
| `Barlicity.ReversedRankings` | scamp_extensions/composers/barlicity.py:457 | the reversed rankings are permutations of their lengths, each starting at the downbeat |
| `Barlicity.GetBackwardBeatPriorities` | scamp_extensions/composers/barlicity.py:452-471 | the loops (rank each stratum, reverse, running multipliers, weighted sums over the product) return `BackwardBeatPriorities`, or the first stratum's error |
| `Barlicity.BackwardBeatPrioritiesPermutation` | scamp_extensions/composers/barlicity.py:452-471 | well-formed strata give a permutation of `0..N-1` for `N` the product of their sizes, beginning with 0 |
| `Barlicity.WellFormedBackward` | scamp_extensions/composers/barlicity.py:452-471 | for well-formed strata the priorities are the mixed-radix reading of the reversed rankings |
| `Barlicity.IndispensabilityArrayPermutation` | scamp_extensions/composers/barlicity.py:477-498 | the array exists exactly for well-formed strata; it is a permutation of `0..N-1` with `N - 1` on the downbeat |
| `Barlicity.StandardizeStrata` | scamp_extensions/composers/barlicity.py:501-509 | the loop returns `StandardStrata`: an AssertionError on a non-positive stratum, each stratum above 2 grouped into 2s and 3s |
| `Barlicity.StandardSize` | scamp_extensions/composers/barlicity.py:501-509 | standardising keeps a stratum's size and yields only positive groups |
| `Barlicity.StandardIndispensabilityArrayPermutation` | scamp_extensions/composers/barlicity.py:512-524 | positive strata always give a permutation of `0..N-1`, `N` their product, with `N - 1` on the downbeat |
| `Barlicity.StandardStrataSizes` | scamp_extensions/composers/barlicity.py:501-509 | standardising positive strata gives well-formed strata of the same sizes |
| `Barlicity.TwoByTwoExample` | scamp_extensions/composers/barlicity.py:477-498 | the strata (2, 2) give `[3, 0, 2, 1]` in both entry points |
| `BarlicityNumbers.Gcd` | scamp_extensions/composers/barlicity.py:54-58 | the swapping loop returns Euclid's gcd with Python's `%`, on any integers |
| `BarlicityNumbers.EuclidGcdDivisors` | scamp_extensions/composers/barlicity.py:54-58 | the result divides both arguments and every common divisor divides it |
| `BarlicityNumbers.EuclidGcdNatural` | scamp_extensions/composers/barlicity.py:54-58 | on naturals `_gcd` is `math.gcd` |
| `BarlicityNumbers.EuclidLcm` | scamp_extensions/composers/barlicity.py:61-63 | `_lcm` raises ZeroDivisionError exactly when the gcd is 0 |
| `BarlicityNumbers.EuclidLcmNatural` | scamp_extensions/composers/barlicity.py:61-63 | on naturals `_lcm` is the `lcm` of the math utilities |
| `BarlicityNumbers.EuclidLcmPositive` | scamp_extensions/composers/barlicity.py:61-63 | for positive arguments `_lcm` is a common multiple and `lcm * gcd == a * b` |
| `BarlicityNumbers.Isqrt` | scamp_extensions/composers/barlicity.py:68 | the root `r` satisfies `r * r <= a < (r + 1) * (r + 1)` |
| `BarlicityNumbers.IsPrimeTestCorrect` | scamp_extensions/composers/barlicity.py:66-68 | `_is_prime` decides primality: the square-root bound loses no divisor |
| `BarlicityNumbers.SmallestDivisorPrime` | scamp_extensions/composers/barlicity.py:75-78 | the first divisor trial division meets is prime |
| `BarlicityNumbers.PrimeFactor` | scamp_extensions/composers/barlicity.py:71-84 | for `n >= 1` the factors are primes in non-decreasing order with product `n` (none for 1); for `n < 1` the list is `[n]` |
| `BarlicityNumbers.PrimesBelow` | scamp_extensions/composers/barlicity.py:92-120 | entry `k` of a list of consecutive primes is the `k`-th prime |
| `BarlicityNumbers.FoundIsPrime` | scamp_extensions/composers/barlicity.py:115-116 | a candidate no listed prime divides, with no prime in between, is the next prime |
| `BarlicityNumbers.ExistsLargerPrime` | scamp_extensions/composers/barlicity.py:108-118 | a prime lies past every listed prime, so the search ends |
| `BarlicityNumbers.FirstDivisor` | scamp_extensions/composers/barlicity.py:111-114 | the `for` loop finds the first listed prime dividing `k`, or none |
| `BarlicityNumbers.ExtendPrimes` | scamp_extensions/composers/barlicity.py:108-120 | the `while` loop extends the cache with the next primes until it holds `n + 1` of them, and returns the last candidate |
| `BarlicityNumbers.PrimeCache.constructor` | scamp_extensions/composers/barlicity.py:98 | a new cache holds no list yet |
| `BarlicityNumbers.PrimeCache.NthPrime` | scamp_extensions/composers/barlicity.py:92-120 | `_get_nth_prime(0)` is 2 and `_get_nth_prime(n)` the `n`-th prime; the cache always holds consecutive primes from 2; a negative `n` indexes the cache from the end |
| `PitchIntervals.Neg` | scamp_extensions/pitch/scale.py:120-121 | `-p` negates the cents and inverts the ratio; ZeroDivisionError for ratio 0 |
| `PitchIntervals.Add` | scamp_extensions/pitch/scale.py:123-126 | `p + q` adds cents and multiplies ratios |
| `PitchIntervals.Sub` | scamp_extensions/pitch/scale.py:128-129 | `p - q` is `p + (-q)` |
| `PitchIntervals.AddValue` | scamp_extensions/pitch/scale.py:123-126 | adding anything that is not an interval raises ValueError |
| `PitchIntervals.FractionOfArgs` | scamp_extensions/pitch/scale.py:116-118 | `Fraction(*args)` of zero, one or two ints, else a TypeError |
| `PitchIntervals.FromDict` | scamp_extensions/pitch/scale.py:116-118 | `_from_dict` keeps the stored cents |
| `PitchIntervals.SplitPieces` | scamp_extensions/pitch/scale.py:67 | `split` gives one piece more than there are separators, none holding one |
| `PitchIntervals.SplitJoin` | scamp_extensions/pitch/scale.py:67 | joining the pieces with the separator gives the string back |
| `PitchIntervals.Parse` | scamp_extensions/pitch/scale.py:51-81 | the branches in order: dict, comma string (exactly one comma), slash string (an interval of 0 cents and that ratio, or the ratio's error), sized value (`float` of the first item, whose error comes first; IndexError when there is no second item; else `Fraction` of the second), float, int or Fraction, else ValueError |
| `PitchIntervals.DictRoundTrip` | scamp_extensions/pitch/scale.py:112-118 | `parse(_to_dict(p))` is `p` again |
| `PitchIntervals.PairRoundTrip` | scamp_extensions/pitch/scale.py:74-75 | a (cents, ratio) pair parses to exactly that interval |
| `PitchIntervals.CommaText` | scamp_extensions/pitch/scale.py:66-68 | a string with one comma parses its sides with `float` and `Fraction`: ValueError when `float` fails, the `Fraction` error when only it fails, otherwise the interval of the two |
| `PitchIntervals.NegNeg` | scamp_extensions/pitch/interval.py:78-79 | negation undoes itself |
| `PitchIntervals.AddCommutes` | scamp_extensions/pitch/interval.py:81-84 | addition commutes |
| `PitchIntervals.AddAssociates` | scamp_extensions/pitch/interval.py:81-84 | addition associates |
| `PitchIntervals.AddUnison` | scamp_extensions/pitch/interval.py:81-84 | the unison adds nothing |
| `PitchIntervals.SubSelf` | scamp_extensions/pitch/interval.py:86-87 | an interval minus itself is the unison |
| `PitchIntervals.SubAdd` | scamp_extensions/pitch/interval.py:81-87 | `(p + q) - q == p` |
| `PitchIntervals.AddSub` | scamp_extensions/pitch/interval.py:81-87 | `(p - q) + q == p` |
| `PitchIntervals.SubSub` | scamp_extensions/pitch/interval.py:86-87 | `(p - r) - (q - r) == p - q` |
| `PitchIntervals.NegAdd` | scamp_extensions/pitch/interval.py:78-84 | `-(p + q) == -p + -q` |
| `PitchIntervals.FromDictInPlace` | scamp_extensions/pitch/interval.py:74-76 | the dict's "ratio" entry is overwritten by the Fraction, so a second call on the same dict raises TypeError |
| `ScaleTypes.Rotated` | scamp_extensions/pitch/scale.py:164-186 | `steps % len` (ZeroDivisionError for no intervals); a remainder of 0 leaves the intervals as they are, and the length is kept |
| `ScaleTypes.RotatedFirst` | scamp_extensions/pitch/scale.py:179-180 | the first new interval is `intervals[steps] - intervals[steps - 1]` |
| `ScaleTypes.RotatedPeriod` | scamp_extensions/pitch/scale.py:179-180 | rotation keeps the last interval, the period |
| `ScaleTypes.RotateBack` | scamp_extensions/pitch/scale.py:164-186 | rotating by `s` and then by `len - s` gives the original intervals back |
| `ScaleTypes.ScaleType.constructor` | scamp_extensions/pitch/scale.py:155-156 | a new scale type holds the given intervals |
| `ScaleTypes.ScaleType.Rotate` | scamp_extensions/pitch/scale.py:164-186 | in place, the intervals become `Rotated(...)` and this object is returned; otherwise a fresh scale type holds them and this one is unchanged |
| `ScaleTypes.CoerceAllPerValue` | scamp_extensions/pitch/scale.py:155-156 | construction succeeds when every value parses, with one interval per value, in order |
| `ScaleTypes.CoerceIntervals` | scamp_extensions/pitch/scale.py:155-156 | intervals are kept as they are |
| `ScaleTypes.NewScaleType` | scamp_extensions/pitch/scale.py:155-156 | `ScaleType(*values)` holds the parsed values, or fails with the first parse error |
| `ScaleTypes.StripSlice` | scamp_extensions/pitch/scale.py:323 | the stripped line is one contiguous slice of the line, starting where its leading whitespace ends |
| `ScaleTypes.StripLeading` | scamp_extensions/pitch/scale.py:323 | everything `strip()` cuts before the stripped line is whitespace |
| `ScaleTypes.StripTrailing` | scamp_extensions/pitch/scale.py:323 | everything `strip()` cuts after the stripped line is whitespace |
| `ScaleTypes.StripEnds` | scamp_extensions/pitch/scale.py:323 | a non-empty stripped line has no whitespace at either end |
| `ScaleTypes.StripClean` | scamp_extensions/pitch/scale.py:323 | a string without whitespace at its ends is its own strip |
| `ScaleTypes.IntOf` | scamp_extensions/pitch/scale.py:329 | `int(s)` fails only with ValueError |
| `ScaleTypes.IntOfIntToString` | scamp_extensions/pitch/scale.py:329 | `int(str(n)) == n` |
| `ScaleTypes.Truncate` | scamp_extensions/pitch/scale.py:331-338 | the entry is the longest prefix of digits, '.' and '/' |
| `ScaleTypes.TruncateAt` | scamp_extensions/pitch/scale.py:331-338 | the cut the scanning loop finds is that longest prefix |
| `ScaleTypes.FoldCount` | scamp_extensions/pitch/scale.py:328-329 | after the description, the next content line is the step count |
| `ScaleTypes.FoldContent` | scamp_extensions/pitch/scale.py:320-338 | the line loop reads the description, the count and every truncated entry off the content lines |
| `ScaleTypes.LoadScalaLines` | scamp_extensions/pitch/scale.py:319-339 | skips blank and '!' lines; takes the description, then an `int` step count (ValueError if it is not one), then truncated entries; a count mismatch only warns |
| `ScaleTypes.NegativeCentsEntry` | scamp_extensions/pitch/scale.py:331-338 | a negative cents entry such as "-21.5" is cut to the empty string, because '-' is not kept |
| `PitchUtilities.NoteNameNormalized` | scamp_extensions/pitch/utilities.py:124 | spaces and capitals make no difference to the result |
| `PitchUtilities.NormalizeEmpty` | scamp_extensions/pitch/utilities.py:124-125 | a name of spaces only raises IndexError |
| `PitchUtilities.NoteNameCases` | scamp_extensions/pitch/utilities.py:117-130 | KeyError for an unknown pitch class, ValueError for an octave that is not an ASCII digit, else a number in range; an unknown accidental counts 0 |
| `PitchUtilities.PitchClassRoundTrip` | scamp_extensions/pitch/utilities.py:96-104 | reading a pitch-class spelling back gives the pitch class |
| `PitchUtilities.NoteNameRoundTrip` | scamp_extensions/pitch/utilities.py:117-130 | every MIDI number from 12 to 131 survives spelling and reading back |
| `PitchUtilities.DocstringExamples` | scamp_extensions/pitch/utilities.py:121-122 | "C4" is 60 and "Bb5" is 82 |
| `PitchUtilities.NormalizeClean` | scamp_extensions/pitch/utilities.py:124 | a normalised name has no spaces and no capitals |
| `PitchUtilities.NormalizeFixesClean` | scamp_extensions/pitch/utilities.py:124 | normalising a name without spaces or capitals changes nothing |
| `LSystems.GetGeneration` | scamp_extensions/process/l_systems.py:50-61 | ValueError exactly for a negative `n`; generation 0 is the seed and generation `n` rewrites every letter of generation `n - 1` by its rule or itself |
| `LSystems.StepLength` | scamp_extensions/process/l_systems.py:61 | the next generation is as long as the rewrites of this one's letters together |
| `LSystems.ConstantSeed` | scamp_extensions/process/l_systems.py:61 | when no letter of the seed has a rule, every generation is the seed |
| `LSystems.GetGenerationMeanings` | scamp_extensions/process/l_systems.py:63-71 | ValueError without meanings, checked before `n` |
| `LSystems.MeaningsPerLetter` | scamp_extensions/process/l_systems.py:63-71 | the meanings succeed exactly when every letter has one, one entry per letter in order |
| `LSystems.AlgaeSecondGeneration` | scamp_extensions/process/l_systems.py:50-61 | the algae system's second generation from "A" is "ABA" |
| `BooleanStreams.New` | scamp_extensions/rhythm/boolean_streamer.py:39-51 | ValueError unless given a generator function or a streamer; a streamer is copied with its generator function, keeping its positional arguments unless new ones are given and, separately, its keyword arguments unless new ones are given |
| `BooleanStreams.CopyKeepsStream` | scamp_extensions/rhythm/boolean_streamer.py:40-44 | wrapping without new arguments yields the same stream |
| `BooleanStreams.CopyWithArgs` | scamp_extensions/rhythm/boolean_streamer.py:40-44 | wrapping with new arguments keeps the generator function and calls it with them |
| `BooleanStreams.Zip` | scamp_extensions/rhythm/boolean_streamer.py:63-66 | once both generators exist, the zipped stream lasts as long as the shorter one and ends as it does, the left one on a tie |
| `BooleanStreams.AndOperand` | scamp_extensions/rhythm/boolean_streamer.py:59-62 | `a & other` raises ValueError unless `other` is a streamer |
| `BooleanStreams.OrOperand` | scamp_extensions/rhythm/boolean_streamer.py:69-72 | `a or other` (the `__or__` operator) raises ValueError unless `other` is a streamer |
| `BooleanStreams.NotNot` | scamp_extensions/rhythm/boolean_streamer.py:79-85 | `~~a` yields what `a` yields and ends the same way, a failing binding of `a` included |
| `BooleanStreams.AndValues` | scamp_extensions/rhythm/boolean_streamer.py:56-67 | `a & b` raises before any value when either operand's call fails to bind; otherwise it yields the pointwise `and` while both last and ends with the first to end, `a` on a tie |
| `BooleanStreams.AndCommutes` | scamp_extensions/rhythm/boolean_streamer.py:59-67 | `&` commutes in what it yields, and in how it ends unless both end together |
| `BooleanStreams.DeMorgan` | scamp_extensions/rhythm/boolean_streamer.py:59-85 | when both operands' calls bind, `~(a & b)` and the `__or__` of `~a` and `~b` yield the same and end the same way |
| `BooleanStreams.ZipCalls` | scamp_extensions/rhythm/boolean_streamer.py:63-66 | `zip` calls both operands before asking for a value: a failing binding on either side raises before the first pair |
| `BooleanStreams.DeMorganBindingFails` | scamp_extensions/rhythm/boolean_streamer.py:56-85 | when `b`'s call fails to bind, `~(a & b)` raises at once, while `~a | ~b` ends as `a` does if `a` yields nothing |
| `BooleanStreams.DeMorganCounterexample` | scamp_extensions/rhythm/boolean_streamer.py:59-116 | with `e` yielding nothing, `~(e & SieveStreamer(foo=1))` raises while `~e | ~SieveStreamer(foo=1)` stops |
| `BooleanStreams.SieveKeywords` | scamp_extensions/rhythm/boolean_streamer.py:97-104 | `modulo` and `shift` bind by position or keyword alike; an unknown or repeated argument makes the call raise TypeError |
| `BooleanStreams.SieveEmptyShift` | scamp_extensions/rhythm/boolean_streamer.py:113-116 | with an empty shift `any` never evaluates `%`, so any modulus gives an unbounded stream of False |
| `BooleanStreams.FloatShift` | scamp_extensions/rhythm/boolean_streamer.py:113-115 | a fractional float shift gives an all-False unbounded stream (or raises for modulus 0); an integral one acts as its int |
| `BooleanStreams.SievePeriodic` | scamp_extensions/rhythm/boolean_streamer.py:104-116 | a sieve has period `modulo` |
| `BooleanStreams.ScalarShift` | scamp_extensions/rhythm/boolean_streamer.py:113 | a scalar shift is the sieve of its one-residue tuple |
| `BooleanStreams.SieveUnion` | scamp_extensions/rhythm/boolean_streamer.py:115 | the sieve of several residues is the `__or__` of their one-residue sieves |
| `BooleanStreams.SieveZeroModulus` | scamp_extensions/rhythm/boolean_streamer.py:115 | a zero modulus raises at the first value unless there are no residues |
| `BooleanStreams.SieveAt` | scamp_extensions/rhythm/boolean_streamer.py:115 | value `i` is True exactly when `(i - s) % modulo == 0` for some residue `s` |
| `BooleanStreams.SieveTake` | scamp_extensions/rhythm/boolean_streamer.py:104-116 | the generator loop's first `n` values are those of the sieve |
| `Generators.RandomWalk` | scamp_extensions/process/generators.py:23-47 | the loop yields the walk `WalkFrom` defines, with the step always `+step` or `-step` |
| `Generators.Pass` | scamp_extensions/process/generators.py:37-46 | one pass adds the step, bounces off a crossed bound or maybe turns around |
| `Generators.WalkAt` | scamp_extensions/process/generators.py:36-47 | the `k`-th value yielded is the value after pass `k + 1` |
| `Generators.Bounces` | scamp_extensions/process/generators.py:38-43 | below `clamp_min` the step turns upward and `2 * step` is added; above `clamp_max` the reverse |
| `Generators.ExactStep` | scamp_extensions/process/generators.py:37-46 | from a value within the bounds the walk moves by exactly `step` |
| `Generators.WalkSteps` | scamp_extensions/process/generators.py:37-47 | every value yielded after one within the bounds is exactly `step` away from it |
| `Generators.ShuffledPermutes` | scamp_extensions/process/generators.py:62 | `random.shuffle` only reorders the deck |
| `Generators.Shuffle` | scamp_extensions/process/generators.py:62 | the swap passes, from the last index down, leave `Shuffled(...)` of the draws |
| `Generators.InsertPlaces` | scamp_extensions/process/generators.py:66 | `insert(i, card)` puts the card at `i`, or last past the end, shifting the rest |
| `Generators.InsertAdds` | scamp_extensions/process/generators.py:66 | inserting adds the card and keeps the rest of the deck |
| `Generators.DealNext` | scamp_extensions/process/generators.py:63-67 | one resumption puts the last card back at a drawn index in `[0, max_insert_point]` and deals the deck's last card |
| `Generators.NonRepeatingShuffle` | scamp_extensions/process/generators.py:50-67 | copies and shuffles the list, then answers `requests` calls as `Run` says |
| `Generators.DealCalls` | scamp_extensions/process/generators.py:63-67 | the calls deal until `requests` items, a stop or an exception |
| `Generators.NextKeepsCards` | scamp_extensions/process/generators.py:63-67 | the deck and the card held back stay a permutation of the input |
| `Generators.YieldsInputs` | scamp_extensions/process/generators.py:50-67 | every item yielded is an element of `input_list` |
| `Generators.RunOutcome` | scamp_extensions/process/generators.py:50-67 | IndexError for an empty list, ValueError on the second call for a negative insert point, else exactly `stop_after` items |
| `Generators.StartOutcome` | scamp_extensions/process/generators.py:50-67 | the same for any shuffled deck before the first call |
| `Generators.ThresholdZeroCycles` | scamp_extensions/process/generators.py:58-67 | with `insertion_threshold` 0 the items cycle with period `len(input_list)` |
| `Generators.FirstDeal` | scamp_extensions/process/generators.py:64-65 | the first call deals the deck's last card |
| `Presets.MakePreset` | scamp_extensions/playback/multi_preset_instrument.py:85-87 | a soundfont preset becomes a part named "<part>-<preset>", keeping the name and bundles |
| `Presets.Added` | scamp_extensions/playback/multi_preset_instrument.py:87-92 | the new preset goes first with `make_default`, last otherwise, the others kept in order |
| `Presets.PresetIndex` | scamp_extensions/playback/multi_preset_instrument.py:94-99 | the index of the first preset with the name, or None when none has it |
| `Presets.ResolvePreset` | scamp_extensions/playback/multi_preset_instrument.py:101-113 | nothing without presets; the default for no name; the default with a warning for an unknown name; else the first match |
| `Presets.Switched` | scamp_extensions/playback/multi_preset_instrument.py:115-121 | before any note a switch means leaving the default; afterwards a name other than the last played |
| `Presets.SwitchAway` | scamp_extensions/playback/multi_preset_instrument.py:127-128 | the switch-away bundle of the preset with that name |
| `Presets.PropertyLayers` | scamp_extensions/playback/multi_preset_instrument.py:123-137 | the bundles as written: preset, switch-away after an earlier other preset, the switch bundle always, then the note |
| `Presets.IntendedLayers` | scamp_extensions/playback/multi_preset_instrument.py:123-137 | the bundles as the comment at line 124 describes: the switch bundle only on a switch |
| `Presets.IntendedDiffers` | scamp_extensions/playback/multi_preset_instrument.py:123-137 | the two agree exactly when a switch happened or there is no switch bundle |
| `Presets.SwitchBundleWithoutSwitch` | scamp_extensions/playback/multi_preset_instrument.py:125-136 | a first note on the default preset is no switch, yet as written it carries the switch bundle |
| `Presets.Perform` | scamp_extensions/playback/multi_preset_instrument.py:139-244 | resolve the preset, record its resolved name as last played, incorporate the bundles, and make the call on the preset's instrument |
| `Presets.UnknownRecordsDefault` | scamp_extensions/playback/multi_preset_instrument.py:152-156 | an unknown name plays the default, warns, and records the default's name |
| `Presets.RepeatNotSwitched` | scamp_extensions/playback/multi_preset_instrument.py:115-137 | playing the same preset twice is a switch at most the first time |
| `Presets.RepeatLayers` | scamp_extensions/playback/multi_preset_instrument.py:123-137 | on the second of two notes with one preset, as written, the switch bundle is applied again |
| `Presets.SwitchAwayAdded` | scamp_extensions/playback/multi_preset_instrument.py:125-137 | moving to another preset applies the previous one's switch-away bundle after the new preset's bundle |
| `Presets.BroadcastAsWritten` | scamp_extensions/playback/multi_preset_instrument.py:246-274 | with any preset present the forwarding raises ValueError before any call |
| `Presets.Broadcast` | scamp_extensions/playback/multi_preset_instrument.py:246-274 | one call per preset's instrument, in preset order |
| `Presets.BroadcastFailsOnePreset` | scamp_extensions/playback/multi_preset_instrument.py:253-254 | with one preset the forwarding should reach it, but as written it raises |
| `Presets.MultiPresetInstrument.constructor` | scamp_extensions/playback/multi_preset_instrument.py:41-47 | a new instrument has no presets and has played nothing |
| `Presets.MultiPresetInstrument.AddPreset` | scamp_extensions/playback/multi_preset_instrument.py:57-92 | the preset list becomes `Added(...)` and the instrument itself is returned |
| `Presets.MultiPresetInstrument.ResolveProperties` | scamp_extensions/playback/multi_preset_instrument.py:123-137 | returns `PropertyLayers(...)` and records the name as last played |
| `Presets.MultiPresetInstrument.Play` | scamp_extensions/playback/multi_preset_instrument.py:139-244 | the four playing methods perform as `Perform` says; leaving a preset finds and applies its switch-away bundle |
| `Presets.AddedDefault` | scamp_extensions/playback/multi_preset_instrument.py:87-92 | the preset added with `make_default`, or the first ever added, becomes the default; otherwise it is unchanged |
| `Presets.AppendKeepsResolution` | scamp_extensions/playback/multi_preset_instrument.py:90-92 | a preset appended without `make_default` never changes what an existing name plays |
| `KeyPlanes.StripAppended` | scamp_extensions/interaction/key_plane.py:89-90 | a right-hand key name counts as the modifier it doubles |
| `KeyPlanes.StripUnmarked` | scamp_extensions/interaction/key_plane.py:89-90 | a name without "_r" is left as it is |
| `KeyPlanes.RightHandModifier` | scamp_extensions/interaction/key_plane.py:51-52 | every listed modifier is recognised from its left- and right-hand names |
| `KeyPlanes.RightArrowNotModifier` | scamp_extensions/interaction/key_plane.py:51-52 | the right arrow is no modifier, unlike the other three arrows |
| `KeyPlanes.ModifiersAfter` | scamp_extensions/interaction/key_plane.py:89-96 | a press adds the modifier once, a release takes it out |
| `KeyPlanes.ModifiersStayDistinct` | scamp_extensions/interaction/key_plane.py:89-96 | no modifier is ever held twice |
| `KeyPlanes.PressReleaseRestores` | scamp_extensions/interaction/key_plane.py:89-96 | pressing and releasing a modifier not held restores the held modifiers |
| `KeyPlanes.Locate` | scamp_extensions/interaction/key_plane.py:98-99 | the key of a code is at a position holding that code, in the first row holding it |
| `KeyPlanes.PositionOf` | scamp_extensions/interaction/key_plane.py:43-48 | every code lies at one place in the table only |
| `KeyPlanes.CodesUnique` | scamp_extensions/interaction/key_plane.py:43-48 | two keys with the same code are the same key |
| `KeyPlanes.LocateKey` | scamp_extensions/interaction/key_plane.py:98-100 | every key's code leads back to that key |
| `KeyPlanes.Place` | scamp_extensions/interaction/key_plane.py:99-102 | the key's column and row, or with normalisation the column over the row's last column and the row over 3 |
| `KeyPlanes.ArgumentsFor` | scamp_extensions/interaction/key_plane.py:104-109 | three arguments for more than 2 parameters, two for 2, otherwise the coordinates alone |
| `KeyPlanes.Respond` | scamp_extensions/interaction/key_plane.py:98-110 | no call for a code outside the table; otherwise one call with the key's place |
| `KeyPlanes.KeyCallsBack` | scamp_extensions/interaction/key_plane.py:98-110 | pressing the key at column `x` of row `y` calls back with exactly `(x, y)` |
| `KeyPlanes.KeyPlane.constructor` | scamp_extensions/interaction/key_plane.py:54-57 | after a passing setter check: the callback, its parameter count, the flag and no modifiers held |
| `KeyPlanes.KeyPlane.Create` | scamp_extensions/interaction/key_plane.py:54-71 | construction fails with AssertionError exactly for a callback without parameters; otherwise a fresh plane as above |
| `KeyPlanes.KeyPlane.SetCallback` | scamp_extensions/interaction/key_plane.py:66-71 | records the parameter count, then refuses a callback without parameters, keeping the old callback but not its count |
| `KeyPlanes.KeyPlane.UpdateModifiers` | scamp_extensions/interaction/key_plane.py:89-96 | the held modifiers become `ModifiersAfter(...)` |
| `KeyPlanes.KeyPlane.CallBack` | scamp_extensions/interaction/key_plane.py:104-109 | the call made carries the arguments `ArgumentsFor` the parameter count |
| `KeyPlanes.KeyPlane.HandleKey` | scamp_extensions/interaction/key_plane.py:84-110 | ignores an event without a name, updates the held modifiers, then calls back as `Respond` says |
| `Midi.Step` | scamp_extensions/parsing/midi.py:43-51 | an ending message emits the note stored under its pitch and channel, if any, and keeps the start; another note-on overwrites the start |
| `Midi.Beats` | scamp_extensions/parsing/midi.py:42 | the delta time in beats is not negative |
| `Midi.InsertSorted` | scamp_extensions/parsing/midi.py:53 | inserting into a sorted list keeps it sorted |
| `Midi.SortByStart` | scamp_extensions/parsing/midi.py:53 | the sort is sorted by start time and a permutation of the notes |
| `Midi.SortIsStable` | scamp_extensions/parsing/midi.py:53 | notes with one start time keep their relative order |
| `Midi.ScrapeNotes` | scamp_extensions/parsing/midi.py:28-54 | the loop with its started-note dict, time counter and note list returns `ScrapeNoteList` |
| `Midi.OnThenOff` | scamp_extensions/parsing/midi.py:39-51 | a note-on followed by its note-off makes one note starting at the note-on and lasting the note-off's delta |
| `Midi.RepeatedEndDuplicates` | scamp_extensions/parsing/midi.py:44-46 | stored starts are never removed, so a repeated ending message emits a second note with the same start |
| `Midi.CrossTrackNegativeLength` | scamp_extensions/parsing/midi.py:36-51 | the shared dict and the per-track time give a note of negative length across two tracks |
| `Midi.PairedStep` | scamp_extensions/parsing/midi.py:43-51 | an ending message takes its start off the table, so each start is used once |
| `Midi.PairedTrack` | scamp_extensions/parsing/midi.py:39-51 | with consistent starts no note of a track has a negative length |
| `Midi.PairedTracks` | scamp_extensions/parsing/midi.py:38-51 | with a table per track no note has a negative length |
| `Midi.PairedLengthsNonNegative` | scamp_extensions/parsing/midi.py:28-54 | with paired starts no scraped note has a negative length |
| `Midi.PairedRepeatedEnd` | scamp_extensions/parsing/midi.py:44-46 | with paired starts a repeated ending message emits nothing |
| `Midi.ToTable` | scamp_extensions/parsing/midi.py:57-74 | one entry per note in each list, the consecutive start differences as inter-onset times, ValueError without notes |
| `Midi.ScrapeToTable` | scamp_extensions/parsing/midi.py:57-84 | ValueError exactly when the file pairs no note; otherwise one start time per scraped note, in chronological order |
| `Midi.NoNotesRaises` | scamp_extensions/parsing/midi.py:66-68 | a file that pairs no note makes the dict scraper raise ValueError |
| `Midi.OnsetsRebuildStarts` | scamp_extensions/parsing/midi.py:72 | summing the inter-onset times rebuilds every start time from the first |
| `Midi.OnsetsNonNegative` | scamp_extensions/parsing/midi.py:53-72 | the scraped notes are sorted, so no inter-onset time is negative |

## Left out

- Floating-point numbers are exact here: cents and ratios of
  `PitchInterval` are a `real` and a reduced fraction, so rounding in
  `float` cents arithmetic and `float(...)` conversions is not modelled.
- Generators.RandomWalk: the walk is over exact reals, so float rounding of
  `x + current_step` is not modelled; the random draws (`random.choice`,
  `random.random() < turn_around_chance`) are supplied as parameters.
- KeyPlanes.Place: the normalised coordinates `x / (len(row) - 1)` and
  `y / 3` are exact rationals, not Python floats.
- Midi.Beats: beat times (`message.time / ticks_per_beat`) and volumes
  (`velocity / 127`) are exact reals, not floats.
- BarlicityNumbers.Isqrt: `int(a ** 0.5)` is read as the exact integer square
  root; above 2^52 the float square root can round, which is not modelled.
- PitchUtilities.Normalize: `str.lower()` is modelled on the ASCII letters
  only; Python lowers every Unicode letter.
- PitchUtilities.NoteNameToNumber: the octave is read as one ASCII digit;
  `int()` also accepts another Unicode decimal digit there (`"C٤"` is octave
  4), which the model reports as a non-digit octave.
- PitchUtilities.NoteNameCases: states the ValueError case for an octave that
  is not an ASCII digit, so a Unicode-digit octave that `int()` accepts falls
  on the error side; see `PitchUtilities.NoteNameToNumber` above.
- ScaleTypes.StripSlice: the whitespace `strip()` removes is the ASCII
  whitespace; Unicode spaces are not modelled.
- ScaleTypes.IntOf: `isnumeric()` and `int()` are modelled on the ASCII digits
  only; other Unicode digits and numerals are not, and neither are the
  underscores `int()` accepts between digits (`int("1_2") == 12`).
- MetricLayers.NewLayer: the constructor's in-place rewrites of
  `self.groups` (`break_up_large_numbers`, `_remove_redundant_nesting`) are
  modelled as values, so aliasing between layers that share a child is not
  captured.
- MetricLayers.Extend: `extend` and `append` with `in_place=True` rewrite
  `self.groups` and return `self`; `Extend` and `Append` return the new groups
  as a value, so that the caller's layer is the one changed, and that a child
  layer shared with the operand is normalised in place too, are not captured.
- Indispensability.StratumText: a stratum is a whole number or a sequence of
  whole numbers; the other values the join accepts are not modelled: a float
  (`str(2.0)` is "2.0", whose '.' fails the illegal-character assertion), a
  string (it has a length, so "23" becomes "(2+3)"), and floats or strings
  inside a sequence stratum.
- BeatTrees.NormalizeDepth: the in-place wrapping of list slots is modelled
  on values, as is `_increment_nested_list`; aliasing is not captured.
- KeyPlanes.KeyPlane.HandleKey: a three-parameter callback receives the value
  of the held modifiers at the call, whereas the program passes the live list
  that later key events go on mutating.
- KeyPlanes.KeyPlane.constructor: requires a callback with parameters, the
  state after the setter's check; `KeyPlane.Create` models construction with
  the AssertionError for a callback without parameters. The `callable` check
  of the setter is not modelled: every callback here is callable.
- Midi.Step: the `print("KEY ERROR")` for an ending message without a start
  is I/O and is dropped; the message is skipped as in the program.
- Midi.ScrapeNotes: loading the file with mido (`MidiFile(path, clip=True)`)
  is outside the model; the tracks are given as message lists and
  `ticks_per_beat` as a positive number.
- The `normalize=True` paths of every indispensability entry point (a float
  division that also fails for a one-beat meter) are not modelled.
- PitchIntervals.Parse: the `eval` branch for a string without comma or slash
  is an error value (`Evaluated`), not an evaluation; `float` and `Fraction`
  of strings are parameters.
- PitchIntervals.Parse: the dict branch calls `cls._from_json`
  (scamp_extensions/pitch/scale.py:65), which the class body does not
  define; it is modelled as `_from_dict`, assuming the base class
  `SavesToJSON` forwards one to the other. That class is not part of this
  model.
- BooleanStreams.SieveStreamer: with at least one residue, a float modulus
  is treated as not an int and raises at the first value; a sized shift
  holding floats is not modelled.
  `RandStreamer` and `FreqStreamer` (random draws, floats) are left out.
- BooleanStreams.New: generator functions are opaque values; the stream they
  yield is a parameter, and a generator yielding non-bool values is not
  modelled.
- Generators.Shuffle: `random.shuffle` is CPython's swap passes with the
  draws as parameters; `_randbelow`'s rejection sampling is the supplied draw.
- Generators.NonRepeatingShuffle: `stop_after` is a natural number or None
  (the default infinity); float values other than infinity are not modelled.
- BarlicityNumbers.PrimeCache.NthPrime: the cache is a function attribute in
  the program; here it is one object's field.
- Presets.Perform: instruments, `NoteProperties`, the note handles and
  `MultiNoteHandle` are opaque; only which preset plays and which property
  bundles are incorporated, in which order, is modelled. The warning logged
  for an unknown preset is a flag in the result.
- `num_notes_playing`, `clef_preference` and `default_spelling_policy` of
  `MultiPresetInstrument` only delegate to SCAMP and are not modelled. The
  `name` property is kept as a field (`AddPreset` uses it for the preset's
  part name); only its delegation to the notated part is left out.
- LSystems.GetGeneration: the `lru_cache` is not modelled. In the program it
  keeps returning cached generations after `rules` or `seed` is reassigned,
  and a first request for a large `n` recurses once per generation, raising
  RecursionError near Python's recursion limit (about 1000).
- Sequences.SequenceDepth: reads strings as atoms. The program never returns
  once a non-empty string occurs (see Findings); `StringsNeverEnd` models
  that loop as written.
- `KeyPlane.start` (session lookup and keyboard listener registration) is
  I/O and is not modelled; the key handler is modelled as a method.
- `ScaleTypes.LoadScalaLines` takes the file's lines; opening and reading the
  file, and the final `cls(*pitch_entries)`, are outside the loop modelled;
  the warning for a count mismatch is a flag.
- The `Scale` class, `save_to_scala`, the float conversions of
  `pitch/utilities.py`, `map_keyboard_to_microtonal_pitches`, `markov.py`,
  `time_varying_parameter.py`, the SuperCollider modules, the engraving
  note graph, `metric_structure.py` (a re-export of a module not shown) and
  the drafts under `misc/junk` are not part of this model.
- The float-valued measures of `barlicity.py` (indigestibility,
  harmonicity, ratio candidates, metric coherence) are not part of this
  model.

## Findings

| source | as written | input that shows it | evidently intended | confidence | as-written member | corrected member |
|---|---|---|---|---|---|---|
| scamp_extensions/playback/multi_preset_instrument.py:124-137 | the switch bundle passed in is incorporated whether or not a switch happened, since only the switched branch re-examines it | one preset "pizz" with only a switch bundle, first note with "pizz": no switch, yet the bundle is applied | the switch bundle only when playback switched to the preset, as the comment at line 124 says | not executed | `Presets.PropertyLayers` (`Presets.SwitchBundleWithoutSwitch`) | `Presets.IntendedLayers` (`Presets.IntendedDiffers`) |
| scamp_extensions/playback/multi_preset_instrument.py:253-274 | `send_midi_cc`, `end_all_notes` and `set_max_pitch_bend` unpack five-field presets into four names | any instrument with one preset: the loop raises ValueError | one forwarded call per preset's instrument | not executed | `Presets.BroadcastAsWritten` (`Presets.BroadcastFailsOnePreset`) | `Presets.Broadcast` |
| scamp_extensions/parsing/midi.py:36-51 | one started-note dict for all tracks while the time restarts per track, and starts never removed | a note-on at beat 2 in track 0 and its note-off at beat 0 of track 1: length -2 | an ending message pairs with a start of its own track once | not executed | `Midi.Step` (`Midi.CrossTrackNegativeLength`, `Midi.RepeatedEndDuplicates`) | `Midi.PairedStep` (`Midi.PairedLengthsNonNegative`, `Midi.PairedRepeatedEnd`) |
| scamp_extensions/utilities/sequences.py:27-35 | `s[n:] + s[:n]` clamps both slices, so a shift of at least the length returns `s` unchanged | `rotate_sequence([0, 1], 3)` gives `[0, 1]` | a shift of any size wraps around, as the docstring at lines 29-32 says: `[1, 0]` | not executed | `Sequences.RotateLongShift` (`Sequences.RotateLongShiftExample`) | `Sequences.RotateWrapped` (`Sequences.RotateWrappedAt`, `Sequences.RotateWrappedAgrees`) |
| scamp_extensions/utilities/sequences.py:46-54 | a str is a Sequence, and each of its one-character elements is a Sequence containing itself, so the frontier never empties | `sequence_depth(["a"])` never returns | the maximum depth of the nested lists and tuples, strings counting as atoms: 1 | not executed | `Sequences.NextFrontierAsWritten` (`Sequences.OneCharStringFrontierFixed`, `Sequences.StringsNeverEnd`, `Sequences.OneStringNeverEnds`) | `Sequences.SequenceDepth` (`Sequences.Depth`) |
