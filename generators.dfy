/**
 * Generator functions for musical processes: `random_walk`, a walk that
 * bounces off optional bounds, and `non_repeating_shuffle`, which deals from
 * a shuffled deck and slides each dealt card back in near the bottom.
 *
 * Random draws are parameters: `draws(t)` is the value of the `t`-th call to
 * the random number generator that the loop makes. A consumer that calls
 * `next` on the generator `n` times sees the values the methods here return.
 */
module Generators {
  import opened Wrappers
  import MathUtil

  // ---------------------------------------------------------------------------
  // `random_walk(start_value, step, turn_around_chance, clamp_min, clamp_max)`
  // ---------------------------------------------------------------------------

  /** The walk's loop variables: the value `x`, `current_step`, and the number of `random.random()` calls made so far. */
  datatype Walker = Walker(x: real, currentStep: real, drawn: nat)

  /** `current_step` is `+step` or `-step`. */
  predicate Stepping(w: Walker, step: real)
  {
    w.currentStep == step || w.currentStep == -step
  }

  /** The value lies within whichever bounds are given. */
  predicate InBounds(x: real, clampMin: Option<real>, clampMax: Option<real>)
  {
    (clampMin.Some? ==> clampMin.value <= x) && (clampMax.Some? ==> x <= clampMax.value)
  }

  /** One pass of the walk's loop body, up to the `yield`. */
  function Advance(w: Walker, step: real, turnAroundChance: real, clampMin: Option<real>, clampMax: Option<real>,
                   draws: nat -> real): (r: Walker)
    ensures Stepping(w, step) ==> Stepping(r, step)
  {
    var x := w.x + w.currentStep;
    if clampMin.Some? && x < clampMin.value then Walker(x + 2.0 * step, step, w.drawn)
    else if clampMax.Some? && x > clampMax.value then Walker(x - 2.0 * step, -step, w.drawn)
    else if draws(w.drawn) < turnAroundChance then Walker(x, -w.currentStep, w.drawn + 1)
    else Walker(x, w.currentStep, w.drawn + 1)
  }

  /** The next `n` values the walk yields from the state `w`. */
  function WalkFrom(w: Walker, n: nat, step: real, turnAroundChance: real, clampMin: Option<real>, clampMax: Option<real>,
                    draws: nat -> real): (r: seq<real>)
    ensures |r| == n
    decreases n
  {
    if n == 0 then []
    else
      var next := Advance(w, step, turnAroundChance, clampMin, clampMax, draws);
      [next.x] + WalkFrom(next, n - 1, step, turnAroundChance, clampMin, clampMax, draws)
  }

  /** The walker before the loop: `random.choice([-step, step])` picked `+step` when `up`. */
  function Start(startValue: real, step: real, up: bool): (w: Walker)
    ensures Stepping(w, step) && w.x == startValue
  {
    Walker(startValue, if up then step else -step, 0)
  }

  /**
   * The first `n` values of `random_walk(...)`: each pass adds `current_step`,
   * then bounces off a bound it crossed or, inside the bounds, turns around
   * when the draw falls below `turn_around_chance`.
   */
  method RandomWalk(startValue: real, step: real, turnAroundChance: real, clampMin: Option<real>, clampMax: Option<real>,
                    up: bool, draws: nat -> real, n: nat) returns (values: seq<real>)
    ensures values == WalkFrom(Start(startValue, step, up), n, step, turnAroundChance, clampMin, clampMax, draws)
  {
    var x := startValue;
    var currentStep := if up then step else -step;
    var drawn := 0;
    ghost var start := Start(startValue, step, up);
    ghost var whole := WalkFrom(start, n, step, turnAroundChance, clampMin, clampMax, draws);
    values := [];
    while |values| < n
      invariant |values| <= n
      invariant Walker(x, currentStep, drawn) == Position(start, |values|, step, turnAroundChance, clampMin, clampMax, draws)
      invariant values == whole[..|values|]
    {
      ghost var k := |values|;
      x, currentStep, drawn := Pass(x, currentStep, drawn, step, turnAroundChance, clampMin, clampMax, draws);
      assert x == whole[k] by {
        WalkAt(start, n, k, step, turnAroundChance, clampMin, clampMax, draws);
      }
      values := values + [x];
    }
  }

  /** One pass of the loop body: add the step, then bounce off a crossed bound or maybe turn around. */
  method Pass(x0: real, step0: real, drawn0: nat, step: real, turnAroundChance: real, clampMin: Option<real>,
              clampMax: Option<real>, draws: nat -> real) returns (x: real, currentStep: real, drawn: nat)
    ensures Walker(x, currentStep, drawn) == Advance(Walker(x0, step0, drawn0), step, turnAroundChance, clampMin, clampMax, draws)
  {
    x, currentStep, drawn := x0 + step0, step0, drawn0;
    if clampMin.Some? && x < clampMin.value {
      currentStep := step;
      x := x + 2.0 * step;
    } else if clampMax.Some? && x > clampMax.value {
      currentStep := -step;
      x := x - 2.0 * step;
    } else {
      if draws(drawn) < turnAroundChance {
        currentStep := -currentStep;
      }
      drawn := drawn + 1;
    }
  }

  /** Where the walker stands after `k` passes of the loop body. */
  function Position(w: Walker, k: nat, step: real, turnAroundChance: real, clampMin: Option<real>, clampMax: Option<real>,
                    draws: nat -> real): Walker
  {
    if k == 0 then w
    else Advance(Position(w, k - 1, step, turnAroundChance, clampMin, clampMax, draws), step, turnAroundChance, clampMin, clampMax, draws)
  }

  /** The `k`-th value the walk yields is the value after pass `k + 1`. */
  lemma {:induction false} WalkAt(w: Walker, n: nat, k: nat, step: real, turnAroundChance: real, clampMin: Option<real>,
                                  clampMax: Option<real>, draws: nat -> real)
    requires k < n
    ensures WalkFrom(w, n, step, turnAroundChance, clampMin, clampMax, draws)[k]
         == Position(w, k + 1, step, turnAroundChance, clampMin, clampMax, draws).x
    decreases k
  {
    var next := Advance(w, step, turnAroundChance, clampMin, clampMax, draws);
    if k > 0 {
      WalkAt(next, n - 1, k - 1, step, turnAroundChance, clampMin, clampMax, draws);
      PositionShift(w, k, step, turnAroundChance, clampMin, clampMax, draws);
    }
  }

  /** `k` passes from the walker after one pass are `k + 1` passes from the start. */
  lemma {:induction false} PositionShift(w: Walker, k: nat, step: real, turnAroundChance: real, clampMin: Option<real>,
                                         clampMax: Option<real>, draws: nat -> real)
    ensures Position(Advance(w, step, turnAroundChance, clampMin, clampMax, draws), k, step, turnAroundChance, clampMin, clampMax, draws)
         == Position(w, k + 1, step, turnAroundChance, clampMin, clampMax, draws)
    decreases k
  {
    if k > 0 {
      PositionShift(w, k - 1, step, turnAroundChance, clampMin, clampMax, draws);
    }
  }

  lemma Associative<T>(a: seq<T>, b: seq<T>, c: seq<T>)
    ensures (a + b) + c == a + (b + c)
  {
  }

  /**
   * A move that lands below `clamp_min` turns upward and adds `2 * step`; one
   * that lands above `clamp_max` turns downward and subtracts `2 * step`.
   */
  lemma Bounces(w: Walker, step: real, turnAroundChance: real, clampMin: Option<real>, clampMax: Option<real>, draws: nat -> real)
    ensures var landed, r := w.x + w.currentStep, Advance(w, step, turnAroundChance, clampMin, clampMax, draws);
      && (clampMin.Some? && landed < clampMin.value ==> r.x == landed + 2.0 * step && r.currentStep == step)
      && (!(clampMin.Some? && landed < clampMin.value) && clampMax.Some? && landed > clampMax.value ==>
            r.x == landed - 2.0 * step && r.currentStep == -step)
      && (InBounds(landed, clampMin, clampMax) ==> r.x == landed)
  {
  }

  /** From a value within the bounds, the walk moves by exactly `step`, bounce or not. */
  lemma ExactStep(w: Walker, step: real, turnAroundChance: real, clampMin: Option<real>, clampMax: Option<real>, draws: nat -> real)
    requires step >= 0.0 && Stepping(w, step) && InBounds(w.x, clampMin, clampMax)
    ensures var r := Advance(w, step, turnAroundChance, clampMin, clampMax, draws);
      r.x == w.x + step || r.x == w.x - step
  {
  }

  /**
   * Every value the walk yields after a value within the bounds (the start
   * value counts as the one before the first) is exactly `step` away from it.
   */
  lemma {:induction false} WalkSteps(w: Walker, n: nat, step: real, turnAroundChance: real, clampMin: Option<real>,
                                     clampMax: Option<real>, draws: nat -> real, k: nat)
    requires step >= 0.0 && Stepping(w, step) && k < n
    ensures var vs := WalkFrom(w, n, step, turnAroundChance, clampMin, clampMax, draws);
      var previous := if k == 0 then w.x else vs[k - 1];
      InBounds(previous, clampMin, clampMax) ==> vs[k] == previous + step || vs[k] == previous - step
    decreases k
  {
    var next := Advance(w, step, turnAroundChance, clampMin, clampMax, draws);
    var vs := WalkFrom(w, n, step, turnAroundChance, clampMin, clampMax, draws);
    var rest := WalkFrom(next, n - 1, step, turnAroundChance, clampMin, clampMax, draws);
    assert vs == [next.x] + rest;
    if k == 0 {
      if InBounds(w.x, clampMin, clampMax) {
        ExactStep(w, step, turnAroundChance, clampMin, clampMax, draws);
      }
    } else {
      WalkSteps(next, n - 1, step, turnAroundChance, clampMin, clampMax, draws, k - 1);
      assert vs[k] == rest[k - 1];
      assert k - 1 == 0 ==> vs[k - 1] == next.x;
      assert k - 1 > 0 ==> vs[k - 1] == rest[k - 2];
    }
  }

  // ---------------------------------------------------------------------------
  // `non_repeating_shuffle(input_list, stop_after, insertion_threshold)`
  // ---------------------------------------------------------------------------

  /** `int(r)`: truncation toward zero. */
  function Truncate(r: real): (i: int)
    ensures r >= 0.0 ==> 0 <= i && i as real <= r < i as real + 1.0
    ensures r < 0.0 ==> i as real - 1.0 < r <= i as real <= 0.0
  {
    if r >= 0.0 then r.Floor else -((-r).Floor)
  }

  /** `max_insert_point = int(len(input_list) * insertion_threshold)`. */
  function MaxInsertPoint(size: nat, insertionThreshold: real): int
  {
    Truncate(size as real * insertionThreshold)
  }

  /** `x[i], x[j] = x[j], x[i]`. */
  function Swap<T>(s: seq<T>, i: nat, j: nat): (r: seq<T>)
    requires i < |s| && j < |s|
    ensures |r| == |s|
  {
    s[i := s[j]][j := s[i]]
  }

  lemma SwapPermutes<T>(s: seq<T>, i: nat, j: nat)
    requires i < |s| && j < |s|
    ensures multiset(Swap(s, i, j)) == multiset(s)
  {
  }

  /**
   * `randbelow(n)` (and `randint(0, n - 1)`) made by the `t`-th call: the
   * draw itself when it is below `n`; larger draws stand for `n - 1`.
   */
  function RandBelow(draws: nat -> nat, t: nat, n: nat): (r: nat)
    requires n > 0
    ensures r < n
  {
    if draws(t) < n then draws(t) else n - 1
  }

  /**
   * The first `m` passes of `random.shuffle`: pass `t` swaps `x[i]`, for
   * `i = len(x) - 1 - t`, with `x[randbelow(i + 1)]`, making the `t`-th draw.
   */
  function ShufflePasses<T>(s: seq<T>, m: nat, draws: nat -> nat): (r: seq<T>)
    requires m < |s|
    ensures |r| == |s|
  {
    if m == 0 then s
    else
      var i := |s| - m;
      Swap(ShufflePasses(s, m - 1, draws), i, RandBelow(draws, m - 1, i + 1))
  }

  /** `random.shuffle(x)` with the given draws: the passes for `i` from `len(x) - 1` down to 1. */
  function Shuffled<T>(s: seq<T>, draws: nat -> nat): (r: seq<T>)
    ensures |r| == |s|
  {
    if |s| <= 1 then s else ShufflePasses(s, |s| - 1, draws)
  }

  lemma ShufflePassesPermute<T>(s: seq<T>, m: nat, draws: nat -> nat)
    requires m < |s|
    ensures multiset(ShufflePasses(s, m, draws)) == multiset(s)
  {
    if m > 0 {
      ShufflePassesPermute(s, m - 1, draws);
      ShufflePassPermutes(s, m, draws);
    }
  }

  /** One pass of the shuffle only swaps two cards. */
  lemma ShufflePassPermutes<T>(s: seq<T>, m: nat, draws: nat -> nat)
    requires 0 < m < |s|
    ensures multiset(ShufflePasses(s, m, draws)) == multiset(ShufflePasses(s, m - 1, draws))
  {
    var i := |s| - m;
    SwapPermutes(ShufflePasses(s, m - 1, draws), i, RandBelow(draws, m - 1, i + 1));
  }

  /** Shuffling only reorders: the deck is a permutation of the list it was made from. */
  lemma ShuffledPermutes<T>(s: seq<T>, draws: nat -> nat)
    ensures multiset(Shuffled(s, draws)) == multiset(s)
  {
    if |s| > 1 {
      ShufflePassesPermute(s, |s| - 1, draws);
    }
  }

  /** `random.shuffle(deck)`: the swaps of the shuffle, from the last index down. */
  method Shuffle<T>(deck: seq<T>, draws: nat -> nat) returns (r: seq<T>)
    ensures r == Shuffled(deck, draws)
    ensures multiset(r) == multiset(deck)
  {
    ShuffledPermutes(deck, draws);
    r := deck;
    if |deck| <= 1 {
      return;
    }
    var m := 0;
    while m < |deck| - 1
      invariant 0 <= m < |deck|
      invariant r == ShufflePasses(deck, m, draws)
    {
      var i := |deck| - 1 - m;
      var j := RandBelow(draws, m, i + 1);
      r := Swap(r, i, j);
      m := m + 1;
    }
  }

  /** `deck.insert(i, card)`: an index past the end appends. */
  function Insert<T>(deck: seq<T>, i: nat, card: T): (r: seq<T>)
    ensures |r| == |deck| + 1
  {
    if i < |deck| then deck[..i] + [card] + deck[i..] else deck + [card]
  }

  /** `deck.insert(i, card)` puts the card at index `i`, or last when `i` is past the end, and shifts the cards from there on. */
  lemma InsertPlaces<T>(deck: seq<T>, i: nat, card: T)
    ensures var r, at := Insert(deck, i, card), if i < |deck| then i else |deck|;
      && r[at] == card
      && (forall j :: 0 <= j < at ==> r[j] == deck[j])
      && (forall j :: at <= j < |deck| ==> r[j + 1] == deck[j])
  {
  }

  /** A non-empty deck is its cards but the last, then the last. */
  lemma LastSplit<T>(deck: seq<T>)
    requires |deck| > 0
    ensures deck[..|deck| - 1] + [deck[|deck| - 1]] == deck
  {
  }

  /** `deck.insert(0, card)` puts the card in front. */
  lemma InsertFront<T>(deck: seq<T>, card: T)
    ensures Insert(deck, 0, card) == [card] + deck
  {
    if 0 < |deck| {
      assert deck[..0] == [];
      assert deck[0..] == deck;
    }
  }

  /** Inserting adds the card and keeps the rest of the deck. */
  lemma InsertAdds<T>(deck: seq<T>, i: nat, card: T)
    ensures multiset(Insert(deck, i, card)) == multiset(deck) + multiset{card}
  {
    if i < |deck| {
      assert deck == deck[..i] + deck[i..];
    }
  }

  datatype ShuffleError = IndexError | ValueError

  /**
   * The generator's state between two calls of `next`: the deck, the card
   * dealt last (not yet put back; `None` before the first deal), what is
   * left of `stop_after` (`None` for the default `float("inf")`), and the
   * number of cards dealt.
   */
  datatype Dealer<T> = Dealer(deck: seq<T>, top: Option<T>, remaining: Option<int>, dealt: nat)

  /** What one call of `next` does: deal a card, stop, or raise. */
  datatype Call<T> = Deal(card: T, after: Dealer<T>) | Stop | Raise(error: ShuffleError)

  /**
   * One call of `next`: after the first, the card dealt last goes back at
   * the drawn index (a `ValueError` from `randint` when `max_insert_point`
   * is negative) and `stop_after` goes down by one; then the generator stops
   * unless `stop_after > 0`, and deals the last card of the deck (an
   * `IndexError` when the deck is empty).
   */
  function Next<T>(d: Dealer<T>, maxInsertPoint: int, insertDraws: nat -> nat): Call<T>
  {
    if d.top.Some? && maxInsertPoint < 0 then Raise(ValueError)
    else
      var deck := if d.top.Some? then Insert(d.deck, RandBelow(insertDraws, d.dealt, maxInsertPoint + 1), d.top.value)
                  else d.deck;
      var remaining := if d.top.Some? && d.remaining.Some? then Some(d.remaining.value - 1) else d.remaining;
      if remaining.Some? && remaining.value <= 0 then Stop
      else if |deck| == 0 then Raise(IndexError)
      else Deal(deck[|deck| - 1], Dealer(deck[..|deck| - 1], Some(deck[|deck| - 1]), remaining, d.dealt + 1))
  }

  /** The items `n` calls of `next` return, and the exception that ended them if any. */
  datatype Outcome<T> = Outcome(items: seq<T>, error: Option<ShuffleError>)

  function Run<T>(d: Dealer<T>, n: nat, maxInsertPoint: int, insertDraws: nat -> nat): (r: Outcome<T>)
    ensures |r.items| <= n
    decreases n
  {
    if n == 0 then Outcome([], None)
    else
      match Next(d, maxInsertPoint, insertDraws)
      case Deal(card, after) =>
        var rest := Run(after, n - 1, maxInsertPoint, insertDraws);
        Outcome([card] + rest.items, rest.error)
      case Stop => Outcome([], None)
      case Raise(e) => Outcome([], Some(e))
  }

  /** The generator as created: the deck shuffled, nothing dealt yet. */
  function Fresh<T>(input: seq<T>, stopAfter: Option<int>, shuffleDraws: nat -> nat): Dealer<T>
  {
    Dealer(Shuffled(input, shuffleDraws), None, stopAfter, 0)
  }

  /**
   * One resumption of the generator's loop, from `deck`, the card dealt last
   * and what is left of `stop_after`: put the card back at a drawn index in
   * `[0, max_insert_point]`, count down, then stop, raise, or pop the last card.
   */
  method DealNext<T>(deck: seq<T>, top: Option<T>, remaining: Option<int>, dealt: nat, maxInsertPoint: int,
                     insertDraws: nat -> nat) returns (call: Call<T>)
    ensures call == Next(Dealer(deck, top, remaining, dealt), maxInsertPoint, insertDraws)
  {
    var cards, left := deck, remaining;
    if top.Some? {
      if maxInsertPoint < 0 {
        return Raise(ValueError);
      }
      cards := Insert(cards, RandBelow(insertDraws, dealt, maxInsertPoint + 1), top.value);
      if left.Some? {
        left := Some(left.value - 1);
      }
    }
    if left.Some? && left.value <= 0 {
      return Stop;
    }
    if |cards| == 0 {
      return Raise(IndexError);
    }
    var card := cards[|cards| - 1];
    cards := cards[..|cards| - 1];
    call := Deal(card, Dealer(cards, Some(card), left, dealt + 1));
  }

  /**
   * `requests` calls of `next` on `non_repeating_shuffle(input_list, stop_after,
   * insertion_threshold)`: the list is copied and shuffled once, then the
   * calls resume the generator's loop.
   */
  method NonRepeatingShuffle<T>(input: seq<T>, stopAfter: Option<int>, insertionThreshold: real,
                                shuffleDraws: nat -> nat, insertDraws: nat -> nat, requests: nat)
    returns (items: seq<T>, error: Option<ShuffleError>)
    ensures Outcome(items, error)
         == Run(Fresh(input, stopAfter, shuffleDraws), requests, MaxInsertPoint(|input|, insertionThreshold), insertDraws)
  {
    var deck := input;
    var maxInsertPoint := MaxInsertPoint(|input|, insertionThreshold);
    deck := Shuffle(deck, shuffleDraws);
    items, error := DealCalls(deck, stopAfter, maxInsertPoint, insertDraws, requests);
  }

  /**
   * The calls of `next` once the deck is shuffled: each resumes the loop,
   * until `requests` items are dealt, the generator stops or it raises.
   */
  method DealCalls<T>(deck: seq<T>, stopAfter: Option<int>, maxInsertPoint: int, insertDraws: nat -> nat, requests: nat)
    returns (items: seq<T>, error: Option<ShuffleError>)
    ensures Outcome(items, error) == Run(Dealer(deck, None, stopAfter, 0), requests, maxInsertPoint, insertDraws)
  {
    var cards, top, remaining := deck, None, stopAfter;
    ghost var goal := Run(Dealer(deck, None, stopAfter, 0), requests, maxInsertPoint, insertDraws);
    ghost var left := requests;
    items := [];
    error := None;
    while |items| < requests
      invariant left == requests - |items|
      invariant goal == Outcome(items + Run(Dealer(cards, top, remaining, |items|), left, maxInsertPoint, insertDraws).items,
                                Run(Dealer(cards, top, remaining, |items|), left, maxInsertPoint, insertDraws).error)
      decreases left
    {
      ghost var before := Dealer(cards, top, remaining, |items|);
      ghost var rest := Run(before, left, maxInsertPoint, insertDraws);
      var call := DealNext(cards, top, remaining, |items|, maxInsertPoint, insertDraws);
      if call.Stop? || call.Raise? {
        error := if call.Raise? then Some(call.error) else None;
        assert goal == Outcome(items, error) by {
          assert rest == Outcome([], error);
          assert items + [] == items;
        }
        return;
      }
      left := left - 1;
      ghost var tail := Run(call.after, left, maxInsertPoint, insertDraws);
      assert goal == Outcome((items + [call.card]) + tail.items, tail.error) by {
        assert rest == Outcome([call.card] + tail.items, tail.error);
        Associative(items, [call.card], tail.items);
      }
      items := items + [call.card];
      cards, top, remaining := call.after.deck, call.after.top, call.after.remaining;
      assert call.after == Dealer(cards, top, remaining, |items|);
    }
    assert items + [] == items;
  }

  // Properties of the calls.

  /** The cards of a dealer: its deck and the card waiting to go back. */
  function Cards<T>(d: Dealer<T>): multiset<T>
  {
    multiset(d.deck) + if d.top.Some? then multiset{d.top.value} else multiset{}
  }

  /** A call that deals keeps the cards: the deck stays a permutation of the input. */
  lemma NextKeepsCards<T>(d: Dealer<T>, maxInsertPoint: int, insertDraws: nat -> nat)
    requires Next(d, maxInsertPoint, insertDraws).Deal?
    ensures var call := Next(d, maxInsertPoint, insertDraws);
      Cards(call.after) == Cards(d) && call.card in Cards(d)
  {
    var deck := if d.top.Some? then Insert(d.deck, RandBelow(insertDraws, d.dealt, maxInsertPoint + 1), d.top.value)
                else d.deck;
    if d.top.Some? {
      InsertAdds(d.deck, RandBelow(insertDraws, d.dealt, maxInsertPoint + 1), d.top.value);
    }
    assert deck == deck[..|deck| - 1] + [deck[|deck| - 1]];
  }

  /** Every item dealt is a card of the dealer. */
  lemma {:induction false} RunDealsCards<T>(d: Dealer<T>, n: nat, maxInsertPoint: int, insertDraws: nat -> nat, k: nat)
    requires k < |Run(d, n, maxInsertPoint, insertDraws).items|
    ensures Run(d, n, maxInsertPoint, insertDraws).items[k] in Cards(d)
    decreases n
  {
    var call := Next(d, maxInsertPoint, insertDraws);
    assert call.Deal?;
    NextKeepsCards(d, maxInsertPoint, insertDraws);
    var m, j := n - 1, k - 1;
    var rest := Run(call.after, m, maxInsertPoint, insertDraws);
    var items := Run(d, n, maxInsertPoint, insertDraws).items;
    assert items == [call.card] + rest.items;
    if k > 0 {
      RunDealsCards(call.after, m, maxInsertPoint, insertDraws, j);
      assert items[k] == rest.items[j];
    }
  }

  /** Every item the shuffle yields is an element of `input_list`. */
  lemma YieldsInputs<T>(input: seq<T>, stopAfter: Option<int>, insertionThreshold: real,
                        shuffleDraws: nat -> nat, insertDraws: nat -> nat, requests: nat)
    ensures var r := Run(Fresh(input, stopAfter, shuffleDraws), requests, MaxInsertPoint(|input|, insertionThreshold), insertDraws);
      forall k :: 0 <= k < |r.items| ==> r.items[k] in input
  {
    ShuffledPermutes(input, shuffleDraws);
    var r := Run(Fresh(input, stopAfter, shuffleDraws), requests, MaxInsertPoint(|input|, insertionThreshold), insertDraws);
    forall k | 0 <= k < |r.items|
      ensures r.items[k] in input
    {
      RunDealsCards(Fresh(input, stopAfter, shuffleDraws), requests, MaxInsertPoint(|input|, insertionThreshold), insertDraws, k);
      assert r.items[k] in multiset(input);
    }
  }

  /** The number of items `stop_after` lets through, `None` standing for the default `float("inf")`. */
  function Allowed(stopAfter: Option<int>, requests: nat): nat
  {
    if stopAfter.None? || stopAfter.value >= requests then requests
    else if stopAfter.value <= 0 then 0
    else stopAfter.value
  }

  /**
   * Once a card has been dealt, with `max_insert_point` not negative, the
   * calls go on dealing until `stop_after` runs out.
   */
  lemma {:induction false} RunAfterDeal<T>(d: Dealer<T>, n: nat, maxInsertPoint: int, insertDraws: nat -> nat)
    requires d.top.Some? && maxInsertPoint >= 0
    ensures var r := Run(d, n, maxInsertPoint, insertDraws);
      && r.error == None
      && |r.items| == (if d.remaining.None? then n else Allowed(Some(d.remaining.value - 1), n))
    decreases n
  {
    if n > 0 {
      var m := n - 1;
      NextAfterDeal(d, maxInsertPoint, insertDraws);
      var call := Next(d, maxInsertPoint, insertDraws);
      var r := Run(d, n, maxInsertPoint, insertDraws);
      if call.Deal? {
        var rest := Run(call.after, m, maxInsertPoint, insertDraws);
        assert r == Outcome([call.card] + rest.items, rest.error);
        RunAfterDeal(call.after, m, maxInsertPoint, insertDraws);
        if d.remaining.Some? {
          AllowedStep(d.remaining.value - 1, n);
        }
      } else {
        assert r == Outcome([], None);
      }
    }
  }

  /** One more item lets `stop_after` count down by one. */
  lemma AllowedStep(left: int, n: nat)
    requires n > 0 && left > 0
    ensures Allowed(Some(left), n) == 1 + Allowed(Some(left - 1), n - 1)
  {
  }

  /** A call after a deal, with `max_insert_point` not negative, never raises; it stops when `stop_after` runs out. */
  lemma NextAfterDeal<T>(d: Dealer<T>, maxInsertPoint: int, insertDraws: nat -> nat)
    requires d.top.Some? && maxInsertPoint >= 0
    ensures var call := Next(d, maxInsertPoint, insertDraws);
      && !call.Raise?
      && (call.Stop? <==> d.remaining.Some? && d.remaining.value - 1 <= 0)
      && (call.Deal? ==>
            call.after.top.Some? &&
            call.after.remaining == if d.remaining.Some? then Some(d.remaining.value - 1) else None)
  {
  }

  /**
   * How a run ends: an IndexError for an empty input list, a ValueError at
   * the second call when `max_insert_point` is negative, and otherwise
   * exactly `stop_after` items (or as many as were asked for).
   */
  lemma RunOutcome<T>(input: seq<T>, stopAfter: Option<int>, insertionThreshold: real,
                      shuffleDraws: nat -> nat, insertDraws: nat -> nat, requests: nat)
    ensures var maxInsertPoint := MaxInsertPoint(|input|, insertionThreshold);
      var r := Run(Fresh(input, stopAfter, shuffleDraws), requests, maxInsertPoint, insertDraws);
      && (r.error == Some(IndexError) <==> |input| == 0 && Allowed(stopAfter, requests) > 0)
      && (r.error == Some(ValueError) <==> |input| > 0 && Allowed(stopAfter, requests) > 0 && maxInsertPoint < 0 && requests >= 2)
      && (r.error == None ==> |r.items| == Allowed(stopAfter, requests))
      && (r.error == Some(ValueError) ==> |r.items| == 1)
  {
    var s := Shuffled(input, shuffleDraws);
    assert Fresh(input, stopAfter, shuffleDraws) == Dealer(s, None, stopAfter, 0);
    StartOutcome(s, stopAfter, MaxInsertPoint(|input|, insertionThreshold), insertDraws, requests);
  }

  /** `RunOutcome` for any deck before the first call. */
  lemma StartOutcome<T>(s: seq<T>, stopAfter: Option<int>, maxInsertPoint: int, insertDraws: nat -> nat, requests: nat)
    ensures var r := Run(Dealer(s, None, stopAfter, 0), requests, maxInsertPoint, insertDraws);
      && (r.error == Some(IndexError) <==> |s| == 0 && Allowed(stopAfter, requests) > 0)
      && (r.error == Some(ValueError) <==> |s| > 0 && Allowed(stopAfter, requests) > 0 && maxInsertPoint < 0 && requests >= 2)
      && (r.error == None ==> |r.items| == Allowed(stopAfter, requests))
      && (r.error == Some(ValueError) ==> |r.items| == 1)
  {
    var d := Dealer(s, None, stopAfter, 0);
    if requests > 0 {
      match Next(d, maxInsertPoint, insertDraws)
      case Deal(card, after) =>
        var m := requests - 1;
        if maxInsertPoint >= 0 {
          RunAfterDeal(after, m, maxInsertPoint, insertDraws);
        } else if requests >= 2 {
          assert Next(after, maxInsertPoint, insertDraws) == Raise(ValueError);
        }
      case Stop =>
      case Raise(e) =>
    }
  }

  // With `insertion_threshold` 0 (or any threshold below `1 / len(input_list)`),
  // `max_insert_point` is 0 and the dealt card always goes back at the bottom.

  /** `k % n` for naturals, by repeated subtraction. */
  function Mod(k: nat, n: nat): (r: nat)
    requires n > 0
    ensures r < n
    decreases k
  {
    if k < n then k else Mod(k - n, n)
  }

  /** Counting on by one wraps around at `n`. */
  lemma {:induction false} ModNext(k: nat, n: nat)
    requires n > 0 && k > 0
    ensures Mod(k, n) == if Mod(k - 1, n) + 1 < n then Mod(k - 1, n) + 1 else 0
    decreases k
  {
    if k > n {
      ModNext(k - n, n);
      assert Mod(k - 1, n) == Mod(k - n - 1, n);
    }
  }

  /** The deck turned `t` places (`t < len`): the last `t` cards moved to the front, in order. */
  function Turned<T>(s: seq<T>, t: nat): (r: seq<T>)
    requires t < |s|
    ensures |r| == |s|
  {
    s[|s| - t..] + s[..|s| - t]
  }

  /** The card dealt at deal `k` when the deck only turns: the `k`-th card from the end, counted cyclically. */
  function Cycled<T>(s: seq<T>, k: nat): T
    requires |s| > 0
  {
    s[|s| - 1 - Mod(k, |s|)]
  }

  /** Putting the last card of the turned deck at the front turns it one more place. */
  lemma TurnStep<T>(s: seq<T>, t: nat, deck: seq<T>, card: T)
    requires t < |s| && deck + [card] == Turned(s, t)
    ensures [card] + deck == Turned(s, if t + 1 < |s| then t + 1 else 0)
  {
    if t + 1 < |s| {
      TurnInside(s, t, deck, card);
    } else {
      TurnAround(s, t, deck, card);
    }
  }

  /** `TurnStep` before a full turn: the card moved to the front is the next one from the end. */
  lemma TurnInside<T>(s: seq<T>, t: nat, deck: seq<T>, card: T)
    requires t + 1 < |s| && deck + [card] == Turned(s, t)
    ensures [card] + deck == Turned(s, t + 1)
  {
    var n := |s|;
    var front, back, rest := s[n - t..], s[..n - t], s[..n - t - 1];
    var c := s[n - t - 1];
    assert back == rest + [c];
    assert deck + [card] == (front + rest) + [c];
    SnocInjective(deck, card, front + rest, c);
    assert s[n - t - 1..] == [c] + front;
  }

  /** `TurnStep` at a full turn: the deck turned `len - 1` places, with its last card in front, is the deck. */
  lemma TurnAround<T>(s: seq<T>, t: nat, deck: seq<T>, card: T)
    requires t + 1 == |s| && deck + [card] == Turned(s, t)
    ensures [card] + deck == Turned(s, 0)
  {
    var n := |s|;
    assert Turned(s, t) == s[1..] + [s[0]];
    SnocInjective(deck, card, s[1..], s[0]);
    assert Turned(s, 0) == s;
  }

  /** Appending one element is injective. */
  lemma SnocInjective<T>(x: seq<T>, c: T, y: seq<T>, e: T)
    requires x + [c] == y + [e]
    ensures x == y && c == e
  {
    assert |x| == |y|;
    assert (x + [c])[..|x|] == x;
    assert (y + [e])[..|y|] == y;
    assert (x + [c])[|x|] == c;
  }

  /** The last card of the deck turned `Mod(k, len)` places is the one dealt at deal `k`. */
  lemma TurnedLast<T>(s: seq<T>, k: nat)
    requires |s| > 0
    ensures Turned(s, Mod(k, |s|))[|s| - 1] == Cycled(s, k)
  {
  }

  /** With `max_insert_point` 0 the deck turns one place per call, and deal `k` is `Cycled(s, k)`. */
  lemma {:induction false} RunCycles<T>(d: Dealer<T>, n: nat, insertDraws: nat -> nat, s: seq<T>, j: nat, k: nat)
    requires |s| > 0 && d.top.Some? && d.dealt > 0
    requires d.deck + [d.top.value] == Turned(s, Mod(d.dealt - 1, |s|))
    requires j < |Run(d, n, 0, insertDraws).items| && k == d.dealt + j
    ensures Run(d, n, 0, insertDraws).items[j] == Cycled(s, k)
    decreases n
  {
    var m := n - 1;
    RunDeals(d, n, m, 0, insertDraws);
    var call := Next(d, 0, insertDraws);
    CycleCall(d, insertDraws, s);
    var items := Run(d, n, 0, insertDraws).items;
    if j > 0 {
      var after, i := call.after, j - 1;
      var rest := Run(after, m, 0, insertDraws);
      RunCycles(after, m, insertDraws, s, i, k);
      assert items[j] == rest.items[i];
    } else {
      assert k == d.dealt;
      assert items[j] == call.card;
    }
  }

  /** A call that deals puts its card in front of the items of the calls after it. */
  lemma RunDeals<T>(d: Dealer<T>, n: nat, m: nat, maxInsertPoint: int, insertDraws: nat -> nat)
    requires 0 < |Run(d, n, maxInsertPoint, insertDraws).items| && m + 1 == n
    ensures var call := Next(d, maxInsertPoint, insertDraws);
      && call.Deal?
      && Run(d, n, maxInsertPoint, insertDraws)
         == Outcome([call.card] + Run(call.after, m, maxInsertPoint, insertDraws).items,
                    Run(call.after, m, maxInsertPoint, insertDraws).error)
  {
  }

  /** One call with `max_insert_point` 0: the deck turns one more place and its last card is dealt. */
  lemma CycleCall<T>(d: Dealer<T>, insertDraws: nat -> nat, s: seq<T>)
    requires |s| > 0 && d.top.Some? && d.dealt > 0
    requires d.deck + [d.top.value] == Turned(s, Mod(d.dealt - 1, |s|))
    requires Next(d, 0, insertDraws).Deal?
    ensures var call := Next(d, 0, insertDraws);
      && call.card == Cycled(s, d.dealt) && call.after.dealt == d.dealt + 1 && call.after.top == Some(call.card)
      && call.after.deck + [call.card] == Turned(s, Mod(d.dealt, |s|))
  {
    var turned := [d.top.value] + d.deck;
    TurnOnce(s, d.deck, d.top.value, d.dealt);
    var i := RandBelow(insertDraws, d.dealt, 1);
    InsertFront(d.deck, d.top.value);
    assert Insert(d.deck, i, d.top.value) == turned;
    LastSplit(turned);
  }

  /** Putting the last card of the deck turned for deal `dealt - 1` in front turns it for deal `dealt`. */
  lemma TurnOnce<T>(s: seq<T>, deck: seq<T>, card: T, dealt: nat)
    requires |s| > 0 && dealt > 0 && deck + [card] == Turned(s, Mod(dealt - 1, |s|))
    ensures [card] + deck == Turned(s, Mod(dealt, |s|))
    ensures ([card] + deck)[|deck|] == Cycled(s, dealt)
  {
    var t, u := Mod(dealt - 1, |s|), Mod(dealt, |s|);
    ModNext(dealt, |s|);
    assert u == if t + 1 < |s| then t + 1 else 0;
    TurnStep(s, t, deck, card);
    TurnedLast(s, dealt);
  }

  /**
   * With `max_insert_point` 0 (an `insertion_threshold` of 0) the items
   * cycle with period `len(input_list)`: the first round deals the shuffled
   * deck from the end, and every later item repeats the one a round before.
   */
  lemma ThresholdZeroCycles<T>(input: seq<T>, stopAfter: Option<int>, insertionThreshold: real,
                               shuffleDraws: nat -> nat, insertDraws: nat -> nat, requests: nat)
    requires |input| > 0 && MaxInsertPoint(|input|, insertionThreshold) == 0
    ensures var s, r := Shuffled(input, shuffleDraws), Run(Fresh(input, stopAfter, shuffleDraws), requests, 0, insertDraws);
      && (forall k :: 0 <= k < |r.items| && k < |input| ==> r.items[k] == s[|input| - 1 - k])
      && (forall k :: |input| <= k < |r.items| ==> r.items[k] == r.items[k - |input|])
  {
    var s := Shuffled(input, shuffleDraws);
    assert Fresh(input, stopAfter, shuffleDraws) == Dealer(s, None, stopAfter, 0);
    var r := Run(Dealer(s, None, stopAfter, 0), requests, 0, insertDraws);
    forall k | 0 <= k < |r.items|
      ensures k < |s| ==> r.items[k] == s[|s| - 1 - k]
      ensures k >= |s| ==> r.items[k] == r.items[k - |s|]
    {
      StartCycles(s, stopAfter, insertDraws, requests, k);
    }
  }

  /** `ThresholdZeroCycles` at one index, for any deck before the first call. */
  lemma StartCycles<T>(s: seq<T>, stopAfter: Option<int>, insertDraws: nat -> nat, requests: nat, k: nat)
    requires |s| > 0
    requires k < |Run(Dealer(s, None, stopAfter, 0), requests, 0, insertDraws).items|
    ensures var r := Run(Dealer(s, None, stopAfter, 0), requests, 0, insertDraws);
      && (k < |s| ==> r.items[k] == s[|s| - 1 - k])
      && (k >= |s| ==> r.items[k] == r.items[k - |s|])
  {
    var items := Run(Dealer(s, None, stopAfter, 0), requests, 0, insertDraws).items;
    var n := |s|;
    assert items[k] == Cycled(s, k) by {
      FreshCycles(s, stopAfter, insertDraws, requests, k);
    }
    if k >= n {
      var l := k - n;
      assert items[l] == Cycled(s, l) by {
        FreshCycles(s, stopAfter, insertDraws, requests, l);
      }
      assert Mod(k, n) == Mod(l, n);
    } else {
      assert Mod(k, n) == k;
    }
  }

  /** From a dealer with nothing dealt yet and `max_insert_point` 0, item `k` is `Cycled(s, k)` of its deck `s`. */
  lemma FreshCycles<T>(s: seq<T>, stopAfter: Option<int>, insertDraws: nat -> nat, requests: nat, k: nat)
    requires |s| > 0 && k < |Run(Dealer(s, None, stopAfter, 0), requests, 0, insertDraws).items|
    ensures Run(Dealer(s, None, stopAfter, 0), requests, 0, insertDraws).items[k] == Cycled(s, k)
  {
    var d := Dealer(s, None, stopAfter, 0);
    var n, m := |s|, requests - 1;
    RunDeals(d, requests, m, 0, insertDraws);
    var call := Next(d, 0, insertDraws);
    FirstDeal(d, insertDraws);
    var items := Run(d, requests, 0, insertDraws).items;
    var rest := Run(call.after, m, 0, insertDraws).items;
    if k > 0 {
      assert call.after.deck + [call.after.top.value] == Turned(s, Mod(0, n)) by {
        LastSplit(s);
        assert Turned(s, 0) == s;
      }
      RunCycles(call.after, m, insertDraws, s, k - 1, k);
      assert items[k] == rest[k - 1];
    } else {
      assert Mod(0, n) == 0;
      assert items[0] == call.card == s[n - 1];
    }
  }

  /** The first call deals the last card of the deck, and keeps it back as the card to put back. */
  lemma FirstDeal<T>(d: Dealer<T>, insertDraws: nat -> nat)
    requires d.top.None? && d.dealt == 0 && Next(d, 0, insertDraws).Deal?
    ensures var n := |d.deck|;
      && n > 0
      && Next(d, 0, insertDraws) == Deal(d.deck[n - 1], Dealer(d.deck[..n - 1], Some(d.deck[n - 1]), d.remaining, 1))
  {
  }
}
