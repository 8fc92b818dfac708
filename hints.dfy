/**
 * The hint planner and the scoring of main.py: how many hints an answer gets
 * and how far apart, how many letters each hint reveals and which, the masked
 * hint text, the points a correct answer earns after some hints, and the
 * clamping of the round count.
 *
 * The seeded shuffle random.Random(seed).shuffle is a parameter `shuffle`: some
 * fixed function of the answer and the seed that returns a permutation of the
 * answer's alphanumeric positions.
 */
module Hints {
  import opened TextNorm
  import opened Db

  /** QUESTION_TTL_SEC: how long a question stays open. */
  const QuestionTtl: int := 25
  /** MAX_POINTS and MIN_POINTS. */
  const MaxPoints: int := 5
  const MinPoints: int := 1
  /** The interval of a plan without hints. */
  const NoHintInterval: int := 9999

  function Max(a: int, b: int): int {
    if a >= b then a else b
  }

  function Min(a: int, b: int): int {
    if a <= b then a else b
  }

  // ----------------------------------------------------------------------
  // choose_hint_plan (main.py:106-130)
  // ----------------------------------------------------------------------

  datatype HintPlan = HintPlan(hintTotal: int, intervalSec: int)

  /** The number of letters and digits of a string. */
  function {:induction false} AlnumCount(s: string): (n: nat)
    ensures n <= |s|
  {
    if s == [] then 0
    else AlnumCount(s[..|s| - 1]) + (if IsAlnum(s[|s| - 1]) then 1 else 0)
  }

  /** The hint count for an answer with n letters and digits. */
  function HintTotalFor(n: int): (t: int)
    ensures 0 <= t <= 4
    ensures t == 0 <==> n <= 2
    ensures 3 <= n <= 4 ==> t == 1
    ensures 5 <= n <= 7 ==> t == 2
    ensures 8 <= n <= 10 ==> t == 3
    ensures t == 4 <==> n > 10
    // the thresholds always leave more letters than hints
    ensures t > 0 ==> n >= t + 2
  {
    if n <= 2 then 0
    else if n <= 4 then 1
    else if n <= 7 then 2
    else if n <= 10 then 3
    else 4
  }

  /** A longer answer never gets fewer hints than a shorter one. */
  lemma HintTotalGrows(m: int, n: int)
    requires m <= n
    ensures HintTotalFor(m) <= HintTotalFor(n)
  {
  }

  /** The seconds the hints are spread over: max(5, QUESTION_TTL_SEC - 7). */
  const HintWindow: int := Max(5, QuestionTtl - 7)

  /** choose_hint_plan. */
  function ChooseHintPlan(answer: string): (p: HintPlan)
    ensures 0 <= p.hintTotal <= 4
    ensures p.hintTotal == HintTotalFor(AlnumCount(answer))
    ensures p.hintTotal == 0 <==> AlnumCount(answer) <= 2
    ensures p.hintTotal == 0 ==> p.intervalSec == NoHintInterval
    ensures p.intervalSec >= 4
    // all hints are given within the first QUESTION_TTL_SEC - 7 seconds of the question,
    // so the last seven seconds stay free of new hints
    ensures p.hintTotal > 0 ==> p.hintTotal * p.intervalSec <= QuestionTtl - 7
  {
    var n := AlnumCount(answer);
    var hintTotal := HintTotalFor(n);
    if hintTotal <= 0 then HintPlan(0, NoHintInterval)
    else
      var interval := Max(4, HintWindow / (hintTotal + 1));
      assert hintTotal == 1 || hintTotal == 2 || hintTotal == 3 || hintTotal == 4;
      HintPlan(hintTotal, interval)
  }

  /** The intervals of the four plans with hints: 9, 6, 4 and 4 seconds. */
  lemma PlanIntervals(answer: string)
    ensures var p := ChooseHintPlan(answer);
      (p.hintTotal == 1 ==> p.intervalSec == 9) && (p.hintTotal == 2 ==> p.intervalSec == 6)
      && (p.hintTotal == 3 ==> p.intervalSec == 4) && (p.hintTotal == 4 ==> p.intervalSec == 4)
  {
  }

  // ----------------------------------------------------------------------
  // points_for_hint_level (main.py:154-155)
  // ----------------------------------------------------------------------

  /** points_for_hint_level: the points a correct answer earns after `level` hints. */
  function PointsForHintLevel(level: int): (p: int)
    ensures p >= MinPoints
    ensures level >= 0 ==> p <= MaxPoints
    // every hint costs one point until only the minimum is left
    ensures level <= MaxPoints - MinPoints ==> p == MaxPoints - level
    ensures level >= MaxPoints - MinPoints ==> p == MinPoints
  {
    Max(MinPoints, MaxPoints - level)
  }

  /** A later hint never raises the points. */
  lemma PointsShrink(l1: int, l2: int)
    requires l1 <= l2
    ensures PointsForHintLevel(l1) >= PointsForHintLevel(l2)
  {
  }

  lemma PointsTable()
    ensures PointsForHintLevel(0) == 5 && PointsForHintLevel(1) == 4 && PointsForHintLevel(2) == 3
    ensures PointsForHintLevel(3) == 2 && forall l :: l >= 4 ==> PointsForHintLevel(l) == 1
  {
  }

  // ----------------------------------------------------------------------
  // The shown count (main.py:290-295)
  // ----------------------------------------------------------------------

  /** The least r with b * r >= a: integer ceiling division, for math.ceil(a / b). */
  function CeilDiv(a: nat, b: int): (r: nat)
    requires b > 0
    ensures b * r >= a
    ensures b * (r - 1) < a || r == 0
  {
    (a + b - 1) / b
  }

  /** k = max(1, ceil(n * level / (hint_total + 1))): how many letters hint number `level` shows. */
  function RevealCount(n: nat, level: nat, total: nat): (k: nat)
    ensures k >= 1
    ensures n * level <= total + 1 ==> k == 1
    ensures n * level > total + 1 ==> (total + 1) * (k - 1) < n * level <= (total + 1) * k
  {
    CeilDivAboveOne(n * level, total + 1);
    Max(1, CeilDiv(n * level, total + 1))
  }

  /** The ceiling of a / b is at most 1 exactly when a <= b. */
  lemma CeilDivAboveOne(a: nat, b: int)
    requires b > 0
    ensures a <= b ==> CeilDiv(a, b) <= 1
    ensures a > b ==> CeilDiv(a, b) >= 2
  {
    var r := CeilDiv(a, b);
    if r >= 2 {
      MulMonotone(b, 1, r - 1);
    } else {
      MulMonotone(b, r, 1);
    }
  }

  lemma MulMonotone(n: nat, a: nat, b: nat)
    requires a <= b
    ensures n * a <= n * b
  {
  }

  lemma {:induction false} DivMonotone(a: nat, b: nat, d: int)
    requires a <= b && d > 0
    ensures a / d <= b / d
  {
    if a / d > b / d {
      assert a / d >= b / d + 1;
      assert d * (a / d) >= d * (b / d + 1) by { MulMonotone(d, b / d + 1, a / d); }
      assert false;
    }
  }

  lemma DivExact(q: nat, d: int, r: nat)
    requires 0 <= r < d
    ensures (q * d + r) / d == q
  {
    var x := q * d + r;
    var k := x / d - q;
    assert d * k == r - x % d by {
      assert x == d * (x / d) + x % d;
      assert d * (x / d) == d * k + d * q;
    }
    if k >= 1 {
      MulMonotone(d, 1, k);
      assert false;
    } else if k <= -1 {
      assert false;
    }
  }

  /** A later hint never shows fewer letters. */
  lemma RevealGrows(n: nat, l1: nat, l2: nat, total: nat)
    requires l1 <= l2
    ensures RevealCount(n, l1, total) <= RevealCount(n, l2, total)
  {
    MulMonotone(n, l1, l2);
    DivMonotone(n * l1 + total, n * l2 + total, total + 1);
  }

  /** Up to the last hint, a hint shows at most all the letters. */
  lemma RevealBounded(n: nat, level: nat, total: nat)
    requires n >= 1 && level <= total
    ensures RevealCount(n, level, total) <= n
  {
    MulMonotone(n, level, total);
    MulMonotone(n, total, total + 1);
    DivMonotone(n * level + total, n * (total + 1) + total, total + 1);
    DivExact(n, total + 1, total);
  }

  /** With the hint counts of choose_hint_plan, even the last hint leaves a letter masked. */
  lemma RevealLeavesOne(n: nat, level: nat)
    requires HintTotalFor(n) > 0 && level <= HintTotalFor(n)
    ensures RevealCount(n, level, HintTotalFor(n)) < n
  {
    var t := HintTotalFor(n);
    MulMonotone(n, level, t);
    // n * level + t <= n * t + n - 1 == (n - 1) * (t + 1) + t, because t <= n - 1
    assert (n - 1) * (t + 1) + t == n * t + n - 1;
    DivMonotone(n * level + t, (n - 1) * (t + 1) + t, t + 1);
    DivExact(n - 1, t + 1, t);
  }

  // ----------------------------------------------------------------------
  // shuffled_alnum_positions and the shown set (main.py:147-152, main.py:296)
  // ----------------------------------------------------------------------

  /** The positions of the letters and digits of s, in order. */
  function {:induction false} AlnumPositions(s: string): (r: seq<nat>)
    ensures |r| == AlnumCount(s)
    ensures forall i :: 0 <= i < |r| ==> r[i] < |s| && IsAlnum(s[r[i]])
    ensures forall p :: 0 <= p < |s| && IsAlnum(s[p]) ==> p in r
    ensures forall i, j :: 0 <= i < j < |r| ==> r[i] < r[j]
  {
    if s == [] then []
    else
      var init := AlnumPositions(s[..|s| - 1]);
      assert forall p :: 0 <= p < |s| - 1 ==> s[..|s| - 1][p] == s[p];
      if IsAlnum(s[|s| - 1]) then init + [|s| - 1] else init
  }

  /** The seeded shuffle returns an arrangement of the answer's alphanumeric positions. */
  ghost predicate IsShuffle(shuffle: (string, Value) -> seq<nat>) {
    forall answer, seed :: multiset(shuffle(answer, seed)) == multiset(AlnumPositions(answer))
  }

  /** set(total_positions[:k]). */
  function RevealSet(order: seq<nat>, k: nat): (r: set<nat>)
    ensures forall p :: p in r <==> exists i :: 0 <= i < k && i < |order| && order[i] == p
  {
    set i | 0 <= i < k && i < |order| :: order[i]
  }

  /** Successive hints shown nested sets of positions. */
  lemma RevealNested(order: seq<nat>, k1: nat, k2: nat)
    requires k1 <= k2
    ensures RevealSet(order, k1) <= RevealSet(order, k2)
  {
  }

  /** A position of a duplicate-free order that is not among its first k is not revealed. */
  lemma NotRevealed(order: seq<nat>, k: nat)
    requires k < |order| && forall i, j :: 0 <= i < j < |order| ==> order[i] != order[j]
    ensures order[k] !in RevealSet(order, k)
  {
  }

  /** An increasing sequence holds each value at most once. */
  lemma {:induction false} IncreasingOnce(s: seq<nat>, p: nat)
    requires forall a, b :: 0 <= a < b < |s| ==> s[a] < s[b]
    ensures multiset(s)[p] <= 1
  {
    if s != [] {
      var init := s[..|s| - 1];
      assert s == init + [s[|s| - 1]];
      IncreasingOnce(init, p);
      if s[|s| - 1] == p {
        assert p !in init by {
          forall a | 0 <= a < |init| ensures init[a] != p {
            assert init[a] == s[a];
          }
        }
      }
    }
  }

  /** A value at two positions of a sequence is counted twice. */
  lemma CountedTwice(s: seq<nat>, i: int, j: int)
    requires 0 <= i < j < |s| && s[i] == s[j]
    ensures multiset(s)[s[i]] >= 2
  {
    assert s == s[..j] + [s[j]] + s[j + 1..];
    assert s[..j][i] == s[i];
    assert s[i] in multiset(s[..j]);
  }

  /** A permutation of the alphanumeric positions lists each of them once. */
  lemma ShuffleDistinct(order: seq<nat>, answer: string)
    requires multiset(order) == multiset(AlnumPositions(answer))
    ensures forall i, j :: 0 <= i < j < |order| ==> order[i] != order[j]
  {
    forall i, j | 0 <= i < j < |order| ensures order[i] != order[j] {
      IncreasingOnce(AlnumPositions(answer), order[i]);
      if order[i] == order[j] {
        CountedTwice(order, i, j);
      }
    }
  }

  // ----------------------------------------------------------------------
  // make_hint_random (main.py:132-145)
  // ----------------------------------------------------------------------

  /** The hint text: each letter or digit not revealed becomes "_", everything else is kept. */
  function Mask(answer: string, shown: set<nat>): (r: string)
    ensures |r| == |answer|
    ensures forall i :: 0 <= i < |r| ==> r[i] == (if IsAlnum(answer[i]) && i !in shown then '_' else answer[i])
  {
    seq(|answer|, i requires 0 <= i < |answer| =>
      if IsAlnum(answer[i]) && i !in shown then '_' else answer[i])
  }

  /** make_hint_random: spaces, hyphens and other symbols as they are, letters and digits revealed or hidden. */
  method MakeHintRandom(answer: string, shown: set<nat>) returns (out: string)
    ensures out == Mask(answer, shown)
  {
    out := [];
    var idx := 0;
    while idx < |answer|
      invariant 0 <= idx <= |answer|
      invariant out == Mask(answer[..idx], shown)
    {
      var ch := answer[idx];
      assert answer[..idx + 1] == answer[..idx] + [ch];
      if ch == ' ' || ch == '-' {
        out := out + [ch];
      } else if IsAlnum(ch) {
        out := out + [if idx in shown then ch else '_'];
      } else {
        out := out + [ch];
      }
      idx := idx + 1;
    }
    assert answer[..idx] == answer;
  }

  /** A letter or digit is shown exactly when its position is revealed. */
  lemma MaskShowsRevealed(answer: string, shown: set<nat>, i: nat)
    requires i < |answer| && IsAlnum(answer[i])
    ensures Mask(answer, shown)[i] == answer[i] <==> i in shown
  {
    assert !IsAlnum('_');
  }

  /** With every alphanumeric position revealed the hint is the answer itself. */
  lemma MaskAllRevealed(answer: string, shown: set<nat>)
    requires forall i :: 0 <= i < |answer| && IsAlnum(answer[i]) ==> i in shown
    ensures Mask(answer, shown) == answer
  {
  }

  /** Revealing more positions hides nothing that was shown. */
  lemma MaskNested(answer: string, r1: set<nat>, r2: set<nat>, i: nat)
    requires r1 <= r2 && i < |answer| && Mask(answer, r1)[i] == answer[i]
    ensures Mask(answer, r2)[i] == answer[i]
  {
  }

  /** The hint text of hint number `level` of hint_total for an answer and a seed. */
  function HintText(shuffle: (string, Value) -> seq<nat>, answer: string, seed: Value, level: nat, total: nat): (r: string)
    ensures |r| == |answer|
  {
    var order := shuffle(answer, seed);
    Mask(answer, RevealSet(order, RevealCount(|order|, level, total)))
  }

  /** Each hint of an answer shows everything the hint before it showed. */
  lemma HintsNested(shuffle: (string, Value) -> seq<nat>, answer: string, seed: Value, level: nat, total: nat, i: nat)
    requires i < |answer| && HintText(shuffle, answer, seed, level, total)[i] == answer[i]
    ensures HintText(shuffle, answer, seed, level + 1, total)[i] == answer[i]
  {
    var order := shuffle(answer, seed);
    RevealGrows(|order|, level, level + 1, total);
    RevealNested(order, RevealCount(|order|, level, total), RevealCount(|order|, level + 1, total));
    MaskNested(answer, RevealSet(order, RevealCount(|order|, level, total)),
               RevealSet(order, RevealCount(|order|, level + 1, total)), i);
  }

  /** No hint of a planned answer gives the whole answer away: some letter or digit stays "_". */
  lemma HintKeepsAMask(shuffle: (string, Value) -> seq<nat>, answer: string, seed: Value, level: nat)
    requires IsShuffle(shuffle)
    requires ChooseHintPlan(answer).hintTotal > 0 && level <= ChooseHintPlan(answer).hintTotal
    ensures exists i :: (0 <= i < |answer| && IsAlnum(answer[i])
                         && HintText(shuffle, answer, seed, level, ChooseHintPlan(answer).hintTotal)[i] == '_')
  {
    var total := ChooseHintPlan(answer).hintTotal;
    var order := shuffle(answer, seed);
    assert multiset(order) == multiset(AlnumPositions(answer));
    assert |order| == AlnumCount(answer) by {
      assert |multiset(order)| == |multiset(AlnumPositions(answer))|;
    }
    var k := RevealCount(|order|, level, total);
    RevealLeavesOne(|order|, level);
    ShuffleDistinct(order, answer);
    NotRevealed(order, k);
    var p := order[k];
    assert p in multiset(AlnumPositions(answer));
    assert p < |answer| && IsAlnum(answer[p]);
    assert HintText(shuffle, answer, seed, level, total)[p] == '_';
  }

  // ----------------------------------------------------------------------
  // Round count (main.py:401, main.py:448)
  // ----------------------------------------------------------------------

  /** max(1, min(rounds, 50)). */
  function ClampRounds(rounds: int): (r: int)
    ensures 1 <= r <= 50
    ensures 1 <= rounds <= 50 ==> r == rounds
    ensures rounds < 1 ==> r == 1
    ensures rounds > 50 ==> r == 50
  {
    Max(1, Min(rounds, 50))
  }
}
