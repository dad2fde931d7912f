/** Estimating how often a condition is TRUE, FALSE or UNKNOWN (src/estimator.rs), over the reals. */
module Selectivity {
  import opened Evaluator

  datatype Selectivity3 = Selectivity3(isTrue: real, isFalse: real, isUnknown: real)

  /** A distribution over the three truth values. */
  predicate Distribution(p: Selectivity3) {
    p.isTrue >= 0.0 && p.isFalse >= 0.0 && p.isUnknown >= 0.0 && p.isTrue + p.isFalse + p.isUnknown == 1.0
  }

  function Clamp(x: real, lo: real, hi: real): real {
    if x < lo then lo else if x > hi then hi else x
  }

  function Max(x: real, y: real): real {
    if x < y then y else x
  }

  function Certain(isTrue: real): (p: Selectivity3)
    ensures Distribution(p) && p.isUnknown == 0.0
    ensures 0.0 <= isTrue <= 1.0 ==> p.isTrue == isTrue
    ensures isTrue < 0.0 ==> p.isTrue == 0.0
    ensures isTrue > 1.0 ==> p.isTrue == 1.0
  {
    var t := Clamp(isTrue, 0.0, 1.0);
    Selectivity3(t, 1.0 - t, 0.0)
  }

  function FromTrueAndUnknown(isTrue: real, isUnknown: real): (p: Selectivity3)
    ensures Distribution(p)
    ensures isTrue >= 0.0 && isUnknown >= 0.0 && isTrue + isUnknown <= 1.0 ==>
      p.isTrue == isTrue && p.isUnknown == isUnknown
    ensures p.isTrue == Certain(isTrue).isTrue
    ensures isUnknown < 0.0 ==> p.isUnknown == 0.0
    ensures 0.0 <= isUnknown <= 1.0 - p.isTrue ==> p.isUnknown == isUnknown
    ensures isUnknown > 1.0 - p.isTrue ==> p.isFalse == 0.0
  {
    var t := Clamp(isTrue, 0.0, 1.0);
    var u := Clamp(isUnknown, 0.0, 1.0 - t);
    Selectivity3(t, Max(1.0 - t - u, 0.0), u)
  }

  function AlwaysUnknown(): (p: Selectivity3)
    ensures Distribution(p) && p.isTrue == p.isFalse == 0.0
  {
    Selectivity3(0.0, 0.0, 1.0)
  }

  /** Multiplication, named so that proofs can treat products as atoms and use the laws below. */
  function Times(x: real, y: real): real {
    x * y
  }

  function And3(a: Selectivity3, b: Selectivity3): Selectivity3 {
    var t := Clamp(Times(a.isTrue, b.isTrue), 0.0, 1.0);
    var f := Clamp(a.isFalse + b.isFalse - Times(a.isFalse, b.isFalse), 0.0, 1.0);
    Selectivity3(t, f, Max(1.0 - t - f, 0.0))
  }

  function Or3(a: Selectivity3, b: Selectivity3): Selectivity3 {
    var t := Clamp(a.isTrue + b.isTrue - Times(a.isTrue, b.isTrue), 0.0, 1.0);
    var f := Clamp(Times(a.isFalse, b.isFalse), 0.0, 1.0);
    Selectivity3(t, f, Max(1.0 - t - f, 0.0))
  }

  function Not3(p: Selectivity3): Selectivity3 {
    Selectivity3(p.isFalse, p.isTrue, p.isUnknown)
  }

  // ---- Laws of multiplication

  lemma Commutes(x: real, y: real)
    ensures Times(x, y) == Times(y, x)
  {
  }

  lemma Associates(x: real, y: real, z: real)
    ensures Times(Times(x, y), z) == Times(x, Times(y, z))
  {
  }

  lemma Spreads(x: real, y: real, z: real)
    ensures Times(x, y + z) == Times(x, y) + Times(x, z)
    ensures Times(x, y - z) == Times(x, y) - Times(x, z)
    ensures Times(x, 1.0) == x && Times(x, 0.0) == 0.0
  {
  }

  lemma SpreadsThrice(x: real, a: real, b: real, c: real)
    ensures Times(x, a + b + c) == Times(x, a) + Times(x, b) + Times(x, c)
    ensures Times(a + b + c, x) == Times(a, x) + Times(b, x) + Times(c, x)
  {
  }

  lemma NonNegative(x: real, y: real)
    requires x >= 0.0 && y >= 0.0
    ensures Times(x, y) >= 0.0
  {
  }

  lemma Grows(x: real, x': real, y: real, y': real)
    requires 0.0 <= x <= x' && 0.0 <= y <= y'
    ensures 0.0 <= Times(x, y) <= Times(x', y')
  {
    hide Times;
    NonNegative(x, y);
    NonNegative(x' - x, y);
    NonNegative(x', y' - y);
    Commutes(x, y);
    Commutes(x', y);
    Commutes(x' - x, y);
    Spreads(y, x', x);
    Spreads(x', y', y);
  }

  // ---- Algebra

  /** On distributions nothing is clamped. */
  lemma And3Exact(a: Selectivity3, b: Selectivity3)
    requires Distribution(a) && Distribution(b)
    ensures Distribution(And3(a, b))
    ensures And3(a, b).isTrue == Times(a.isTrue, b.isTrue)
    ensures And3(a, b).isFalse == a.isFalse + b.isFalse - Times(a.isFalse, b.isFalse)
  {
    hide Times;
    Grows(a.isTrue, 1.0 - a.isFalse, b.isTrue, 1.0 - b.isFalse);
    NonNegative(a.isFalse, b.isFalse);
    NonNegative(a.isFalse, 1.0 - b.isFalse);
    NonNegative(1.0 - a.isFalse, b.isFalse);
    Spreads(a.isFalse, 1.0, b.isFalse);
    Spreads(1.0 - a.isFalse, 1.0, b.isFalse);
    Commutes(1.0 - a.isFalse, b.isFalse);
    Commutes(a.isFalse, b.isFalse);
    Spreads(b.isFalse, 1.0, a.isFalse);
  }

  /** De Morgan's laws, clamping included. */
  lemma DeMorgan(a: Selectivity3, b: Selectivity3)
    ensures Not3(And3(a, b)) == Or3(Not3(a), Not3(b))
    ensures Not3(Or3(a, b)) == And3(Not3(a), Not3(b))
    ensures Not3(Not3(a)) == a
  {
    hide Times;
  }

  lemma Or3Exact(a: Selectivity3, b: Selectivity3)
    requires Distribution(a) && Distribution(b)
    ensures Distribution(Or3(a, b))
    ensures Or3(a, b).isFalse == Times(a.isFalse, b.isFalse)
    ensures Or3(a, b).isTrue == a.isTrue + b.isTrue - Times(a.isTrue, b.isTrue)
  {
    hide Times, And3, Or3;
    DeMorgan(a, b);
    And3Exact(Not3(a), Not3(b));
  }

  lemma And3Associates(a: Selectivity3, b: Selectivity3, c: Selectivity3)
    requires Distribution(a) && Distribution(b) && Distribution(c)
    ensures And3(And3(a, b), c) == And3(a, And3(b, c)) && And3(a, b) == And3(b, a)
  {
    hide Times, And3;
    And3Exact(a, b);
    And3Exact(b, a);
    And3Exact(b, c);
    And3Exact(And3(a, b), c);
    And3Exact(a, And3(b, c));
    Associates(a.isTrue, b.isTrue, c.isTrue);
    Either(a.isFalse, b.isFalse, c.isFalse);
    Commutes(a.isTrue, b.isTrue);
    Commutes(a.isFalse, b.isFalse);
  }

  lemma Either(x: real, y: real, z: real)
    ensures (x + y - Times(x, y)) + z - Times(x + y - Times(x, y), z) ==
            x + (y + z - Times(y, z)) - Times(x, y + z - Times(y, z))
  {
    hide Times;
    Associates(x, y, z);
    Commutes(x + y - Times(x, y), z);
    Spreads(z, x + y, Times(x, y));
    Spreads(z, x, y);
    Commutes(Times(x, y), z);
    Commutes(x, z);
    Commutes(y, z);
    Spreads(x, y + z, Times(y, z));
    Spreads(x, y, z);
  }

  lemma Or3Associates(a: Selectivity3, b: Selectivity3, c: Selectivity3)
    requires Distribution(a) && Distribution(b) && Distribution(c)
    ensures Or3(Or3(a, b), c) == Or3(a, Or3(b, c)) && Or3(a, b) == Or3(b, a)
  {
    hide And3, Or3;
    And3Associates(Not3(a), Not3(b), Not3(c));
    DeMorgan(a, b);
    DeMorgan(b, c);
    DeMorgan(Or3(a, b), c);
    DeMorgan(a, Or3(b, c));
    DeMorgan(b, a);
  }

  // ---- Conditions over independent leaves

  datatype Condition = Leaf(p: Selectivity3) | Not(c: Condition) | Both(conjunction: bool, l: Condition, r: Condition)

  function Estimate(c: Condition): Selectivity3 {
    match c
    case Leaf(p) => p
    case Not(d) => Not3(Estimate(d))
    case Both(conjunction, l, r) =>
      if conjunction then And3(Estimate(l), Estimate(r)) else Or3(Estimate(l), Estimate(r))
  }

  function Leaves(c: Condition): (ps: seq<Selectivity3>)
    ensures |ps| > 0
  {
    match c
    case Leaf(p) => [p]
    case Not(d) => Leaves(d)
    case Both(_, l, r) => Leaves(l) + Leaves(r)
  }

  predicate LeavesOk(c: Condition) {
    forall i :: 0 <= i < |Leaves(c)| ==> Distribution(Leaves(c)[i])
  }

  function Combine(conjunction: bool, a: Tri, b: Tri): Tri {
    if conjunction then TriAnd(a, b) else TriOr(a, b)
  }

  /** The value of the condition when its leaves have these values, as the evaluator computes it. */
  function Truth(c: Condition, s: seq<Tri>): Tri
    requires |s| == |Leaves(c)|
  {
    match c
    case Leaf(_) => s[0]
    case Not(d) => TriNot(Truth(d, s))
    case Both(conjunction, l, r) => Combine(conjunction, Truth(l, s[..|Leaves(l)|]), Truth(r, s[|Leaves(l)|..]))
  }

  function Chance(p: Selectivity3, v: Tri): real {
    match v
    case True => p.isTrue
    case False => p.isFalse
    case Unknown => p.isUnknown
  }

  /** The probability that the condition has value `v`, given the values of its first leaves: the sum over
      all values of the other leaves, which are independent of each other. */
  function Probability(c: Condition, known: seq<Tri>, v: Tri): real
    requires |known| <= |Leaves(c)|
    decreases |Leaves(c)| - |known|
  {
    if |known| == |Leaves(c)| then if Truth(c, known) == v then 1.0 else 0.0
    else
      var p := Leaves(c)[|known|];
      Times(p.isTrue, Probability(c, known + [True], v)) +
      Times(p.isFalse, Probability(c, known + [False], v)) +
      Times(p.isUnknown, Probability(c, known + [Unknown], v))
  }

  lemma {:induction false} NotProbability(c: Condition, known: seq<Tri>, v: Tri)
    requires |known| <= |Leaves(c)|
    ensures Probability(Not(c), known, v) == Probability(c, known, TriNot(v))
    decreases |Leaves(c)| - |known|
  {
    hide Times;
    if |known| < |Leaves(c)| {
      NotProbability(c, known + [True], v);
      NotProbability(c, known + [False], v);
      NotProbability(c, known + [Unknown], v);
    }
  }

  /** Probability that the right side brings about `v` when the left side is `a`. */
  function RightGives(conjunction: bool, a: Tri, r: Condition, known: seq<Tri>, v: Tri): real
    requires |known| <= |Leaves(r)|
  {
    (if Combine(conjunction, a, True) == v then Probability(r, known, True) else 0.0) +
    (if Combine(conjunction, a, False) == v then Probability(r, known, False) else 0.0) +
    (if Combine(conjunction, a, Unknown) == v then Probability(r, known, Unknown) else 0.0)
  }

  /** The left side is known. */
  lemma {:induction false} RightSum(conjunction: bool, l: Condition, r: Condition, known: seq<Tri>, v: Tri)
    requires |Leaves(l)| <= |known| <= |Leaves(l)| + |Leaves(r)|
    ensures Probability(Both(conjunction, l, r), known, v) ==
      RightGives(conjunction, Truth(l, known[..|Leaves(l)|]), r, known[|Leaves(l)|..], v)
    decreases |Leaves(l)| + |Leaves(r)| - |known|
  {
    hide Truth, Combine, Leaves, Times, RightGives, Probability;
    var c, n := Both(conjunction, l, r), |Leaves(l)|;
    BothLeaves(conjunction, l, r);
    if |known| == |Leaves(c)| {
      AllKnown(conjunction, l, r, known, v);
    } else {
      forall t: Tri ensures (known + [t])[..n] == known[..n] && (known + [t])[n..] == known[n..] + [t] {
      }
      RightSum(conjunction, l, r, known + [True], v);
      RightSum(conjunction, l, r, known + [False], v);
      RightSum(conjunction, l, r, known + [Unknown], v);
      RightStep(conjunction, Truth(l, known[..n]), r, known[n..], v, Leaves(c)[|known|]);
      OneStep(c, known, v);
    }
  }

  lemma AllKnown(conjunction: bool, l: Condition, r: Condition, s: seq<Tri>, v: Tri)
    requires |s| == |Leaves(l)| + |Leaves(r)|
    ensures |Leaves(Both(conjunction, l, r))| == |s|
    ensures Probability(Both(conjunction, l, r), s, v) == RightGives(conjunction, Truth(l, s[..|Leaves(l)|]), r,
                                                                     s[|Leaves(l)|..], v)
  {
    hide Truth, Combine, Leaves, Times;
    BothLeaves(conjunction, l, r);
    BothTruth(conjunction, l, r, s);
    var rest := s[|Leaves(l)|..];
    var b := Truth(r, rest);
    assert forall w: Tri :: Probability(r, rest, w) == if b == w then 1.0 else 0.0;
    match b
    case True =>
    case False =>
    case Unknown =>
  }

  lemma BothLeaves(conjunction: bool, l: Condition, r: Condition)
    ensures Leaves(Both(conjunction, l, r)) == Leaves(l) + Leaves(r)
  {
  }

  lemma BothTruth(conjunction: bool, l: Condition, r: Condition, s: seq<Tri>)
    requires |s| == |Leaves(l)| + |Leaves(r)|
    ensures Truth(Both(conjunction, l, r), s) == Combine(conjunction, Truth(l, s[..|Leaves(l)|]),
                                                         Truth(r, s[|Leaves(l)|..]))
  {
  }

  lemma OneStep(c: Condition, known: seq<Tri>, v: Tri)
    requires |known| < |Leaves(c)|
    ensures var p := Leaves(c)[|known|];
      Probability(c, known, v) == Times(p.isTrue, Probability(c, known + [True], v)) +
        Times(p.isFalse, Probability(c, known + [False], v)) + Times(p.isUnknown, Probability(c, known + [Unknown], v))
  {
    hide Times, Leaves;
  }

  lemma RightStep(conjunction: bool, a: Tri, r: Condition, known: seq<Tri>, v: Tri, p: Selectivity3)
    requires |known| < |Leaves(r)| && p == Leaves(r)[|known|]
    ensures RightGives(conjunction, a, r, known, v) ==
      Times(p.isTrue, RightGives(conjunction, a, r, known + [True], v)) +
      Times(p.isFalse, RightGives(conjunction, a, r, known + [False], v)) +
      Times(p.isUnknown, RightGives(conjunction, a, r, known + [Unknown], v))
  {
    hide Combine, Leaves, Probability, Times;
    OneStep(r, known, True);
    OneStep(r, known, False);
    OneStep(r, known, Unknown);
    RightTimes(conjunction, a, r, known + [True], v, p.isTrue);
    RightTimes(conjunction, a, r, known + [False], v, p.isFalse);
    RightTimes(conjunction, a, r, known + [Unknown], v, p.isUnknown);
  }

  lemma RightTimes(conjunction: bool, a: Tri, r: Condition, known: seq<Tri>, v: Tri, x: real)
    requires |known| <= |Leaves(r)|
    ensures Times(x, RightGives(conjunction, a, r, known, v)) ==
      (if Combine(conjunction, a, True) == v then Times(x, Probability(r, known, True)) else 0.0) +
      (if Combine(conjunction, a, False) == v then Times(x, Probability(r, known, False)) else 0.0) +
      (if Combine(conjunction, a, Unknown) == v then Times(x, Probability(r, known, Unknown)) else 0.0)
  {
    hide Combine, Leaves, Probability, Times;
    SpreadsThrice(x, if Combine(conjunction, a, True) == v then Probability(r, known, True) else 0.0,
                  if Combine(conjunction, a, False) == v then Probability(r, known, False) else 0.0,
                  if Combine(conjunction, a, Unknown) == v then Probability(r, known, Unknown) else 0.0);
    Spreads(x, 0.0, 0.0);
  }

  /** The left side is not fully known yet. */
  lemma {:induction false} LeftSum(conjunction: bool, l: Condition, r: Condition, known: seq<Tri>, v: Tri)
    requires |known| <= |Leaves(l)|
    ensures |known| <= |Leaves(Both(conjunction, l, r))|
    ensures Probability(Both(conjunction, l, r), known, v) ==
      Mix(l, known, RightGives(conjunction, True, r, [], v), RightGives(conjunction, False, r, [], v),
          RightGives(conjunction, Unknown, r, [], v))
    decreases |Leaves(l)| - |known|
  {
    hide Truth, Leaves, RightGives, Times, Mix, Probability;
    var c := Both(conjunction, l, r);
    BothLeaves(conjunction, l, r);
    if |known| == |Leaves(l)| {
      RightSum(conjunction, l, r, known, v);
      assert known[..|Leaves(l)|] == known && known[|Leaves(l)|..] == [];
      MixKnown(l, known, RightGives(conjunction, True, r, [], v), RightGives(conjunction, False, r, [], v),
               RightGives(conjunction, Unknown, r, [], v));
    } else {
      LeftSum(conjunction, l, r, known + [True], v);
      LeftSum(conjunction, l, r, known + [False], v);
      LeftSum(conjunction, l, r, known + [Unknown], v);
      OneStep(c, known, v);
      LeftStep(l, known, RightGives(conjunction, True, r, [], v), RightGives(conjunction, False, r, [], v),
               RightGives(conjunction, Unknown, r, [], v));
    }
  }

  /** The weighted mean of three numbers, by the value of the left side. */
  ghost function Mix(l: Condition, known: seq<Tri>, x: real, y: real, z: real): real
    requires |known| <= |Leaves(l)|
  {
    Times(Probability(l, known, True), x) + Times(Probability(l, known, False), y) +
        Times(Probability(l, known, Unknown), z)
  }

  lemma MixKnown(l: Condition, known: seq<Tri>, x: real, y: real, z: real)
    requires |known| == |Leaves(l)|
    ensures Mix(l, known, x, y, z) == match Truth(l, known) case True => x case False => y case Unknown => z
  {
    hide Truth, Leaves, Times;
    Ends(x);
    Ends(y);
    Ends(z);
  }

  lemma Ends(x: real)
    ensures Times(1.0, x) == x && Times(0.0, x) == 0.0
  {
  }

  lemma LeftStep(l: Condition, known: seq<Tri>, x: real, y: real, z: real)
    requires |known| < |Leaves(l)|
    ensures var p := Leaves(l)[|known|];
      Mix(l, known, x, y, z) ==
        Times(p.isTrue, Mix(l, known + [True], x, y, z)) + Times(p.isFalse, Mix(l, known + [False], x, y, z)) +
        Times(p.isUnknown, Mix(l, known + [Unknown], x, y, z))
  {
    hide Leaves, Probability, Times;
    var p := Leaves(l)[|known|];
    OneStep(l, known, True);
    OneStep(l, known, False);
    OneStep(l, known, Unknown);
    Distribute(p, Probability(l, known + [True], True), Probability(l, known + [False], True),
               Probability(l, known + [Unknown], True), x);
    Distribute(p, Probability(l, known + [True], False), Probability(l, known + [False], False),
               Probability(l, known + [Unknown], False), y);
    Distribute(p, Probability(l, known + [True], Unknown), Probability(l, known + [False], Unknown),
               Probability(l, known + [Unknown], Unknown), z);
    MixTimes(l, known + [True], x, y, z, p.isTrue);
    MixTimes(l, known + [False], x, y, z, p.isFalse);
    MixTimes(l, known + [Unknown], x, y, z, p.isUnknown);
  }

  lemma MixTimes(l: Condition, known: seq<Tri>, x: real, y: real, z: real, q: real)
    requires |known| <= |Leaves(l)|
    ensures Times(q, Mix(l, known, x, y, z)) ==
      Times(q, Times(Probability(l, known, True), x)) + Times(q, Times(Probability(l, known, False), y)) +
      Times(q, Times(Probability(l, known, Unknown), z))
  {
    hide Leaves, Probability, Times;
    SpreadsThrice(q, Times(Probability(l, known, True), x), Times(Probability(l, known, False), y),
                  Times(Probability(l, known, Unknown), z));
  }

  lemma Distribute(p: Selectivity3, a: real, b: real, c: real, x: real)
    ensures Times(Times(p.isTrue, a) + Times(p.isFalse, b) + Times(p.isUnknown, c), x) ==
      Times(p.isTrue, Times(a, x)) + Times(p.isFalse, Times(b, x)) + Times(p.isUnknown, Times(c, x))
  {
    hide Times;
    SpreadsThrice(x, Times(p.isTrue, a), Times(p.isFalse, b), Times(p.isUnknown, c));
    Associates(p.isTrue, a, x);
    Associates(p.isFalse, b, x);
    Associates(p.isUnknown, c, x);
  }

  /** The estimate is exact: for every condition over independent leaves it is the distribution of the value
      that the evaluator computes. */
  lemma {:induction false} EstimateIsExact(c: Condition, v: Tri)
    requires LeavesOk(c)
    ensures Distribution(Estimate(c)) && Chance(Estimate(c), v) == Probability(c, [], v)
    decreases c
  {
    hide Distribution, And3, Or3, Times, LeavesOk, Probability;
    match c
    case Leaf(p) => LeafIsExact(p, v);
    case Not(d) =>
      SameLeaves(d);
      EstimateIsExact(d, TriNot(v));
      NotProbability(d, [], v);
      NotIsDistribution(Estimate(d));
    case Both(conjunction, l, r) =>
      SplitLeaves(conjunction, l, r);
      forall w: Tri ensures Distribution(Estimate(l)) && Chance(Estimate(l), w) == Probability(l, [], w) {
        EstimateIsExact(l, w);
      }
      forall w: Tri ensures Distribution(Estimate(r)) && Chance(Estimate(r), w) == Probability(r, [], w) {
        EstimateIsExact(r, w);
      }
      LeftSum(conjunction, l, r, [], v);
      TableOf(conjunction, Estimate(l), Estimate(r), l, r, v);
  }

  lemma SameLeaves(c: Condition)
    requires LeavesOk(Not(c))
    ensures LeavesOk(c)
  {
    hide Distribution;
    assert Leaves(Not(c)) == Leaves(c);
  }

  lemma NotIsDistribution(p: Selectivity3)
    requires Distribution(p)
    ensures Distribution(Not3(p)) && forall v: Tri :: Chance(Not3(p), v) == Chance(p, TriNot(v))
  {
  }

  lemma LeafIsExact(p: Selectivity3, v: Tri)
    requires LeavesOk(Leaf(p))
    ensures Distribution(p) && Chance(p, v) == Probability(Leaf(p), [], v)
  {
    hide Times, Distribution;
    assert Leaves(Leaf(p))[0] == p;
    OneStep(Leaf(p), [], v);
    assert forall t: Tri :: Probability(Leaf(p), [] + [t], v) == if t == v then 1.0 else 0.0;
    Spreads(p.isTrue, 0.0, 0.0);
    Spreads(p.isFalse, 0.0, 0.0);
    Spreads(p.isUnknown, 0.0, 0.0);
  }

  lemma SplitLeaves(conjunction: bool, l: Condition, r: Condition)
    requires LeavesOk(Both(conjunction, l, r))
    ensures LeavesOk(l) && LeavesOk(r)
  {
    hide Distribution, Leaves;
    BothLeaves(conjunction, l, r);
    var all := Leaves(Both(conjunction, l, r));
    assert forall i :: 0 <= i < |Leaves(l)| ==> all[i] == Leaves(l)[i];
    assert forall i :: 0 <= i < |Leaves(r)| ==> all[|Leaves(l)|+i] == Leaves(r)[i];
  }

  /** Summing the truth table gives the formulas of `and3` and `or3`. */
  lemma TableOf(conjunction: bool, a: Selectivity3, b: Selectivity3, l: Condition, r: Condition, v: Tri)
    requires Distribution(a) && Distribution(b)
    requires forall w: Tri :: Chance(a, w) == Probability(l, [], w)
    requires forall w: Tri :: Chance(b, w) == Probability(r, [], w)
    ensures var e := if conjunction then And3(a, b) else Or3(a, b);
      && Distribution(e)
      && Chance(e, v) == Mix(l, [], RightGives(conjunction, True, r, [], v), RightGives(conjunction, False, r, [], v),
                             RightGives(conjunction, Unknown, r, [], v))
  {
    hide And3, Or3, Probability, Times, RightGives, Combine;
    And3Exact(a, b);
    Or3Exact(a, b);
    assert Probability(l, [], True) == Chance(a, True) && Probability(l, [], False) == Chance(a, False) &&
        Probability(l, [], Unknown) == Chance(a, Unknown);
    TableRows(conjunction, b, r, v);
    Row(a.isTrue, b);
    Row(a.isFalse, b);
    Row(a.isUnknown, b);
    Column(a, b.isTrue);
    Column(a, b.isFalse);
    Spreads(a.isTrue, 0.0, 0.0);
    Spreads(a.isFalse, 0.0, 0.0);
    Spreads(a.isUnknown, 0.0, 0.0);
  }

  /** The rows of the truth table, summed over the right side. */
  lemma TableRows(conjunction: bool, b: Selectivity3, r: Condition, v: Tri)
    requires Distribution(b) && forall w: Tri :: Chance(b, w) == Probability(r, [], w)
    ensures RightGives(conjunction, if conjunction then True else False, r, [], v) == Chance(b, v)
    ensures RightGives(conjunction, if conjunction then False else True, r, [], v) ==
      if v == (if conjunction then False else True) then 1.0 else 0.0
    ensures RightGives(conjunction, Unknown, r, [], v) ==
      if v == Unknown then b.isUnknown + (if conjunction then b.isTrue else b.isFalse)
      else if v == (if conjunction then False else True) then Chance(b, v)
      else 0.0
  {
    hide Probability, Times;
    assert Probability(r, [], True) == Chance(b, True) && Probability(r, [], False) == Chance(b, False) &&
        Probability(r, [], Unknown) == Chance(b, Unknown);
  }

  /** All ways in which one side is a certain value. */
  lemma Row(x: real, b: Selectivity3)
    requires Distribution(b)
    ensures Times(x, b.isTrue + b.isFalse + b.isUnknown) == x
    ensures Times(x, b.isTrue) + Times(x, b.isFalse) + Times(x, b.isUnknown) == x
    ensures Times(x, b.isTrue + b.isUnknown) == Times(x, b.isTrue) + Times(x, b.isUnknown)
    ensures Times(x, b.isFalse + b.isUnknown) == Times(x, b.isFalse) + Times(x, b.isUnknown)
    ensures Times(x, 0.0) == 0.0
  {
    hide Times;
    SpreadsThrice(x, b.isTrue, b.isFalse, b.isUnknown);
    Spreads(x, b.isTrue, b.isUnknown);
    Spreads(x, b.isFalse, b.isUnknown);
  }

  lemma Column(a: Selectivity3, y: real)
    requires Distribution(a)
    ensures Times(a.isTrue, y) + Times(a.isFalse, y) + Times(a.isUnknown, y) == y
  {
    hide Times;
    SpreadsThrice(y, a.isTrue, a.isFalse, a.isUnknown);
    Ends(y);
  }

  // ---- Leaves whose value is known

  /** The estimate of a leaf that always has this value. */
  function Sure(v: Tri): Selectivity3 {
    match v
    case True => Certain(1.0)
    case False => Certain(0.0)
    case Unknown => AlwaysUnknown()
  }

  /** Where every leaf is sure, the estimate is the value the evaluator computes. */
  lemma {:induction false} SureOfTruth(c: Condition, s: seq<Tri>)
    requires |s| == |Leaves(c)| && forall i :: 0 <= i < |s| ==> Leaves(c)[i] == Sure(s[i])
    ensures Estimate(c) == Sure(Truth(c, s))
  {
    hide And3, Or3, Sure, Combine;
    match c
    case Leaf(_) =>
    case Not(d) =>
      SureOfTruth(d, s);
      SureNot(Truth(d, s));
    case Both(conjunction, l, r) =>
      var n := |Leaves(l)|;
      BothLeaves(conjunction, l, r);
      BothTruth(conjunction, l, r, s);
      assert forall i :: 0 <= i < |Leaves(r)| ==> Leaves(r)[i] == Leaves(c)[n + i];
      SureOfTruth(l, s[..n]);
      SureOfTruth(r, s[n..]);
      SureBoth(conjunction, Truth(l, s[..n]), Truth(r, s[n..]));
  }

  lemma SureIs(v: Tri)
    ensures Sure(v) == Selectivity3(if v.True? then 1.0 else 0.0, if v.False? then 1.0 else 0.0,
                                    if v.Unknown? then 1.0 else 0.0)
  {
    if v.True? {
      CertainIs(1.0);
    } else if v.False? {
      CertainIs(0.0);
    }
  }

  lemma CertainIs(x: real)
    requires 0.0 <= x <= 1.0
    ensures Certain(x) == Selectivity3(x, 1.0 - x, 0.0)
  {
  }

  lemma SureNot(a: Tri)
    ensures Not3(Sure(a)) == Sure(TriNot(a))
  {
    hide Sure;
    SureIs(a);
    SureIs(TriNot(a));
  }

  /** A sure side of AND: TRUE leaves the other side, FALSE decides, UNKNOWN leaves only FALSE to chance. */
  lemma AndSure(a: Tri, q: Selectivity3)
    requires Distribution(q)
    ensures And3(Sure(a), q) == match a
      case True => q
      case False => Sure(False)
      case Unknown => Selectivity3(0.0, q.isFalse, 1.0 - q.isFalse)
  {
    hide Sure, And3, Times;
    SureIs(a);
    SureIs(False);
    And3Exact(Sure(a), q);
    Ends(q.isTrue);
    Ends(q.isFalse);
  }

  lemma AndBoth(a: Tri, b: Tri)
    ensures And3(Sure(a), Sure(b)) == Sure(TriAnd(a, b))
  {
    hide Sure, And3;
    SureIs(b);
    SureIs(TriAnd(a, b));
    AndSure(a, Sure(b));
  }

  /** The truth tables of the evaluator. */
  lemma SureBoth(conjunction: bool, a: Tri, b: Tri)
    ensures (if conjunction then And3(Sure(a), Sure(b)) else Or3(Sure(a), Sure(b))) == Sure(Combine(conjunction, a, b))
  {
    hide Sure, And3, Or3, Not3;
    AndBoth(a, b);
    AndBoth(TriNot(a), TriNot(b));
    DeMorgan(Sure(a), Sure(b));
    DeMorgan(Or3(Sure(a), Sure(b)), Sure(a));
    SureNot(a);
    SureNot(b);
    SureNot(TriAnd(TriNot(a), TriNot(b)));
  }

  predicate AllCertain(ps: seq<Selectivity3>) {
    forall p :: p in ps ==> p == Certain(p.isTrue)
  }

  lemma CertainParts(ps: seq<Selectivity3>, qs: seq<Selectivity3>)
    requires AllCertain(ps + qs)
    ensures AllCertain(ps) && AllCertain(qs)
  {
    hide Certain;
    assert forall p :: p in ps || p in qs ==> p in ps + qs;
  }

  /** A condition over leaves that are never UNKNOWN, like IS NULL, is never UNKNOWN. */
  lemma {:induction false} CertainStays(c: Condition)
    requires AllCertain(Leaves(c))
    ensures Estimate(c) == Certain(Estimate(c).isTrue)
  {
    hide And3, Or3, Certain;
    match c
    case Leaf(_) => assert Leaves(c)[0] == Estimate(c);
    case Not(d) =>
      CertainStays(d);
      CertainNot(Estimate(d));
    case Both(conjunction, l, r) =>
      BothLeaves(conjunction, l, r);
      CertainParts(Leaves(l), Leaves(r));
      CertainStays(l);
      CertainStays(r);
      CertainBoth(Estimate(l), Estimate(r));
  }

  lemma CertainNot(p: Selectivity3)
    requires p == Certain(p.isTrue)
    ensures Not3(p) == Certain(Not3(p).isTrue)
  {
  }

  lemma CertainBoth(a: Selectivity3, b: Selectivity3)
    requires a == Certain(a.isTrue) && b == Certain(b.isTrue)
    ensures And3(a, b) == Certain(And3(a, b).isTrue) && Or3(a, b) == Certain(Or3(a, b).isTrue)
  {
    hide And3, Or3;
    And3Exact(a, b);
    Or3Exact(a, b);
    assert Times(1.0 - a.isTrue, 1.0 - b.isTrue) == 1.0 - a.isTrue - b.isTrue + Times(a.isTrue, b.isTrue);
  }
}
