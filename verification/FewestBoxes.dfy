/**
 * When the biggest-first mix is also the one with the fewest boxes: exactly when no box put aside
 * first ever saves one, which a finite number of holds decides; and always when of any two sizes the
 * smaller divides the larger.
 */
module FewestBoxes {
  import opened Options
  import opened CargoPacking

  /** The mix counts n boxes in all. */
  ghost predicate HasBoxes(mix: map<int, nat>, n: nat) {
    exists counted :: Tallies(mix, counted) && |counted| == n
  }

  /** No best fill of the hold has fewer boxes than the returned mix. */
  ghost predicate FewestAt(sizes: seq<int>, hold: nat) {
    forall mix, n: nat, boxes ::
      IsBestMix(sizes, hold, mix) && HasBoxes(mix, n) && IsFill(sizes, boxes) && TotalScu(boxes) == BestScu(sizes, hold)
      ==> n <= |boxes|
  }

  /** The same of the walk that the mix counts. */
  ghost predicate WalkFewestAt(sizes: seq<int>, hold: nat) {
    forall picked, boxes ::
      IsWalk(sizes, hold, picked) && IsFill(sizes, boxes) && TotalScu(boxes) == BestScu(sizes, hold) ==> |picked| <= |boxes|
  }

  /** The returned mix has exactly as many boxes as the walk. */
  lemma MixHasWalksBoxes(sizes: seq<int>, hold: nat, mix: map<int, nat>, picked: seq<int>, n: nat)
    requires IsBestMix(sizes, hold, mix) && IsWalk(sizes, hold, picked)
    ensures HasBoxes(mix, n) <==> n == |picked|
  {
    WalkMeetsContract(sizes, hold, picked);
    assert Hold(hold as real) == hold;
    MixWithin(sizes, hold as real, mix);
    MixWithin(sizes, hold as real, Tally(picked));
    BestMixIsUnique(sizes, hold as real, mix, Tally(picked));
    TallyTallies(picked);
    if HasBoxes(mix, n) {
      var counted :| Tallies(mix, counted) && |counted| == n;
      SameCounts(mix, counted, picked);
    }
  }

  lemma SameCounts(mix: map<int, nat>, a: seq<int>, b: seq<int>)
    requires Tallies(mix, a) && Tallies(mix, b)
    ensures |a| == |b|
  {
    forall size ensures multiset(a)[size] == multiset(b)[size] {
      assert size in a <==> size in multiset(a);
      assert size in b <==> size in multiset(b);
    }
    assert multiset(a) == multiset(b);
    assert |multiset(a)| == |a| && |multiset(b)| == |b|;
  }

  lemma FewestIffWalkFewest(sizes: seq<int>, hold: nat)
    ensures FewestAt(sizes, hold) <==> WalkFewestAt(sizes, hold)
  {
    var walk := WalkExists(sizes, hold);
    WalkMeetsContract(sizes, hold, walk);
    if FewestAt(sizes, hold) {
      forall picked, boxes | IsWalk(sizes, hold, picked) && IsFill(sizes, boxes) && TotalScu(boxes) == BestScu(sizes, hold)
        ensures |picked| <= |boxes|
      {
        MixHasWalksBoxes(sizes, hold, Tally(walk), picked, |picked|);
      }
    }
    if WalkFewestAt(sizes, hold) {
      forall mix, n: nat, boxes | IsBestMix(sizes, hold, mix) && HasBoxes(mix, n)
                             && IsFill(sizes, boxes) && TotalScu(boxes) == BestScu(sizes, hold)
        ensures n <= |boxes|
      {
        MixHasWalksBoxes(sizes, hold, mix, walk, n);
      }
    }
  }

  // ----- Sizes that divide each other -----

  /** Of any two usable sizes the smaller divides the larger. */
  ghost predicate Nested(sizes: seq<int>) {
    forall small, large :: Usable(sizes, small) && Usable(sizes, large) && small <= large ==> large % small == 0
  }

  lemma DivisorFits(need: int, size: int)
    requires need > 0 && size > 0 && need % size == 0
    ensures size <= need
  {
    assert need % size == need || size <= need;
  }

  lemma DivisorOfRest(need: int, box: int, size: int)
    requires size > 0 && need % size == 0 && box % size == 0
    ensures (need - box) % size == 0
  {
    assert need == size * (need / size) && box == size * (box / size);
    MultipleLeavesNone(size, need / size - box / size);
    assert need - box == size * (need / size - box / size);
  }

  lemma MultipleLeavesNone(size: int, times: int)
    requires size > 0
    ensures (size * times) % size == 0
  {
    var q, r := (size * times) / size, (size * times) % size;
    assert size * (times - q) == r;
    assert times - q >= 1 ==> size * (times - q) >= size;
    assert times - q <= -1 ==> size * (times - q) <= -size;
  }

  /** The index of a largest box. */
  lemma {:induction false} LargestBox(boxes: seq<int>) returns (k: nat)
    requires boxes != []
    ensures k < |boxes| && forall j :: 0 <= j < |boxes| ==> boxes[j] <= boxes[k]
  {
    if |boxes| == 1 {
      k := 0;
    } else {
      var rest := LargestBox(boxes[1..]);
      assert forall j :: 1 <= j < |boxes| ==> boxes[j] == boxes[1..][j - 1];
      k := if boxes[0] > boxes[rest + 1] then 0 else rest + 1;
    }
  }

  lemma WithoutOnlyHas(boxes: seq<int>, k: nat)
    requires k < |boxes|
    ensures |Without(boxes, k)| == |boxes| - 1
    ensures forall j :: 0 <= j < |Without(boxes, k)| ==> Without(boxes, k)[j] in boxes
  {
    forall j | 0 <= j < |Without(boxes, k)| ensures Without(boxes, k)[j] in boxes {
      assert Without(boxes, k)[j] == boxes[if j < k then j else j + 1];
    }
  }

  /** Boxes that all divide need, and reach it, have some among them that add up to it exactly: take the largest first. */
  lemma {:induction false} TakeOut(sizes: seq<int>, boxes: seq<int>, need: nat) returns (rest: seq<int>)
    requires Nested(sizes) && IsFill(sizes, boxes) && TotalScu(boxes) >= need
    requires forall k :: 0 <= k < |boxes| ==> need % boxes[k] == 0
    ensures IsFill(sizes, rest) && TotalScu(rest) == TotalScu(boxes) - need
    ensures |rest| <= |boxes| - (if need > 0 then 1 else 0)
    decreases |boxes|
  {
    if need == 0 {
      rest := boxes;
    } else {
      var k := LargestBox(boxes);
      var box, others := boxes[k], Without(boxes, k);
      assert Usable(sizes, box);
      DivisorFits(need, box);
      WithoutIsFill(sizes, boxes, k);
      WithoutTotal(boxes, k);
      WithoutOnlyHas(boxes, k);
      forall j | 0 <= j < |others| ensures (need - box) % others[j] == 0 {
        var i :| 0 <= i < |boxes| && boxes[i] == others[j];
        assert Usable(sizes, boxes[i]);
        DivisorOfRest(need, box, boxes[i]);
      }
      rest := TakeOut(sizes, others, need - box);
    }
  }

  /** With sizes that divide each other the walk takes the fewest boxes, for every hold. */
  lemma {:induction false} NestedTakesFewest(sizes: seq<int>, hold: nat, picked: seq<int>, boxes: seq<int>)
    requires Nested(sizes) && IsWalk(sizes, hold, picked)
    requires IsFill(sizes, boxes) && TotalScu(boxes) == BestScu(sizes, hold)
    ensures |picked| <= |boxes|
    decreases |picked|
  {
    if picked != [] {
      var size := picked[0];
      forall k | 0 <= k < |boxes| ensures size % boxes[k] == 0 {
        BestFillAttains(sizes, hold, boxes, k);
        assert Usable(sizes, boxes[k]);
      }
      assert Attains(sizes, hold, size);
      var rest := TakeOut(sizes, boxes, size);
      NestedTakesFewest(sizes, hold - size, picked[1..], rest);
    }
  }

  lemma NestedIsFewestAt(sizes: seq<int>, hold: nat)
    requires Nested(sizes)
    ensures FewestAt(sizes, hold)
  {
    FewestIffWalkFewest(sizes, hold);
    forall picked, boxes | IsWalk(sizes, hold, picked) && IsFill(sizes, boxes) && TotalScu(boxes) == BestScu(sizes, hold)
      ensures |picked| <= |boxes|
    {
      NestedTakesFewest(sizes, hold, picked, boxes);
    }
  }

  // ----- Any sizes -----

  /** Putting this size aside and walking the rest would save a box. */
  ghost predicate Shortcut(sizes: seq<int>, hold: nat, size: int, picked: seq<int>, rest: seq<int>) {
    && IsWalk(sizes, hold, picked)
    && Attains(sizes, hold, size) && IsWalk(sizes, hold - size, rest)
    && |picked| > 1 + |rest|
  }

  ghost predicate NoShortcut(sizes: seq<int>, bound: nat) {
    forall hold: nat, size, picked, rest :: hold < bound ==> !Shortcut(sizes, hold, size, picked, rest)
  }

  /** The largest usable size, or 0 when there is none. */
  function Largest(sizes: seq<int>): (most: nat)
    ensures most > 0 ==> Usable(sizes, most)
    ensures forall size :: Usable(sizes, size) ==> 0 < size <= most
  {
    if sizes == [] then 0
    else
      var rest := Largest(sizes[1..]);
      assert forall size :: Usable(sizes, size) ==> size == sizes[0] || Usable(sizes[1..], size);
      if sizes[0] > rest then sizes[0] else rest
  }

  /** From this hold on, some best fill with no more boxes than any other has a box of the largest size. */
  function Bound(sizes: seq<int>): nat {
    Largest(sizes) * (Largest(sizes) + 1)
  }

  /** Every hold has a walk. */
  lemma {:induction false} WalkExists(sizes: seq<int>, hold: nat) returns (picked: seq<int>)
    ensures IsWalk(sizes, hold, picked)
  {
    if size :| Attains(sizes, hold, size) {
      var largest := LargestAttaining(sizes, hold, size);
      var rest := WalkExists(sizes, hold - largest);
      TakeBox(sizes, hold, largest, rest);
      picked := [largest] + rest;
    } else {
      NoChoiceNoBoxes(sizes, hold);
      picked := [];
    }
  }

  lemma {:induction false} LargestAttaining(sizes: seq<int>, hold: nat, size: int) returns (largest: int)
    requires Attains(sizes, hold, size)
    ensures IsChoice(sizes, hold, Some(largest))
    decreases hold - size
  {
    if larger :| Attains(sizes, hold, larger) && larger > size {
      largest := LargestAttaining(sizes, hold, larger);
    } else {
      largest := size;
    }
  }

  /** What a best fill leaves empty is less than any usable box. */
  lemma LittleLeft(sizes: seq<int>, hold: nat, size: int)
    requires Usable(sizes, size)
    ensures BestScu(sizes, hold) + size > hold
  {
    BestScuIsGreatest(sizes, hold);
    var boxes :| IsFill(sizes, boxes) && TotalScu(boxes) == BestScu(sizes, hold);
    var more := [size] + boxes;
    assert IsFill(sizes, more) && more[1..] == boxes;
    assert TotalScu(more) == BestScu(sizes, hold) + size;
  }

  lemma {:induction false} SmallBoxes(boxes: seq<int>, most: nat)
    requires forall k :: 0 <= k < |boxes| ==> 0 < boxes[k] < most
    ensures |boxes| <= TotalScu(boxes) <= |boxes| * most - |boxes|
  {
    if boxes != [] {
      SmallBoxes(boxes[1..], most);
      assert |boxes| * most == |boxes[1..]| * most + most;
    }
  }

  lemma {:induction false} Pigeonhole(residues: seq<int>, m: nat) returns (i: nat, j: nat)
    requires |residues| > m && forall k :: 0 <= k < |residues| ==> 0 <= residues[k] < m
    ensures i < j < |residues| && residues[i] == residues[j]
    decreases m
  {
    var last := |residues| - 1;
    if k :| 0 <= k < last && residues[k] == residues[last] {
      i, j := k, last;
    } else {
      // Hole m - 1 takes over the last pigeon's hole, which no earlier pigeon uses.
      var moved := seq(last, k requires 0 <= k < last => if residues[k] == m - 1 then residues[last] else residues[k]);
      i, j := Pigeonhole(moved, m - 1);
    }
  }

  function Copies(size: int, times: nat): (r: seq<int>)
    ensures |r| == times && forall k :: 0 <= k < times ==> r[k] == size
  {
    if times == 0 then [] else [size] + Copies(size, times - 1)
  }

  lemma {:induction false} CopiesTotal(size: int, times: nat)
    ensures TotalScu(Copies(size, times)) == times * size
  {
    if times > 0 {
      CopiesTotal(size, times - 1);
      assert Copies(size, times)[1..] == Copies(size, times - 1);
      assert times * size == (times - 1) * size + size;
    }
  }

  /** Among at least most boxes, some run of neighbours adds up to a multiple of most. */
  lemma SomeRunDivides(boxes: seq<int>, most: nat) returns (i: nat, j: nat)
    requires most > 0 && |boxes| >= most
    ensures i < j <= |boxes| && TotalScu(boxes[i..j]) % most == 0
  {
    var residues := seq(most + 1, k requires 0 <= k <= most => TotalScu(boxes[..k]) % most);
    i, j := Pigeonhole(residues, most);
    var a, b := TotalScu(boxes[..i]), TotalScu(boxes[..j]);
    assert boxes[..j] == boxes[..i] + boxes[i..j];
    TotalOfConcat(boxes[..i], boxes[i..j]);
    assert a % most == residues[i] == residues[j] == b % most;
    SameResidue(a, b, most);
  }

  lemma SameResidue(a: int, b: int, m: int)
    requires m > 0 && a % m == b % m
    ensures (b - a) % m == 0
  {
    assert b - a == m * (b / m - a / m);
    MultipleLeavesNone(m, b / m - a / m);
  }

  /** A large fill can be rebuilt with a box of the largest size, the same total and no more boxes. */
  lemma UseLargest(sizes: seq<int>, most: nat, boxes: seq<int>) returns (others: seq<int>)
    requires most > 0 && most == Largest(sizes) && IsFill(sizes, boxes) && TotalScu(boxes) >= most * most
    ensures IsFill(sizes, others) && TotalScu(others) == TotalScu(boxes)
    ensures |others| <= |boxes| && most in others
  {
    if most in boxes {
      others := boxes;
    } else {
      ManySmallBoxes(sizes, most, boxes);
      var i, j := SomeRunDivides(boxes, most);
      others := Exchange(sizes, most, boxes, i, j);
    }
  }

  lemma ManySmallBoxes(sizes: seq<int>, most: nat, boxes: seq<int>)
    requires most > 0 && most == Largest(sizes) && IsFill(sizes, boxes) && TotalScu(boxes) >= most * most && most !in boxes
    ensures |boxes| >= most && forall k :: 0 <= k < |boxes| ==> 0 < boxes[k] < most
  {
    forall k | 0 <= k < |boxes| ensures 0 < boxes[k] < most {
      assert Usable(sizes, boxes[k]) && boxes[k] in boxes;
    }
    SmallBoxes(boxes, most);
    Enough(|boxes|, most, TotalScu(boxes));
  }

  lemma Enough(count: nat, most: nat, total: int)
    requires most > 0 && most * most <= total <= count * most - count
    ensures count >= most
  {
    MulLe(count, most, most);
    assert count * most - count == count * (most - 1);
  }

  lemma MulLe(a: nat, b: nat, c: nat)
    ensures a <= b ==> a * c <= b * c
    ensures a > 0 && c > 0 ==> a * c > 0
  {
    assert a <= b ==> b * c - a * c == (b - a) * c;
  }

  lemma Exchange(sizes: seq<int>, most: nat, boxes: seq<int>, i: nat, j: nat) returns (others: seq<int>)
    requires Usable(sizes, most) && IsFill(sizes, boxes) && i < j <= |boxes|
    requires forall k :: 0 <= k < |boxes| ==> 0 < boxes[k] < most
    requires TotalScu(boxes[i..j]) % most == 0
    ensures IsFill(sizes, others) && TotalScu(others) == TotalScu(boxes)
    ensures |others| <= |boxes| && most in others
  {
    var segment := boxes[i..j];
    var times := TotalScu(segment) / most;
    SmallBoxes(segment, most);
    assert TotalScu(segment) == most * times;
    FewerCopies(most, times, |segment|, TotalScu(segment));
    var copies := Copies(most, times);
    CopiesTotal(most, times);
    others := boxes[..i] + (copies + boxes[j..]);
    assert boxes == boxes[..i] + (segment + boxes[j..]);
    TotalOfConcat(boxes[..i], segment + boxes[j..]);
    TotalOfConcat(segment, boxes[j..]);
    TotalOfConcat(boxes[..i], copies + boxes[j..]);
    TotalOfConcat(copies, boxes[j..]);
    assert others[i] == most;
    forall k | 0 <= k < |others| ensures Usable(sizes, others[k]) {
      if k < i {
        assert others[k] == boxes[k];
      } else if k < i + times {
        assert others[k] == copies[k - i];
      } else {
        assert others[k] == boxes[k - times + (j - i)];
      }
    }
  }

  lemma FewerCopies(most: nat, times: int, count: nat, total: int)
    requires most > 0 && total == most * times && count > 0 && count <= total <= count * most - count
    ensures 1 <= times <= count
  {
    assert times <= 0 ==> most * times <= 0;
    assert times > count ==> most * times >= most * count;
  }

  lemma NoBoxSaved(sizes: seq<int>, bound: nat, hold: nat, size: int, picked: seq<int>, rest: seq<int>)
    requires NoShortcut(sizes, bound) && hold < bound
    requires IsWalk(sizes, hold, picked) && Attains(sizes, hold, size) && IsWalk(sizes, hold - size, rest)
    ensures |picked| <= 1 + |rest|
  {
    assert !Shortcut(sizes, hold, size, picked, rest);
  }

  /** A smaller hold with its walk and a best fill, one box less on both sides and neither gaining on the other. */
  ghost predicate OneLess(
    sizes: seq<int>, hold: nat, picked: seq<int>, boxes: seq<int>, size: int, walk: seq<int>, fill: seq<int>
  ) {
    && 0 < size <= hold && IsWalk(sizes, hold - size, walk) && |picked| <= 1 + |walk|
    && IsFill(sizes, fill) && TotalScu(fill) == BestScu(sizes, hold - size) && |fill| < |boxes|
  }

  /** Below the bound any box of the fill can be taken out. */
  lemma OneLessBelow(sizes: seq<int>, hold: nat, picked: seq<int>, boxes: seq<int>)
    returns (size: int, walk: seq<int>, fill: seq<int>)
    requires NoShortcut(sizes, Bound(sizes)) && hold < Bound(sizes) && IsWalk(sizes, hold, picked)
    requires boxes != [] && IsFill(sizes, boxes) && TotalScu(boxes) == BestScu(sizes, hold)
    ensures OneLess(sizes, hold, picked, boxes, size, walk, fill)
  {
    size, fill := boxes[0], Without(boxes, 0);
    BestFillAttains(sizes, hold, boxes, 0);
    walk := WalkExists(sizes, hold - size);
    NoBoxSaved(sizes, Bound(sizes), hold, size, picked, walk);
  }

  /** From the bound on the walk takes a box of the largest size, and the fill can be rebuilt with one. */
  lemma OneLessAbove(sizes: seq<int>, hold: nat, picked: seq<int>, boxes: seq<int>)
    returns (size: int, walk: seq<int>, fill: seq<int>)
    requires hold >= Bound(sizes) && IsWalk(sizes, hold, picked)
    requires boxes != [] && IsFill(sizes, boxes) && TotalScu(boxes) == BestScu(sizes, hold)
    ensures OneLess(sizes, hold, picked, boxes, size, walk, fill)
  {
    size := Largest(sizes);
    fill := LargeFill(sizes, hold, boxes);
    WalkTakesMost(sizes, hold, picked, size);
    walk := picked[1..];
  }

  /** Without a shortcut below the bound, no fill of any hold beats the walk. */
  lemma {:induction false} NoShortcutTakesFewest(sizes: seq<int>, hold: nat, picked: seq<int>, boxes: seq<int>)
    requires NoShortcut(sizes, Bound(sizes))
    requires IsWalk(sizes, hold, picked) && IsFill(sizes, boxes) && TotalScu(boxes) == BestScu(sizes, hold)
    ensures |picked| <= |boxes|
    decreases hold
  {
    if boxes == [] {
      WalkIsBestFill(sizes, hold, picked);
      FillIsPositive(sizes, picked);
    } else {
      var size, walk, fill;
      if hold < Bound(sizes) {
        size, walk, fill := OneLessBelow(sizes, hold, picked, boxes);
      } else {
        size, walk, fill := OneLessAbove(sizes, hold, picked, boxes);
      }
      NoShortcutTakesFewest(sizes, hold - size, walk, fill);
    }
  }

  /** A best fill of a large hold, less one box of the largest size. */
  lemma LargeFill(sizes: seq<int>, hold: nat, boxes: seq<int>) returns (rest: seq<int>)
    requires boxes != [] && IsFill(sizes, boxes) && TotalScu(boxes) == BestScu(sizes, hold)
    requires hold >= Bound(sizes)
    ensures Attains(sizes, hold, Largest(sizes)) && Largest(sizes) > 0
    ensures IsFill(sizes, rest) && TotalScu(rest) == BestScu(sizes, hold - Largest(sizes)) && |rest| < |boxes|
  {
    var most := Largest(sizes);
    assert Usable(sizes, boxes[0]);
    LittleLeft(sizes, hold, most);
    assert most * (most + 1) == most * most + most;
    var others := UseLargest(sizes, most, boxes);
    var k :| 0 <= k < |others| && others[k] == most;
    BestFillAttains(sizes, hold, others, k);
    rest := Without(others, k);
  }

  lemma WalkTakesMost(sizes: seq<int>, hold: nat, picked: seq<int>, most: nat)
    requires IsWalk(sizes, hold, picked) && Attains(sizes, hold, most) && most == Largest(sizes)
    ensures picked != [] && picked[0] == most
  {
    assert BestScu(sizes, hold) >= most > 0;
  }

  /**
   * The walk takes the fewest boxes at every hold if and only if, at the finitely many holds below
   * the bound, putting one box aside and walking the rest never saves a box. Both sides of that
   * check are what the packing itself returns.
   */
  lemma TakesFewestIffNoShortcut(sizes: seq<int>)
    ensures (forall hold: nat :: FewestAt(sizes, hold)) <==> NoShortcut(sizes, Bound(sizes))
  {
    if NoShortcut(sizes, Bound(sizes)) {
      forall hold: nat ensures FewestAt(sizes, hold) {
        NoShortcutFewestAt(sizes, hold);
      }
    } else {
      var hold: nat, size, picked, rest :| hold < Bound(sizes) && Shortcut(sizes, hold, size, picked, rest);
      ShortcutBeatsWalk(sizes, hold, size, picked, rest);
    }
  }

  lemma NoShortcutFewestAt(sizes: seq<int>, hold: nat)
    requires NoShortcut(sizes, Bound(sizes))
    ensures FewestAt(sizes, hold)
  {
    FewestIffWalkFewest(sizes, hold);
    forall picked, boxes | IsWalk(sizes, hold, picked) && IsFill(sizes, boxes) && TotalScu(boxes) == BestScu(sizes, hold)
      ensures |picked| <= |boxes|
    {
      NoShortcutTakesFewest(sizes, hold, picked, boxes);
    }
  }

  lemma ShortcutBeatsWalk(sizes: seq<int>, hold: nat, size: int, picked: seq<int>, rest: seq<int>)
    requires Shortcut(sizes, hold, size, picked, rest)
    ensures !FewestAt(sizes, hold)
  {
    var boxes := [size] + rest;
    WalkIsBestFill(sizes, hold - size, rest);
    assert boxes[1..] == rest && IsFill(sizes, boxes);
    assert TotalScu(boxes) == BestScu(sizes, hold);
    BetterFill(sizes, hold, picked, boxes);
  }

  lemma BetterFill(sizes: seq<int>, hold: nat, picked: seq<int>, boxes: seq<int>)
    requires IsWalk(sizes, hold, picked) && IsFill(sizes, boxes) && TotalScu(boxes) == BestScu(sizes, hold)
    requires |boxes| < |picked|
    ensures !FewestAt(sizes, hold)
  {
    FewestIffWalkFewest(sizes, hold);
  }

  // ----- Two lists of sizes -----

  /** Sizes a pair of terminals can have in common. */
  const COMMON := [8, 24, 32]

  lemma {:induction false} EightsReach(times: nat)
    ensures BestScu(COMMON, 8 * times) == 8 * times
  {
    if times > 0 {
      EightsReach(times - 1);
      assert Usable(COMMON, 8);
      OneMoreBox(COMMON, 8 * times, 8);
      BestScuIsGreatest(COMMON, 8 * times);
    } else {
      BestScuIsGreatest(COMMON, 0);
    }
  }

  lemma TakesLargest(times: nat, taken: nat)
    requires 8 * taken in COMMON && taken <= times
    requires forall larger :: larger in COMMON && larger > 8 * taken ==> larger > 8 * times
    ensures IsChoice(COMMON, 8 * times, Some(8 * taken))
  {
    EightsReach(times);
    EightsReach(times - taken);
  }

  /** For a hold of 48 the walk takes 32, 8 and 8, where two boxes of 24 would do. */
  lemma WalkCanTakeMoreBoxes()
    ensures !FewestAt(COMMON, 48)
  {
    WalkOf48();
    FillOf48();
    BetterFill(COMMON, 48, [32] + ([8] + ([8] + [])), [24, 24]);
  }

  lemma FillOf48()
    ensures IsFill(COMMON, [24, 24]) && TotalScu([24, 24]) == BestScu(COMMON, 48)
  {
    EightsReach(6);
    TwoBoxes(24);
  }

  lemma WalkOf48()
    ensures IsWalk(COMMON, 48, [32] + ([8] + ([8] + [])))
  {
    EightsReach(0);
    TakesLargest(6, 4);
    TakesLargest(2, 1);
    TakesLargest(1, 1);
    TakeBox(COMMON, 8, 8, []);
    TakeBox(COMMON, 16, 8, [8] + []);
    TakeBox(COMMON, 48, 32, [8] + ([8] + []));
  }

  lemma TwoBoxes(size: int)
    ensures TotalScu([size, size]) == 2 * size
  {
    assert [size, size][1..] == [size];
    assert TotalScu([size]) == size + TotalScu([size][1..]);
  }

  const THREES := [1, 2, 3]

  lemma {:induction false} WalkInThrees(hold: nat, picked: seq<int>)
    requires IsWalk(THREES, hold, picked)
    ensures 3 * |picked| <= hold + 2
    decreases |picked|
  {
    if picked != [] {
      WalkInThrees(hold - picked[0], picked[1..]);
      TakesThreeOrAll(hold, picked[0]);
    }
  }

  lemma TakesThreeOrAll(hold: nat, size: int)
    requires IsChoice(THREES, hold, Some(size))
    ensures size == if hold < 3 then hold else 3
  {
    var best := if hold < 3 then hold else 3;
    assert Attains(THREES, hold, size);
    OnesReach(hold);
    OnesReach(hold - best);
    assert hold > 0;
    assert best in THREES;
    assert Attains(THREES, hold, best);
  }

  lemma {:induction false} OnesReach(hold: nat)
    ensures BestScu(THREES, hold) == hold
  {
    if hold > 0 {
      OnesReach(hold - 1);
      assert Usable(THREES, 1);
      OneMoreBox(THREES, hold, 1);
      BestScuIsGreatest(THREES, hold);
    }
  }

  lemma {:induction false} FillsInThrees(boxes: seq<int>)
    requires IsFill(THREES, boxes)
    ensures 3 * |boxes| >= TotalScu(boxes)
  {
    if boxes != [] {
      assert Usable(THREES, boxes[0]);
      FillsInThrees(boxes[1..]);
    }
  }

  /** Dividing each other is not necessary: 2 does not divide 3, and yet 1, 2 and 3 never take a box too many. */
  lemma NestingIsNotNecessary()
    ensures !Nested(THREES) && forall hold: nat :: FewestAt(THREES, hold)
  {
    assert Usable(THREES, 2) && Usable(THREES, 3);
    forall hold: nat ensures FewestAt(THREES, hold) {
      FewestIffWalkFewest(THREES, hold);
      forall picked, boxes | IsWalk(THREES, hold, picked) && IsFill(THREES, boxes) && TotalScu(boxes) == BestScu(THREES, hold)
        ensures |picked| <= |boxes|
      {
        OnesReach(hold);
        WalkInThrees(hold, picked);
        FillsInThrees(boxes);
      }
    }
  }
}
