/**
 * Container packing for a cargo hold: the unbounded-knapsack table, the fill rebuilt from it,
 * and the optimality of both. A fill is any sequence of boxes; its order does not matter.
 */
module CargoPacking {
  import opened Options
  import opened Sorting

  // ----- Specification -----

  /** Python's int(): truncation toward zero. */
  function Truncate(x: real): (n: int)
    ensures if x >= 0.0 then n as real <= x < n as real + 1.0 else n as real - 1.0 < x <= n as real
  {
    if x >= 0.0 then x.Floor else -((-x).Floor)
  }

  /** The whole SCU a capacity leaves room for. */
  function Hold(capacity: real): nat {
    if Truncate(capacity) > 0 then Truncate(capacity) else 0
  }

  /** Only the positive sizes of the list are packed. */
  predicate Usable(sizes: seq<int>, size: int) {
    size in sizes && size > 0
  }

  ghost predicate IsFill(sizes: seq<int>, boxes: seq<int>) {
    forall k :: 0 <= k < |boxes| ==> Usable(sizes, boxes[k])
  }

  function TotalScu(boxes: seq<int>): int {
    if boxes == [] then 0 else boxes[0] + TotalScu(boxes[1..])
  }

  /** best is the greatest total, not above hold, of any fill from sizes. */
  ghost predicate IsGreatestFill(sizes: seq<int>, hold: nat, best: int) {
    && best <= hold
    && (exists boxes :: IsFill(sizes, boxes) && TotalScu(boxes) == best)
    && forall boxes :: IsFill(sizes, boxes) && TotalScu(boxes) <= hold ==> TotalScu(boxes) <= best
  }

  /** The same against the capacity itself, which may be a fraction or negative: nothing is packed, or no more than it. */
  ghost predicate IsGreatestWithin(sizes: seq<int>, capacity: real, best: int) {
    && (best == 0 || best as real <= capacity)
    && (exists boxes :: IsFill(sizes, boxes) && TotalScu(boxes) == best)
    && forall boxes :: IsFill(sizes, boxes) && TotalScu(boxes) as real <= capacity ==> TotalScu(boxes) <= best
  }

  /** The mix says how often each size occurs among boxes, and lists no other size. */
  ghost predicate Tallies(mix: map<int, nat>, boxes: seq<int>) {
    && (forall size :: size in mix <==> size in boxes)
    && forall size :: size in mix ==> mix[size] == multiset(boxes)[size]
  }

  /**
   * a comes before b when fills are compared biggest box first: either the same boxes, or at
   * the largest size where they differ a has more.
   */
  ghost predicate BiggestFirst(a: seq<int>, b: seq<int>) {
    multiset(a) == multiset(b) || exists size :: MoreOf(size, a, b)
  }

  /**
   * picked reaches the greatest total from the usable sizes alone, never picks a bigger box after
   * a smaller one, and of all fills reaching that total comes first biggest box first.
   */
  ghost predicate BiggestBestFill(sizes: seq<int>, hold: nat, picked: seq<int>) {
    && IsFill(sizes, picked)
    && IsGreatestFill(sizes, hold, TotalScu(picked))
    && NeverIncreases(picked)
    && forall boxes :: IsFill(sizes, boxes) && TotalScu(boxes) == TotalScu(picked) ==> BiggestFirst(picked, boxes)
  }

  /** Such a fill of the greatest total within the capacity. */
  ghost predicate BiggestBestWithin(sizes: seq<int>, capacity: real, picked: seq<int>) {
    && IsFill(sizes, picked)
    && IsGreatestWithin(sizes, capacity, TotalScu(picked))
    && NeverIncreases(picked)
    && forall boxes :: IsFill(sizes, boxes) && TotalScu(boxes) == TotalScu(picked) ==> BiggestFirst(picked, boxes)
  }

  ghost predicate IsBestMixWithin(sizes: seq<int>, capacity: real, mix: map<int, nat>) {
    exists picked :: Tallies(mix, picked) && BiggestBestWithin(sizes, capacity, picked)
  }

  /** The mix counts such a fill. */
  ghost predicate IsBestMix(sizes: seq<int>, hold: nat, mix: map<int, nat>) {
    exists picked :: Tallies(mix, picked) && BiggestBestFill(sizes, hold, picked)
  }

  ghost predicate NeverIncreases(picked: seq<int>) {
    forall i, j :: 0 <= i < j < |picked| ==> picked[i] >= picked[j]
  }

  ghost predicate MoreOf(size: int, a: seq<int>, b: seq<int>) {
    && multiset(a)[size] > multiset(b)[size]
    && forall bigger :: bigger > size ==> multiset(a)[bigger] == multiset(b)[bigger]
  }

  // ----- The greatest total, as a value -----

  ghost predicate Packable(sizes: seq<int>, total: int) {
    exists boxes :: IsFill(sizes, boxes) && TotalScu(boxes) == total
  }

  /** The largest packable total that is not above hold. */
  ghost function BestScu(sizes: seq<int>, hold: nat): nat {
    if hold == 0 || Packable(sizes, hold) then hold else BestScu(sizes, hold - 1)
  }

  lemma {:induction false} BestScuIsGreatest(sizes: seq<int>, hold: nat)
    ensures IsGreatestFill(sizes, hold, BestScu(sizes, hold))
  {
    if hold == 0 {
      assert IsFill(sizes, []) && TotalScu([]) == 0;
    } else if !Packable(sizes, hold) {
      BestScuIsGreatest(sizes, hold - 1);
    }
  }

  lemma GreatestIsUnique(sizes: seq<int>, hold: nat, best: int)
    requires IsGreatestFill(sizes, hold, best)
    ensures best == BestScu(sizes, hold)
  {
    BestScuIsGreatest(sizes, hold);
  }

  // ----- Facts about fills -----

  lemma {:induction false} TotalOfConcat(a: seq<int>, b: seq<int>)
    ensures TotalScu(a + b) == TotalScu(a) + TotalScu(b)
  {
    if a == [] {
      assert a + b == b;
    } else {
      assert (a + b)[1..] == a[1..] + b;
      TotalOfConcat(a[1..], b);
    }
  }

  lemma {:induction false} FillIsPositive(sizes: seq<int>, boxes: seq<int>)
    requires IsFill(sizes, boxes)
    ensures TotalScu(boxes) >= 0
    ensures boxes != [] ==> TotalScu(boxes) > 0
  {
    if boxes != [] {
      FillIsPositive(sizes, boxes[1..]);
    }
  }

  /** Taking one box out of a fill. */
  function Without(boxes: seq<int>, k: nat): seq<int>
    requires k < |boxes|
  {
    boxes[..k] + boxes[k + 1..]
  }

  lemma WithoutIsFill(sizes: seq<int>, boxes: seq<int>, k: nat)
    requires k < |boxes| && IsFill(sizes, boxes)
    ensures IsFill(sizes, Without(boxes, k))
  {
    forall j | 0 <= j < |Without(boxes, k)| ensures Usable(sizes, Without(boxes, k)[j]) {
      assert Without(boxes, k)[j] == if j < k then boxes[j] else boxes[j + 1];
    }
  }

  lemma WithoutTotal(boxes: seq<int>, k: nat)
    requires k < |boxes|
    ensures TotalScu(Without(boxes, k)) == TotalScu(boxes) - boxes[k]
    ensures multiset(boxes) == multiset(Without(boxes, k)) + multiset{boxes[k]}
  {
    CutAround(boxes, k);
    var after := [boxes[k]] + boxes[k + 1..];
    TotalOfConcat(boxes[..k], after);
    TotalOfConcat(boxes[..k], boxes[k + 1..]);
    assert after[1..] == boxes[k + 1..];
  }

  lemma CutAround(boxes: seq<int>, k: nat)
    requires k < |boxes|
    ensures boxes == boxes[..k] + ([boxes[k]] + boxes[k + 1..])
    ensures multiset(boxes) == multiset(Without(boxes, k)) + multiset{boxes[k]}
  {
    assert boxes == boxes[..k] + ([boxes[k]] + boxes[k + 1..]);
  }

  // ----- The table's recurrence -----

  /** Adding a box to the best fill of what it leaves is one candidate for the best fill. */
  lemma OneMoreBox(sizes: seq<int>, hold: nat, size: int)
    requires Usable(sizes, size) && size <= hold
    ensures Packable(sizes, BestScu(sizes, hold - size) + size)
    ensures BestScu(sizes, hold - size) + size <= BestScu(sizes, hold)
  {
    BestScuIsGreatest(sizes, hold - size);
    BestScuIsGreatest(sizes, hold);
    var boxes :| IsFill(sizes, boxes) && TotalScu(boxes) == BestScu(sizes, hold - size);
    assert IsFill(sizes, [size] + boxes) && TotalScu([size] + boxes) == TotalScu(boxes) + size;
  }

  lemma SmallerHold(sizes: seq<int>, hold: nat)
    requires hold > 0
    ensures BestScu(sizes, hold - 1) <= BestScu(sizes, hold)
  {
    BestScuIsGreatest(sizes, hold - 1);
    BestScuIsGreatest(sizes, hold);
  }

  /** And one of those candidates is the best fill, unless nothing fits. */
  lemma CandidatesSuffice(sizes: seq<int>, hold: nat, best: int)
    requires hold > 0
    requires best >= BestScu(sizes, hold - 1)
    requires best <= BestScu(sizes, hold)
    requires forall size :: Usable(sizes, size) ==> Offers(best, sizes, hold, size)
    ensures best == BestScu(sizes, hold)
  {
    BestScuIsGreatest(sizes, hold);
    var boxes :| IsFill(sizes, boxes) && TotalScu(boxes) == BestScu(sizes, hold);
    if boxes != [] {
      FillIsPositive(sizes, boxes[1..]);
      BestScuIsGreatest(sizes, hold - boxes[0]);
      assert TotalScu(boxes[1..]) <= BestScu(sizes, hold - boxes[0]);
    }
  }

  lemma NothingToPack(sizes: seq<int>, hold: nat)
    requires (forall size :: !Usable(sizes, size)) || hold == 0
    ensures BestScu(sizes, hold) == 0
  {
    BestScuIsGreatest(sizes, hold);
    var boxes :| IsFill(sizes, boxes) && TotalScu(boxes) == BestScu(sizes, hold);
    assert boxes == [] || Usable(sizes, boxes[0]) || hold == 0;
  }

  // ----- The table -----

  /** The finished part of the table. */
  ghost predicate IsTable(table: seq<int>, sizes: seq<int>) {
    forall t :: 0 <= t < |table| ==> table[t] == BestScu(sizes, t)
  }

  /** b is at least what each of the tried sizes offers as the last box. */
  ghost predicate Covers(b: int, sizes: seq<int>, total: nat, tried: seq<int>) {
    forall size :: size in tried ==> Offers(b, sizes, total, size)
  }

  ghost predicate Offers(b: int, sizes: seq<int>, total: nat, size: int) {
    0 < size <= total ==> b >= BestScu(sizes, total - size) + size
  }

  lemma CoversOneMore(before: int, b: int, sizes: seq<int>, total: nat, order: seq<int>, i: nat)
    requires i < |order| && before <= b
    requires Covers(before, sizes, total, order[..i]) && Offers(b, sizes, total, order[i])
    ensures Covers(b, sizes, total, order[..i + 1])
  {
    forall size | size in order[..i + 1] ensures Offers(b, sizes, total, size) {
      assert order[..i + 1] == order[..i] + [order[i]];
      assert size == order[i] || (size in order[..i] && Offers(before, sizes, total, size));
    }
  }

  /** b lies between the best fills of total - 1 and of total, and covers the tried sizes. */
  ghost predicate Approaches(b: int, sizes: seq<int>, total: nat, tried: seq<int>)
    requires total > 0
  {
    BestScu(sizes, total - 1) <= b <= BestScu(sizes, total) && Covers(b, sizes, total, tried)
  }

  lemma NothingTried(sizes: seq<int>, total: nat, order: seq<int>)
    requires total > 0
    ensures Approaches(BestScu(sizes, total - 1), sizes, total, order[..0])
  {
    SmallerHold(sizes, total);
  }

  lemma AllTried(b: int, sizes: seq<int>, total: nat, order: seq<int>)
    requires total > 0 && Approaches(b, sizes, total, order[..|order|])
    requires forall size :: size in order <==> Usable(sizes, size)
    ensures b == BestScu(sizes, total)
  {
    assert order[..|order|] == order;
    CandidatesSuffice(sizes, total, b);
  }

  lemma TrySize(before: int, table: seq<int>, sizes: seq<int>, order: seq<int>, i: nat)
    requires i < |order| && Usable(sizes, order[i]) && table != [] && IsTable(table, sizes)
    requires Approaches(before, sizes, |table|, order[..i])
    ensures var size := order[i];
            Approaches(if size <= |table| then Max(before, table[|table| - size] + size) else before, sizes, |table|, order[..i + 1])
  {
    var size, total := order[i], |table|;
    if size <= total {
      OneMoreBox(sizes, total, size);
    }
    CoversOneMore(before, if size <= total then Max(before, table[total - size] + size) else before, sizes, total, order, i);
  }

  /** One entry of the table: the previous total, or any size on top of the best fill of what it leaves. */
  method FillEntry(best: array<int>, total: nat, sizes: seq<int>, ghost table: seq<int>, ghost containerSizes: seq<int>)
    requires 0 < total < best.Length && best[..total] == table && IsTable(table, containerSizes)
    requires forall size :: size in sizes <==> Usable(containerSizes, size)
    modifies best
    ensures best[..total] == table && best[total] == BestScu(containerSizes, total)
  {
    assert best[total - 1] == table[total - 1];
    best[total] := best[total - 1];
    NothingTried(containerSizes, total, sizes);
    for i := 0 to |sizes|
      invariant best[..total] == table
      invariant Approaches(best[total], containerSizes, total, sizes[..i])
    {
      var size := sizes[i];
      TrySize(best[total], table, containerSizes, sizes, i);
      if size <= total {
        assert best[total - size] == table[total - size];
        best[total] := Max(best[total], best[total - size] + size);
      }
    }
    AllTried(best[total], containerSizes, total, sizes);
  }

  method MaxPackableScu(capacity: real, containerSizes: seq<int>) returns (scu: nat)
    ensures IsGreatestWithin(containerSizes, capacity, scu)
  {
    var whole := Truncate(capacity);
    var sizes := UsableSizes(containerSizes);
    if sizes == [] || whole <= 0 {
      NothingToPack(containerSizes, Hold(capacity));
      BestScuIsGreatest(containerSizes, Hold(capacity));
      HoldIsCapacity(containerSizes, capacity, 0);
      return 0;
    }

    var best := new int[whole + 1](_ => 0);
    ghost var table := [0];
    for total := 1 to whole + 1
      invariant |table| == total && best[..total] == table && IsTable(table, containerSizes)
    {
      FillEntry(best, total, sizes, table, containerSizes);
      table := table + [best[total]];
    }
    scu := best[whole];
    BestScuIsGreatest(containerSizes, whole);
    HoldIsCapacity(containerSizes, capacity, scu);
  }

  /** Whole boxes waste no more than the fraction: the truncated hold packs what the capacity would. */
  lemma HoldIsCapacity(sizes: seq<int>, capacity: real, scu: int)
    requires IsGreatestFill(sizes, Hold(capacity), scu)
    ensures IsGreatestWithin(sizes, capacity, scu)
  {
    var boxes :| IsFill(sizes, boxes) && TotalScu(boxes) == scu;
    FillIsPositive(sizes, boxes);
    forall others | IsFill(sizes, others) && TotalScu(others) as real <= capacity ensures TotalScu(others) <= scu {
      FillIsPositive(sizes, others);
      assert TotalScu(others) <= Hold(capacity);
    }
  }

  function Max(a: int, b: int): int {
    if a >= b then a else b
  }

  function Positives(sizes: seq<int>): (r: seq<int>)
    ensures forall size :: size in r <==> Usable(sizes, size)
  {
    if sizes == [] then
      []
    else
      assert sizes == [sizes[0]] + sizes[1..];
      (if sizes[0] > 0 then [sizes[0]] else []) + Positives(sizes[1..])
  }

  /** The usable sizes, smallest first, each once. */
  function UsableSizes(sizes: seq<int>): (r: seq<int>)
    ensures IsStrictlySorted(r)
    ensures forall size :: size in r <==> Usable(sizes, size)
    ensures forall size :: Usable(sizes, size) ==> r != []
  {
    SortedSet(Positives(sizes))
  }

  // ----- The walk back through the table -----

  /** Some best fill of hold has a box of this size. */
  ghost predicate Attains(sizes: seq<int>, hold: nat, size: int) {
    Usable(sizes, size) && size <= hold && BestScu(sizes, hold) == BestScu(sizes, hold - size) + size
  }

  /** The largest size that attains the best fill of hold, or None when no size does. */
  ghost predicate IsChoice(sizes: seq<int>, hold: nat, choice: Option<int>) {
    match choice
    case None => forall size :: !Attains(sizes, hold, size)
    case Some(largest) => Attains(sizes, hold, largest) && forall size :: Attains(sizes, hold, size) ==> size <= largest
  }

  /** picked is what the walk takes out of hold, in order. */
  ghost predicate IsWalk(sizes: seq<int>, hold: nat, picked: seq<int>) {
    if picked == [] then
      BestScu(sizes, hold) == 0
    else
      IsChoice(sizes, hold, Some(picked[0])) && IsWalk(sizes, hold - picked[0], picked[1..])
  }

  /** Every box of a best fill attains it. */
  lemma BestFillAttains(sizes: seq<int>, hold: nat, boxes: seq<int>, k: nat)
    requires IsFill(sizes, boxes) && TotalScu(boxes) == BestScu(sizes, hold) && k < |boxes|
    ensures Attains(sizes, hold, boxes[k])
    ensures IsFill(sizes, Without(boxes, k))
    ensures TotalScu(Without(boxes, k)) == BestScu(sizes, hold - boxes[k])
  {
    var size, rest := boxes[k], Without(boxes, k);
    FillUnderBest(sizes, hold, boxes);
    WithoutIsFill(sizes, boxes, k);
    WithoutTotal(boxes, k);
    FillIsPositive(sizes, rest);
    assert Usable(sizes, size);
    OneMoreBox(sizes, hold, size);
    FillUnderBest(sizes, hold - size, rest);
  }

  lemma FillUnderBest(sizes: seq<int>, hold: nat, boxes: seq<int>)
    requires IsFill(sizes, boxes)
    ensures TotalScu(boxes) <= hold ==> TotalScu(boxes) <= BestScu(sizes, hold)
    ensures BestScu(sizes, hold) <= hold
  {
    BestScuIsGreatest(sizes, hold);
  }

  /** With no attaining size there is nothing left to pack. */
  lemma NoChoiceNoBoxes(sizes: seq<int>, hold: nat)
    requires IsChoice(sizes, hold, None)
    ensures BestScu(sizes, hold) == 0
  {
    BestScuIsGreatest(sizes, hold);
    var boxes :| IsFill(sizes, boxes) && TotalScu(boxes) == BestScu(sizes, hold);
    if boxes != [] {
      BestFillAttains(sizes, hold, boxes, 0);
    }
  }

  lemma {:induction false} WalkIsBestFill(sizes: seq<int>, hold: nat, picked: seq<int>)
    requires IsWalk(sizes, hold, picked)
    ensures IsFill(sizes, picked) && TotalScu(picked) == BestScu(sizes, hold)
  {
    if picked != [] {
      WalkIsBestFill(sizes, hold - picked[0], picked[1..]);
      assert forall k :: 1 <= k < |picked| ==> picked[k] == picked[1..][k - 1];
    }
  }

  lemma WalkStartsLargest(sizes: seq<int>, hold: nat, picked: seq<int>)
    requires IsWalk(sizes, hold, picked) && picked != []
    ensures forall k :: 0 <= k < |picked| ==> picked[k] <= picked[0]
  {
    WalkIsBestFill(sizes, hold, picked);
    forall k | 0 <= k < |picked| ensures picked[k] <= picked[0] {
      BestFillAttains(sizes, hold, picked, k);
    }
  }

  lemma {:induction false} WalkNeverIncreases(sizes: seq<int>, hold: nat, picked: seq<int>)
    requires IsWalk(sizes, hold, picked)
    ensures NeverIncreases(picked)
  {
    if picked != [] {
      WalkStartsLargest(sizes, hold, picked);
      WalkNeverIncreases(sizes, hold - picked[0], picked[1..]);
      assert forall k :: 1 <= k < |picked| ==> picked[k] == picked[1..][k - 1];
    }
  }

  /** Among all best fills of hold, the walk's comes first when compared biggest box first. */
  lemma {:induction false} WalkIsBiggestFirst(sizes: seq<int>, hold: nat, picked: seq<int>, boxes: seq<int>)
    requires IsWalk(sizes, hold, picked)
    requires IsFill(sizes, boxes) && TotalScu(boxes) == BestScu(sizes, hold)
    ensures BiggestFirst(picked, boxes)
  {
    if picked == [] {
      FillIsPositive(sizes, boxes);
    } else {
      var size := picked[0];
      forall k | 0 <= k < |boxes| ensures boxes[k] <= size {
        BestFillAttains(sizes, hold, boxes, k);
      }
      WalkStartsLargest(sizes, hold, picked);
      if size in boxes {
        var k :| 0 <= k < |boxes| && boxes[k] == size;
        BestFillAttains(sizes, hold, boxes, k);
        WithoutTotal(boxes, k);
        WalkIsBiggestFirst(sizes, hold - size, picked[1..], Without(boxes, k));
        SameBoxOnBoth(size, picked, boxes, picked[1..], Without(boxes, k));
      } else {
        MoreAtTop(size, picked, boxes);
      }
    }
  }

  lemma SameBoxOnBoth(size: int, a: seq<int>, b: seq<int>, a': seq<int>, b': seq<int>)
    requires a != [] && a[0] == size && a' == a[1..]
    requires multiset(b) == multiset(b') + multiset{size}
    requires BiggestFirst(a', b')
    ensures BiggestFirst(a, b)
  {
    assert a == [size] + a';
    assert multiset(a) == multiset(a') + multiset{size};
    if multiset(a') != multiset(b') {
      var more :| MoreOf(more, a', b');
      assert MoreOf(more, a, b);
    }
  }

  lemma MoreAtTop(size: int, a: seq<int>, b: seq<int>)
    requires size in a && size !in b
    requires forall k :: 0 <= k < |a| ==> a[k] <= size
    requires forall k :: 0 <= k < |b| ==> b[k] <= size
    ensures BiggestFirst(a, b)
  {
    assert size in multiset(a) && size !in multiset(b);
    forall bigger | bigger > size ensures multiset(a)[bigger] == multiset(b)[bigger] {
      assert bigger !in a && bigger !in b;
      assert bigger !in multiset(a) && bigger !in multiset(b);
    }
    assert MoreOf(size, a, b);
  }

  // ----- The table with its choices -----

  /** b is the greatest offer so far, and choice the last tried size that made it. */
  ghost predicate Tried(b: int, choice: Option<int>, sizes: seq<int>, total: nat, tried: seq<int>) {
    && Covers(b, sizes, total, tried)
    && (forall size :: size in tried && Beats(size, choice) ==> !MakesOffer(b, sizes, total, size))
    && (choice.Some? ==> choice.value in tried && MakesOffer(b, sizes, total, choice.value))
  }

  ghost predicate Beats(size: int, choice: Option<int>) {
    choice.Some? ==> size > choice.value
  }

  ghost predicate MakesOffer(b: int, sizes: seq<int>, total: nat, size: int) {
    0 < size <= total && b == BestScu(sizes, total - size) + size
  }

  lemma TriedOneMore(
    b: int, choice: Option<int>, b': int, choice': Option<int>,
    sizes: seq<int>, total: nat, order: seq<int>, i: nat
  )
    requires i < |order| && IsStrictlySorted(order) && order[i] > 0
    requires Tried(b, choice, sizes, total, order[..i])
    requires if order[i] <= total && BestScu(sizes, total - order[i]) + order[i] >= b
             then b' == BestScu(sizes, total - order[i]) + order[i] && choice' == Some(order[i])
             else b' == b && choice' == choice
    ensures Tried(b', choice', sizes, total, order[..i + 1])
  {
    CoversOneMore(b, b', sizes, total, order, i);
    assert order[..i + 1] == order[..i] + [order[i]];
    forall size | size in order[..i + 1] && Beats(size, choice')
      ensures !MakesOffer(b', sizes, total, size)
    {
      if size in order[..i] {
        var k :| 0 <= k < i && order[k] == size;
        assert Beats(size, choice);
        assert order[k] < order[i];
      }
    }
  }

  lemma TriedAll(b: int, choice: Option<int>, sizes: seq<int>, total: nat, order: seq<int>)
    requires Tried(b, choice, sizes, total, order) && b == BestScu(sizes, total)
    requires forall size :: size in order <==> Usable(sizes, size)
    ensures IsChoice(sizes, total, choice)
  {
    forall size | Attains(sizes, total, size) ensures choice.Some? && size <= choice.value {
      assert MakesOffer(b, sizes, total, size);
    }
  }

  /** The finished part of the choices; no choice is needed for an empty hold. */
  ghost predicate AreChoices(choices: seq<Option<int>>, sizes: seq<int>) {
    forall t :: 1 <= t < |choices| ==> IsChoice(sizes, t, choices[t])
  }

  /** One size tried on top of the best fill of what it leaves: at a tie the later, larger size takes over. */
  lemma TryChoice(b: int, choice: Option<int>, table: seq<int>, sizes: seq<int>, order: seq<int>, i: nat)
    requires i < |order| && IsStrictlySorted(order) && Usable(sizes, order[i]) && table != [] && IsTable(table, sizes)
    requires b <= BestScu(sizes, |table|) && Tried(b, choice, sizes, |table|, order[..i])
    ensures var size := order[i];
            if size <= |table| && table[|table| - size] + size >= b then
              && table[|table| - size] + size <= BestScu(sizes, |table|)
              && Tried(table[|table| - size] + size, Some(size), sizes, |table|, order[..i + 1])
            else
              Tried(b, choice, sizes, |table|, order[..i + 1])
  {
    var size, total := order[i], |table|;
    if size <= total && table[total - size] + size >= b {
      OneMoreBox(sizes, total, size);
      TriedOneMore(b, choice, table[total - size] + size, Some(size), sizes, total, order, i);
    } else {
      TriedOneMore(b, choice, b, choice, sizes, total, order, i);
    }
  }

  /** One entry of both tables: the best fill of the hold, and the size the walk takes out of it. */
  method FillChoice(
    best: array<int>, usedSize: array<Option<int>>, total: nat, sizes: seq<int>, ghost table: seq<int>, ghost containerSizes: seq<int>
  )
    requires 0 < total < best.Length == usedSize.Length && best[..total] == table && IsTable(table, containerSizes)
    requires usedSize[total] == None && IsStrictlySorted(sizes)
    requires forall size :: size in sizes <==> Usable(containerSizes, size)
    modifies best, usedSize
    ensures best[..total] == table && best[total] == BestScu(containerSizes, total)
    ensures IsChoice(containerSizes, total, usedSize[total])
    ensures forall t :: 0 <= t < usedSize.Length && t != total ==> usedSize[t] == old(usedSize[t])
  {
    assert best[total - 1] == table[total - 1];
    best[total] := best[total - 1];
    SmallerHold(containerSizes, total);
    for i := 0 to |sizes|
      invariant best[..total] == table
      invariant forall t :: 0 <= t < usedSize.Length && t != total ==> usedSize[t] == old(usedSize[t])
      invariant BestScu(containerSizes, total - 1) <= best[total] <= BestScu(containerSizes, total)
      invariant Tried(best[total], usedSize[total], containerSizes, total, sizes[..i])
    {
      var size := sizes[i];
      TryChoice(best[total], usedSize[total], table, containerSizes, sizes, i);
      if size <= total {
        assert best[total - size] == table[total - size];
        if best[total - size] + size >= best[total] {
          best[total] := best[total - size] + size;
          usedSize[total] := Some(size);
        }
      }
    }
    assert sizes[..|sizes|] == sizes;
    CandidatesSuffice(containerSizes, total, best[total]);
    TriedAll(best[total], usedSize[total], containerSizes, total, sizes);
  }

  /** The table again, now remembering for every hold the size the walk takes out of it. */
  method ChoiceTable(whole: nat, sizes: seq<int>, ghost containerSizes: seq<int>) returns (usedSize: array<Option<int>>)
    requires whole > 0 && IsStrictlySorted(sizes)
    requires forall size :: size in sizes <==> Usable(containerSizes, size)
    ensures usedSize.Length == whole + 1 && AreChoices(usedSize[..], containerSizes)
  {
    var best := new int[whole + 1](_ => 0);
    usedSize := new Option<int>[whole + 1](_ => None);
    ghost var table := [0];
    for total := 1 to whole + 1
      invariant |table| == total && best[..total] == table && IsTable(table, containerSizes)
      invariant forall t :: 1 <= t < total ==> IsChoice(containerSizes, t, usedSize[t])
      invariant forall t :: total <= t <= whole ==> usedSize[t] == None
    {
      FillChoice(best, usedSize, total, sizes, table, containerSizes);
      table := table + [best[total]];
    }
  }

  // ----- Following the choices -----

  /** Every choice takes a box that fits. */
  ghost predicate StepsDown(choices: seq<Option<int>>) {
    forall t :: 1 <= t < |choices| && choices[t].Some? ==> 0 < choices[t].value <= t
  }

  /** What following the choices takes out of remaining. */
  ghost function Followed(choices: seq<Option<int>>, remaining: nat): seq<int>
    requires StepsDown(choices) && remaining < |choices|
  {
    if remaining == 0 then []
    else
      match choices[remaining]
      case None => Followed(choices, remaining - 1)
      case Some(size) => [size] + Followed(choices, remaining - size)
  }

  /** Python's `mix.get(size, 0)`. */
  function Taken(mix: map<int, nat>, size: int): nat {
    if size in mix then mix[size] else 0
  }

  /** The mix counted up box by box. */
  function Tally(boxes: seq<int>): map<int, nat> {
    if boxes == [] then map[]
    else
      var last := boxes[|boxes| - 1];
      var mix := Tally(boxes[..|boxes| - 1]);
      mix[last := Taken(mix, last) + 1]
  }

  lemma TallyOneMore(boxes: seq<int>, size: int)
    ensures Tally(boxes + [size]) == Tally(boxes)[size := Taken(Tally(boxes), size) + 1]
  {
    assert (boxes + [size])[..|boxes|] == boxes;
  }

  lemma {:induction false} TallyTallies(boxes: seq<int>)
    ensures Tallies(Tally(boxes), boxes)
  {
    if boxes != [] {
      var rest, last := boxes[..|boxes| - 1], boxes[|boxes| - 1];
      TallyTallies(rest);
      assert boxes == rest + [last];
      assert multiset(boxes) == multiset(rest) + multiset{last};
      assert forall size :: size in boxes <==> size in rest || size == last;
    }
  }

  method FollowChoices(usedSize: array<Option<int>>, whole: nat) returns (mix: map<int, nat>)
    requires usedSize.Length == whole + 1 && StepsDown(usedSize[..])
    ensures mix == Tally(Followed(usedSize[..], whole))
  {
    ghost var choices, picked := usedSize[..], [];
    mix := map[];
    var remaining := whole;
    while remaining > 0
      invariant 0 <= remaining <= whole
      invariant picked + Followed(choices, remaining) == Followed(choices, whole)
      invariant mix == Tally(picked)
    {
      assert usedSize[remaining] == choices[remaining];
      match usedSize[remaining]
      case None =>
        remaining := remaining - 1;
      case Some(size) =>
        TallyOneMore(picked, size);
        assert picked + ([size] + Followed(choices, remaining - size)) == (picked + [size]) + Followed(choices, remaining - size);
        mix := mix[size := Taken(mix, size) + 1];
        picked := picked + [size];
        remaining := remaining - size;
    }
    assert picked == Followed(choices, whole);
  }

  lemma {:induction false} FollowedIsWalk(sizes: seq<int>, choices: seq<Option<int>>, remaining: nat)
    requires AreChoices(choices, sizes) && StepsDown(choices) && remaining < |choices|
    ensures IsWalk(sizes, remaining, Followed(choices, remaining))
  {
    if remaining > 0 {
      assert IsChoice(sizes, remaining, choices[remaining]);
      match choices[remaining]
      case None =>
        FollowedIsWalk(sizes, choices, remaining - 1);
        PassOver(sizes, remaining, Followed(choices, remaining - 1));
      case Some(size) =>
        FollowedIsWalk(sizes, choices, remaining - size);
        TakeBox(sizes, remaining, size, Followed(choices, remaining - size));
    }
  }

  /** Where no size attains the best fill there is nothing left to pack, in this hold or in a smaller one. */
  lemma PassOver(sizes: seq<int>, hold: nat, picked: seq<int>)
    requires hold > 0 && IsChoice(sizes, hold, None) && IsWalk(sizes, hold - 1, picked)
    ensures IsWalk(sizes, hold, picked)
  {
    NoChoiceNoBoxes(sizes, hold);
    SmallerHold(sizes, hold);
    WalkIsBestFill(sizes, hold - 1, picked);
    FillIsPositive(sizes, picked);
  }

  lemma TakeBox(sizes: seq<int>, hold: nat, size: int, picked: seq<int>)
    requires 0 < size <= hold && IsChoice(sizes, hold, Some(size)) && IsWalk(sizes, hold - size, picked)
    ensures IsWalk(sizes, hold, [size] + picked)
  {
    assert ([size] + picked)[1..] == picked;
  }

  lemma ChoicesStepDown(sizes: seq<int>, choices: seq<Option<int>>)
    requires AreChoices(choices, sizes)
    ensures StepsDown(choices)
  {
    forall t | 1 <= t < |choices| && choices[t].Some? ensures 0 < choices[t].value <= t {
      assert Attains(sizes, t, choices[t].value);
    }
  }

  lemma WalkMeetsContract(sizes: seq<int>, hold: nat, picked: seq<int>)
    requires IsWalk(sizes, hold, picked)
    ensures IsBestMix(sizes, hold, Tally(picked))
  {
    TallyTallies(picked);
    WalkIsBestFill(sizes, hold, picked);
    BestScuIsGreatest(sizes, hold);
    WalkNeverIncreases(sizes, hold, picked);
    forall boxes | IsFill(sizes, boxes) && TotalScu(boxes) == TotalScu(picked) ensures BiggestFirst(picked, boxes) {
      WalkIsBiggestFirst(sizes, hold, picked, boxes);
    }
  }

  method BestContainerMix(capacity: real, containerSizes: seq<int>) returns (mix: map<int, nat>)
    ensures IsBestMix(containerSizes, Hold(capacity), mix) && IsBestMixWithin(containerSizes, capacity, mix)
  {
    var whole := Truncate(capacity);
    var sizes := UsableSizes(containerSizes);
    if sizes == [] || whole <= 0 {
      NothingToPack(containerSizes, Hold(capacity));
      WalkMeetsContract(containerSizes, Hold(capacity), []);
      MixWithin(containerSizes, capacity, map[]);
      return map[];
    }

    var usedSize := ChoiceTable(whole, sizes, containerSizes);
    ChoicesStepDown(containerSizes, usedSize[..]);
    mix := FollowChoices(usedSize, whole);
    FollowedIsWalk(containerSizes, usedSize[..], whole);
    WalkMeetsContract(containerSizes, whole, Followed(usedSize[..], whole));
    MixWithin(containerSizes, capacity, mix);
  }

  lemma MixWithin(sizes: seq<int>, capacity: real, mix: map<int, nat>)
    requires IsBestMix(sizes, Hold(capacity), mix)
    ensures IsBestMixWithin(sizes, capacity, mix)
  {
    var picked :| Tallies(mix, picked) && BiggestBestFill(sizes, Hold(capacity), picked);
    HoldIsCapacity(sizes, capacity, TotalScu(picked));
    assert BiggestBestWithin(sizes, capacity, picked);
  }

  /** There is only one mix to return. */
  lemma BestMixIsUnique(sizes: seq<int>, capacity: real, a: map<int, nat>, b: map<int, nat>)
    requires IsBestMixWithin(sizes, capacity, a) && IsBestMixWithin(sizes, capacity, b)
    ensures a == b
  {
    var picked :| Tallies(a, picked) && BiggestBestWithin(sizes, capacity, picked);
    var others :| Tallies(b, others) && BiggestBestWithin(sizes, capacity, others);
    SameGreatest(sizes, capacity, TotalScu(picked), TotalScu(others));
    BiggestFirstAntisymmetric(picked, others);
    SameTallies(a, picked, b, others);
  }

  lemma SameGreatest(sizes: seq<int>, capacity: real, a: int, b: int)
    requires IsGreatestWithin(sizes, capacity, a) && IsGreatestWithin(sizes, capacity, b)
    ensures a == b
  {
    var boxes :| IsFill(sizes, boxes) && TotalScu(boxes) == a;
    var others :| IsFill(sizes, others) && TotalScu(others) == b;
    FillIsPositive(sizes, boxes);
    FillIsPositive(sizes, others);
  }

  lemma BiggestFirstAntisymmetric(a: seq<int>, b: seq<int>)
    requires BiggestFirst(a, b) && BiggestFirst(b, a)
    ensures multiset(a) == multiset(b)
  {
  }

  lemma SameTallies(mixA: map<int, nat>, a: seq<int>, mixB: map<int, nat>, b: seq<int>)
    requires Tallies(mixA, a) && Tallies(mixB, b) && multiset(a) == multiset(b)
    ensures mixA == mixB
  {
    forall size ensures (size in mixA <==> size in mixB) && (size in mixA ==> mixA[size] == mixB[size]) {
      assert size in a <==> size in multiset(a);
      assert size in b <==> size in multiset(b);
    }
    assert mixA.Keys == mixB.Keys;
    assert mixA == mixB;
  }

  // ----- What a ship can load on a route -----

  function Common(origin: seq<int>, destination: seq<int>): (r: seq<int>)
    ensures forall size :: size in r <==> size in origin && size in destination
  {
    if origin == [] then
      []
    else
      assert origin == [origin[0]] + origin[1..];
      (if origin[0] in destination then [origin[0]] else []) + Common(origin[1..], destination)
  }

  /** The sizes both terminals handle, smallest first, each once. */
  function UsableContainerSizes(origin: seq<int>, destination: seq<int>): (r: seq<int>)
    ensures IsStrictlySorted(r)
    ensures forall size :: size in r <==> size in origin && size in destination
  {
    SortedSet(Common(origin, destination))
  }

  /** Ascending order and the common sizes leave only one answer. */
  lemma UsableContainerSizesIsUnique(origin: seq<int>, destination: seq<int>, sizes: seq<int>)
    requires IsStrictlySorted(sizes) && forall size :: size in sizes <==> size in origin && size in destination
    ensures sizes == UsableContainerSizes(origin, destination)
  {
    StrictlySortedUnique(sizes, UsableContainerSizes(origin, destination));
  }

  datatype Stock = Stock(scuOrigin: real, scuDestination: real, sizesOrigin: seq<int>, sizesDestination: seq<int>)

  function LeastOf(a: real, b: real): real {
    if b < a then b else a
  }

  predicate Loadable(load: real, stock: Stock, cargoScu: Option<int>) {
    && load <= stock.scuOrigin && load <= stock.scuDestination
    && (cargoScu.Some? && cargoScu.value > 0 ==> load <= cargoScu.value as real)
  }

  /** Exactly the loads up to it fit both terminals and, when it is known and not zero, the ship's hold. */
  function LoadCeiling(stock: Stock, cargoScu: Option<int>): (r: real)
    ensures forall load :: load <= r <==> Loadable(load, stock, cargoScu)
  {
    var both := LeastOf(stock.scuOrigin, stock.scuDestination);
    if cargoScu.Some? && cargoScu.value > 0 then LeastOf(both, cargoScu.value as real) else both
  }

  /** Without container data the whole ceiling counts as loadable, even a fraction of an SCU. */
  method ReachableScu(stock: Stock, cargoScu: Option<int>) returns (scu: real)
    ensures var sizes := UsableContainerSizes(stock.sizesOrigin, stock.sizesDestination);
            if sizes == [] then scu == LoadCeiling(stock, cargoScu)
            else scu == scu.Floor as real && IsGreatestWithin(sizes, LoadCeiling(stock, cargoScu), scu.Floor)
  {
    var capacity := LoadCeiling(stock, cargoScu);
    var sizes := UsableContainerSizes(stock.sizesOrigin, stock.sizesDestination);
    if sizes == [] {
      return capacity;
    }
    var packed := MaxPackableScu(capacity, sizes);
    scu := packed as real;
  }
}
