/** The daily limit on UEX calls: one counter per day, raised by one atomic statement per spend. */
module UexBudget {
  type Day = int

  function Total(calls: seq<nat>): nat {
    if calls == [] then 0 else Total(calls[..|calls| - 1]) + calls[|calls| - 1]
  }

  /** A spend is accepted when the day's count stays within the cap. */
  predicate Accepts(cap: int, used: nat, calls: nat) {
    used + calls <= cap
  }

  class Budget {
    const dailyCallLimit: int
    const callMargin: int
    var counts: map<Day, nat>
    ghost var accepted: map<Day, seq<nat>>  // every spend accepted that day, in order

    function Cap(): int {
      dailyCallLimit - callMargin
    }

    function CallsOn(day: Day): nat
      reads this
    {
      if day in counts then counts[day] else 0
    }

    /** The day's counter may take these calls as well. */
    predicate Fits(calls: nat, day: Day)
      reads this
    {
      Accepts(Cap(), CallsOn(day), calls)
    }

    /** Exactly the calls that can still be spent that day: a spend of one or more fits if and only if it is no more. */
    function RemainingOn(day: Day): (r: nat)
      reads this
      ensures forall calls: nat :: calls > 0 ==> (calls <= r <==> Fits(calls, day))
    {
      if Cap() - CallsOn(day) > 0 then Cap() - CallsOn(day) else 0
    }

    /** Each day's counter is the sum of that day's accepted spends and never above the cap. */
    ghost predicate Valid()
      reads this
    {
      && accepted.Keys == counts.Keys
      && forall day :: day in counts ==> counts[day] == Total(accepted[day]) && counts[day] <= Cap()
    }

    constructor (dailyCallLimit: int, callMargin: int)
      ensures Valid() && counts == map[]
      ensures this.dailyCallLimit == dailyCallLimit && this.callMargin == callMargin
    {
      this.dailyCallLimit, this.callMargin := dailyCallLimit, callMargin;
      counts, accepted := map[], map[];
    }

    /** Accepted exactly when it fits under the cap; a refused spend counts nothing. */
    method Spend(calls: nat, day: Day) returns (ok: bool)
      requires Valid()
      modifies this
      ensures Valid()
      ensures ok <==> old(CallsOn(day)) + calls <= dailyCallLimit - callMargin
      ensures calls > 0 ==> (ok <==> calls <= old(RemainingOn(day)))
      ensures RemainingOn(day) == old(RemainingOn(day)) - (if ok then calls else 0)
      ensures forall other :: other != day ==> RemainingOn(other) == old(RemainingOn(other))
      ensures ok ==>
                && counts == old(counts)[day := old(CallsOn(day)) + calls]
                && accepted == old(accepted)[day := (if day in old(accepted) then old(accepted)[day] else []) + [calls]]
      ensures !ok ==> counts == old(counts) && accepted == old(accepted)
    {
      var cap := dailyCallLimit - callMargin;
      if calls > cap {
        return false;
      }
      ghost var before := if day in accepted then accepted[day] else [];
      OneSpendMore(before, calls);
      if day !in counts {
        counts := counts[day := calls];
      } else if counts[day] + calls <= cap {
        counts := counts[day := counts[day] + calls];
      } else {
        return false;
      }
      accepted := accepted[day := before + [calls]];
      ok := true;
    }
  }

  lemma OneSpendMore(before: seq<nat>, calls: nat)
    ensures Total(before + [calls]) == Total(before) + calls
  {
    assert (before + [calls])[..|before|] == before;
  }
}
