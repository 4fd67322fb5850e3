/** The per-key sliding-window guard on the gateways. */
module Limits {
  import opened Options

  // ----- Histories of allowed events -----

  ghost predicate Nondecreasing(h: seq<real>) {
    forall i, j :: 0 <= i < j < |h| ==> h[i] <= h[j]
  }

  /** The events of the last windowS seconds. */
  function Recent(h: seq<real>, now: real, windowS: real): seq<real> {
    if h == [] then [] else (if now - h[0] < windowS then [h[0]] else []) + Recent(h[1..], now, windowS)
  }

  /** Any maxEvents + 1 successive allowed events span at least a window. */
  ghost predicate Spaced(h: seq<real>, maxEvents: int, windowS: real) {
    && (maxEvents <= 0 ==> h == [])
    && forall i, j :: 0 <= i < j < |h| && j - i >= maxEvents ==> h[j] - h[i] >= windowS
  }

  /** The events in the half-open interval from lo to hi. */
  function Within(h: seq<real>, lo: real, hi: real): seq<real> {
    if h == [] then [] else (if lo <= h[0] < hi then [h[0]] else []) + Within(h[1..], lo, hi)
  }

  /** How many leading events have left the window. */
  function Expired(h: seq<real>, now: real, windowS: real): (k: nat)
    ensures k <= |h| && (k < |h| ==> now - h[k] < windowS)
    ensures forall i :: 0 <= i < k ==> now - h[i] >= windowS
  {
    if h == [] || now - h[0] < windowS then 0 else 1 + Expired(h[1..], now, windowS)
  }

  /** Oldest first, the recent events are what is left after the leading expired ones. */
  lemma {:induction false} RecentIsSuffix(h: seq<real>, now: real, windowS: real)
    requires Nondecreasing(h)
    ensures Recent(h, now, windowS) == h[Expired(h, now, windowS)..]
  {
    if h != [] {
      RecentIsSuffix(h[1..], now, windowS);
      if now - h[0] < windowS {
        assert Expired(h[1..], now, windowS) == 0;
        assert h == [h[0]] + h[1..];
      }
    }
  }

  /** Filtering again later is filtering once: what expired stays expired. */
  lemma {:induction false} RecentLater(h: seq<real>, before: real, now: real, windowS: real)
    requires before <= now
    ensures Recent(Recent(h, before, windowS), now, windowS) == Recent(h, now, windowS)
  {
    if h != [] {
      RecentLater(h[1..], before, now, windowS);
      var rest := Recent(h[1..], before, windowS);
      if before - h[0] < windowS {
        assert Recent(h, before, windowS) == [h[0]] + rest;
        assert ([h[0]] + rest)[1..] == rest;
      } else {
        assert Recent(h, before, windowS) == rest;
      }
    }
  }

  lemma {:induction false} RecentAppend(h: seq<real>, x: real, now: real, windowS: real)
    ensures Recent(h + [x], now, windowS) == Recent(h, now, windowS) + (if now - x < windowS then [x] else [])
  {
    if h == [] {
      assert [x][1..] == [];
    } else {
      assert (h + [x])[1..] == h[1..] + [x];
      RecentAppend(h[1..], x, now, windowS);
    }
  }

  /** Allowing an event while fewer than maxEvents are recent keeps the history spaced. */
  lemma AllowedKeepsSpacing(h: seq<real>, now: real, maxEvents: int, windowS: real)
    requires Nondecreasing(h) && Spaced(h, maxEvents, windowS)
    requires |Recent(h, now, windowS)| < maxEvents
    ensures Spaced(h + [now], maxEvents, windowS)
  {
    RecentIsSuffix(h, now, windowS);
    var h' := h + [now];
    forall i, j | 0 <= i < j < |h'| && j - i >= maxEvents ensures h'[j] - h'[i] >= windowS {
      if j == |h| {
        assert i < Expired(h, now, windowS);
      }
    }
  }

  // ----- No interval of one window holds more than maxEvents -----

  lemma {:induction false} WithinConcat(a: seq<real>, b: seq<real>, lo: real, hi: real)
    ensures Within(a + b, lo, hi) == Within(a, lo, hi) + Within(b, lo, hi)
  {
    if a == [] {
      assert a + b == b;
    } else {
      assert (a + b)[1..] == a[1..] + b;
      WithinConcat(a[1..], b, lo, hi);
    }
  }

  lemma {:induction false} WithinAtMost(h: seq<real>, lo: real, hi: real)
    ensures |Within(h, lo, hi)| <= |h|
    ensures (forall k :: 0 <= k < |h| ==> h[k] >= hi) ==> Within(h, lo, hi) == []
  {
    if h != [] {
      WithinAtMost(h[1..], lo, hi);
    }
  }

  /** An interval that holds the first event holds at most maxEvents. */
  lemma FromFirst(h: seq<real>, maxEvents: int, windowS: real, start: real)
    requires Spaced(h, maxEvents, windowS) && h != [] && start <= h[0]
    ensures |Within(h, start, start + windowS)| <= maxEvents
  {
    var k := if |h| < maxEvents then |h| else maxEvents;
    assert h == h[..k] + h[k..];
    WithinConcat(h[..k], h[k..], start, start + windowS);
    WithinAtMost(h[..k], start, start + windowS);
    forall j | k <= j < |h| ensures h[j] >= start + windowS {
      assert h[j] - h[0] >= windowS;
    }
    WithinAtMost(h[k..], start, start + windowS);
  }

  /** Every half-open interval of one window's length holds at most maxEvents allowed events. */
  lemma {:induction false} AtMostPerWindow(h: seq<real>, maxEvents: int, windowS: real, start: real)
    requires Nondecreasing(h) && Spaced(h, maxEvents, windowS)
    ensures |Within(h, start, start + windowS)| <= if maxEvents > 0 then maxEvents else 0
  {
    if h != [] {
      if start <= h[0] < start + windowS {
        FromFirst(h, maxEvents, windowS, start);
      } else {
        AtMostPerWindow(h[1..], maxEvents, windowS, start);
      }
    }
  }

  // ----- The retry delay -----

  function RetryDelay(recent: seq<real>, now: real, windowS: real): real {
    if recent == [] then windowS else windowS - (now - recent[0])
  }

  /** No more than maxEvents events are ever recent. */
  lemma RecentAtMost(h: seq<real>, now: real, maxEvents: int, windowS: real)
    requires Nondecreasing(h) && Spaced(h, maxEvents, windowS) && maxEvents >= 1
    requires forall k :: 0 <= k < |h| ==> h[k] <= now
    ensures |Recent(h, now, windowS)| <= maxEvents
  {
    RecentIsSuffix(h, now, windowS);
    var k := Expired(h, now, windowS);
    if |h| - k > maxEvents {
      SpacedPair(h, maxEvents, windowS, k, |h| - 1);
    }
  }

  lemma SpacedPair(h: seq<real>, maxEvents: int, windowS: real, i: nat, j: nat)
    requires Spaced(h, maxEvents, windowS) && i < j < |h| && j - i >= maxEvents
    ensures h[j] - h[i] >= windowS
  {
  }

  /**
   * After a refusal, and with no call in between, a later call is allowed exactly when at least the
   * returned delay has passed. The delay is positive.
   */
  lemma RetryDelayIsExact(h: seq<real>, now: real, later: real, maxEvents: int, windowS: real)
    requires Nondecreasing(h) && Spaced(h, maxEvents, windowS) && maxEvents >= 1
    requires forall k :: 0 <= k < |h| ==> h[k] <= now
    requires |Recent(h, now, windowS)| >= maxEvents && later >= now
    ensures var delay := RetryDelay(Recent(h, now, windowS), now, windowS);
            delay > 0.0 && (|Recent(h, later, windowS)| < maxEvents <==> later >= now + delay)
  {
    RecentAtMost(h, now, maxEvents, windowS);
    RecentIsSuffix(h, now, windowS);
    RecentIsSuffix(h, later, windowS);
    var k, k' := Expired(h, now, windowS), Expired(h, later, windowS);
    assert k' >= k;
    assert k' == k <==> later - h[k] < windowS;
  }

  // ----- The limiter -----

  /** What the popping loop leaves of a deque. */
  function Popped(deque: seq<real>, now: real, windowS: real): seq<real> {
    if deque != [] && now - deque[0] >= windowS then Popped(deque[1..], now, windowS) else deque
  }

  lemma {:induction false} PoppedIsRecent(deque: seq<real>, now: real, windowS: real)
    requires Nondecreasing(deque)
    ensures Popped(deque, now, windowS) == Recent(deque, now, windowS)
  {
    if deque != [] {
      if now - deque[0] >= windowS {
        PoppedIsRecent(deque[1..], now, windowS);
      } else {
        RecentIsSuffix(deque, now, windowS);
      }
    }
  }

  /**
   * A key's deque is its whole history of allowed events less those that had left the window by the
   * key's last call; a key never called has neither.
   */
  ghost predicate Tracks(h: seq<real>, deque: Option<seq<real>>, last: Option<real>, maxEvents: int, windowS: real) {
    && Nondecreasing(h) && Spaced(h, maxEvents, windowS)
    && (deque.Some? <==> last.Some?)
    && match last
       case None => h == []
       case Some(at) => (forall k :: 0 <= k < |h| ==> h[k] <= at) && deque.Some? && Forgotten(h, deque.value, at, windowS)
  }

  ghost predicate Forgotten(h: seq<real>, deque: seq<real>, at: real, windowS: real) {
    && |deque| <= |h| && deque == h[|h| - |deque|..]
    && forall k :: 0 <= k < |h| - |deque| ==> at - h[k] >= windowS
  }

  lemma {:induction false} RecentConcat(a: seq<real>, b: seq<real>, now: real, windowS: real)
    ensures Recent(a + b, now, windowS) == Recent(a, now, windowS) + Recent(b, now, windowS)
  {
    if a == [] {
      assert a + b == b;
    } else {
      assert (a + b)[1..] == a[1..] + b;
      RecentConcat(a[1..], b, now, windowS);
    }
  }

  lemma {:induction false} NoneRecent(h: seq<real>, now: real, windowS: real)
    requires forall k :: 0 <= k < |h| ==> now - h[k] >= windowS
    ensures Recent(h, now, windowS) == []
  {
    if h != [] {
      NoneRecent(h[1..], now, windowS);
    }
  }

  /** What has been forgotten would not be recent any more. */
  lemma ForgottenIsNotRecent(h: seq<real>, deque: seq<real>, at: real, now: real, windowS: real)
    requires Forgotten(h, deque, at, windowS) && at <= now
    ensures Recent(h, now, windowS) == Recent(deque, now, windowS)
  {
    var gone := h[..|h| - |deque|];
    assert h == gone + deque;
    RecentConcat(gone, deque, now, windowS);
    NoneRecent(gone, now, windowS);
  }

  /** Popping a deque that tracks its history leaves the recent events of that history. */
  lemma PoppedTracks(h: seq<real>, deque: Option<seq<real>>, last: Option<real>, now: real, maxEvents: int, windowS: real)
    requires Tracks(h, deque, last, maxEvents, windowS) && (last.Some? ==> last.value <= now)
    ensures Popped(if deque.Some? then deque.value else [], now, windowS) == Recent(h, now, windowS)
    ensures Tracks(h, Some(Recent(h, now, windowS)), Some(now), maxEvents, windowS)
  {
    if last.Some? {
      ForgottenIsNotRecent(h, deque.value, last.value, now, windowS);
      PoppedIsRecent(deque.value, now, windowS);
      RecentIsSuffix(h, now, windowS);
    }
  }

  lemma AllowedTracks(h: seq<real>, now: real, maxEvents: int, windowS: real)
    requires Tracks(h, Some(Recent(h, now, windowS)), Some(now), maxEvents, windowS)
    requires |Recent(h, now, windowS)| < maxEvents
    ensures Tracks(h + [now], Some(Recent(h, now, windowS) + [now]), Some(now), maxEvents, windowS)
  {
    AllowedKeepsSpacing(h, now, maxEvents, windowS);
    var deque, after := Recent(h, now, windowS), h + [now];
    assert after[|after| - |deque| - 1..] == h[|h| - |deque|..] + [now];
  }

  class RateLimiter<Key(==,!new)> {
    const maxEvents: int
    const windowS: real
    var events: map<Key, seq<real>>
    ghost var allowed: map<Key, seq<real>>  // every event ever allowed
    ghost var lastCall: map<Key, real>

    ghost function History(key: Key): seq<real>
      reads this
    {
      if key in allowed then allowed[key] else []
    }

    ghost predicate ValidKey(key: Key)
      reads this
    {
      Tracks(History(key),
             if key in events then Some(events[key]) else None,
             if key in lastCall then Some(lastCall[key]) else None,
             maxEvents, windowS)
    }

    ghost predicate Valid()
      reads this
    {
      forall key :: ValidKey(key)
    }

    /** How many events were allowed for the key in the window that begins at start. */
    ghost function AllowedFrom(key: Key, start: real): nat
      reads this
    {
      |Within(History(key), start, start + windowS)|
    }

    /** At most maxEvents for every key in every window, wherever it begins. */
    ghost predicate KeepsLimit()
      reads this
    {
      forall key, start :: AllowedFrom(key, start) <= if maxEvents > 0 then maxEvents else 0
    }

    lemma ValidKeepsLimit()
      requires Valid()
      ensures KeepsLimit()
    {
      forall key, start ensures AllowedFrom(key, start) <= if maxEvents > 0 then maxEvents else 0 {
        assert ValidKey(key);
        AtMostPerWindow(History(key), maxEvents, windowS, start);
      }
    }

    constructor (maxEvents: int, windowS: real)
      ensures Valid() && KeepsLimit() && this.maxEvents == maxEvents && this.windowS == windowS
      ensures allowed == map[] && events == map[] && lastCall == map[]
    {
      this.maxEvents, this.windowS := maxEvents, windowS;
      events, allowed, lastCall := map[], map[], map[];
    }

    /** Counts the event and returns None if it is allowed; otherwise the seconds until it would be. */
    method RetryAfterS(key: Key, now: real) returns (retry: Option<real>)
      requires Valid() && (key in lastCall ==> lastCall[key] <= now)
      modifies this
      ensures Valid() && KeepsLimit() && lastCall == old(lastCall)[key := now]
      ensures var recent := Recent(old(History(key)), now, windowS);
              if |recent| < maxEvents then
                && retry == None
                && events == old(events)[key := recent + [now]]
                && allowed == old(allowed)[key := old(History(key)) + [now]]
              else
                && retry == Some(RetryDelay(recent, now, windowS))
                && events == old(events)[key := recent]
                && allowed == old(allowed)
    {
      assert ValidKey(key);
      ghost var h := History(key);
      PoppedTracks(h, if key in events then Some(events[key]) else None,
                   if key in lastCall then Some(lastCall[key]) else None, now, maxEvents, windowS);
      var deque := Pop(if key in events then events[key] else [], now);
      lastCall := lastCall[key := now];
      if |deque| >= maxEvents {
        events := events[key := deque];
        retry := Some(if deque == [] then windowS else windowS - (now - deque[0]));
      } else {
        AllowedTracks(h, now, maxEvents, windowS);
        events := events[key := deque + [now]];
        allowed := allowed[key := h + [now]];
        retry := None;
      }
      assert Tracks(History(key), Some(events[key]), Some(now), maxEvents, windowS);
      forall other | other != key ensures ValidKey(other) {
        assert old(ValidKey(other));
        assert History(other) == old(History(other));
      }
      ValidKeepsLimit();
    }

    /** Events that have left the window are popped off the front. */
    method Pop(events: seq<real>, now: real) returns (deque: seq<real>)
      ensures deque == Popped(events, now, windowS)
    {
      deque := events;
      while deque != [] && now - deque[0] >= windowS
        invariant Popped(deque, now, windowS) == Popped(events, now, windowS)
      {
        deque := deque[1..];
      }
    }
  }
}
