/** The last turns of a conversation that an LLM call is sent, with older tool results stubbed. */
module HistoryWindow {

  /** A tool message answers the AI message whose calls name its id. */
  datatype Message =
    | Human(content: string)
    | AI(content: string, toolCalls: seq<string>)
    | Tool(toolCallId: string, content: string)
    | Other(content: string)

  const STALE_TOOL_RESULT := "[older result omitted; call the tool again if you need it]"

  // ----- Specification -----

  /** Pilot turns begun in a stretch of messages. */
  function Humans(messages: seq<Message>): nat {
    if messages == [] then 0 else (if messages[0].Human? then 1 else 0) + Humans(messages[1..])
  }

  /** The messages from the human message that begins the last k turns. */
  function LastTurns(messages: seq<Message>, k: nat): seq<Message>
    requires 1 <= k <= Humans(messages)
  {
    if Humans(messages[1..]) >= k then LastTurns(messages[1..], k) else messages
  }

  /** Only a history with more turns than wanted is cut; a shorter one keeps whatever precedes its first turn. */
  function Cut(messages: seq<Message>, turns: nat): seq<Message>
    requires turns >= 1
  {
    if Humans(messages) > turns then LastTurns(messages, turns) else messages
  }

  function Stub(m: Message): Message {
    if m.Tool? then Tool(m.toolCallId, STALE_TOOL_RESULT) else m
  }

  /** A tool result is stale once fullTurns pilot turns have begun after it. */
  function StubbedAt(messages: seq<Message>, i: nat, fullTurns: nat): Message
    requires i < |messages|
  {
    if Humans(messages[i..]) >= fullTurns then Stub(messages[i]) else messages[i]
  }

  function Stubbed(messages: seq<Message>, fullTurns: nat): (r: seq<Message>)
    ensures |r| == |messages|
  {
    seq(|messages|, i requires 0 <= i < |messages| => StubbedAt(messages, i, fullTurns))
  }

  function Windowed(messages: seq<Message>, turns: int, fullTurns: nat): seq<Message> {
    if turns <= 0 then messages else Stubbed(Cut(messages, turns), fullTurns)
  }

  // ----- Counting turns -----

  lemma {:induction false} HumansConcat(a: seq<Message>, b: seq<Message>)
    ensures Humans(a + b) == Humans(a) + Humans(b)
  {
    if a == [] {
      assert a + b == b;
    } else {
      assert (a + b)[1..] == a[1..] + b;
      HumansConcat(a[1..], b);
    }
  }

  lemma HumansFrom(messages: seq<Message>, i: nat)
    requires i < |messages|
    ensures Humans(messages[i..]) == (if messages[i].Human? then 1 else 0) + Humans(messages[i + 1..])
    ensures Humans(messages[..i + 1]) == Humans(messages[..i]) + (if messages[i].Human? then 1 else 0)
  {
    assert messages[i..][1..] == messages[i + 1..];
    assert messages[..i + 1] == messages[..i] + [messages[i]];
    HumansConcat(messages[..i], [messages[i]]);
    assert [messages[i]][1..] == [];
  }

  lemma {:induction false} FewerLater(messages: seq<Message>, i: nat, j: nat)
    requires i <= j <= |messages|
    ensures Humans(messages[j..]) <= Humans(messages[i..])
    decreases j - i
  {
    if i < j {
      HumansFrom(messages, i);
      FewerLater(messages, i + 1, j);
    }
  }

  /** Where the last k turns begin. */
  lemma {:induction false} LastTurnsStart(messages: seq<Message>, k: nat) returns (start: nat)
    requires 1 <= k <= Humans(messages)
    ensures start < |messages| && messages[start].Human? && Humans(messages[start..]) == k
    ensures LastTurns(messages, k) == messages[start..]
  {
    if Humans(messages[1..]) >= k {
      var s := LastTurnsStart(messages[1..], k);
      start := s + 1;
      assert messages[1..][s..] == messages[start..];
    } else {
      start := 0;
    }
  }

  /** That position is the only human message with k turns from it on. */
  lemma StartIsUnique(messages: seq<Message>, i: nat, j: nat)
    requires i < |messages| && j < |messages| && messages[i].Human? && messages[j].Human?
    requires Humans(messages[i..]) == Humans(messages[j..])
    ensures i == j
  {
    HumansFrom(messages, i);
    HumansFrom(messages, j);
    if i < j {
      FewerLater(messages, i + 1, j);
    } else if j < i {
      FewerLater(messages, j + 1, i);
    }
  }

  // ----- The loops -----

  method HumanPositions(messages: seq<Message>) returns (positions: seq<nat>)
    ensures PositionsUpTo(positions, messages, |messages|)
  {
    positions := [];
    for index := 0 to |messages|
      invariant PositionsUpTo(positions, messages, index)
    {
      ghost var before := positions;
      if messages[index].Human? {
        positions := positions + [index];
      }
      PositionsGrow(before, messages, index);
    }
  }

  /** The messages from start on, with every tool result before keepFrom stubbed. */
  method StubFrom(messages: seq<Message>, start: nat, keepFrom: nat) returns (window: seq<Message>)
    requires start <= |messages|
    ensures |window| == |messages| - start
    ensures forall i :: start <= i < |messages| ==> window[i - start] == if i < keepFrom then Stub(messages[i]) else messages[i]
  {
    window := [];
    for index := start to |messages|
      invariant |window| == index - start
      invariant forall i :: start <= i < index ==> window[i - start] == if i < keepFrom then Stub(messages[i]) else messages[i]
    {
      var message := messages[index];
      if message.Tool? && index < keepFrom {
        message := Tool(message.toolCallId, STALE_TOOL_RESULT);
      }
      window := window + [message];
    }
  }

  method WindowedHistory(messages: seq<Message>, turns: int, fullTurns: nat) returns (window: seq<Message>)
    requires fullTurns >= 1  // the setting is never below 1
    ensures window == Windowed(messages, turns, fullTurns)
  {
    if turns <= 0 {
      return messages;
    }
    var positions := HumanPositions(messages);
    var start := if |positions| > turns then positions[|positions| - turns] else 0;
    StartIsCut(positions, messages, turns);
    window := StubFrom(messages, start, KeepFrom(positions, fullTurns));
    StubFromIsStubbed(positions, messages, fullTurns, start, window);
  }

  lemma StubFromIsStubbed(positions: seq<nat>, messages: seq<Message>, fullTurns: nat, start: nat, window: seq<Message>)
    requires fullTurns >= 1 && start <= |messages| && PositionsUpTo(positions, messages, |messages|)
    requires |window| == |messages| - start
    requires forall i :: start <= i < |messages| ==>
               window[i - start] == if i < KeepFrom(positions, fullTurns) then Stub(messages[i]) else messages[i]
    ensures window == Stubbed(messages[start..], fullTurns)
  {
    forall k | 0 <= k < |window| ensures window[k] == Stubbed(messages[start..], fullTurns)[k] {
      StubStep(positions, messages, fullTurns, start, start + k);
      assert window[start + k - start] == window[k];
    }
  }

  function KeepFrom(positions: seq<nat>, fullTurns: nat): nat
    requires fullTurns >= 1
  {
    if |positions| >= fullTurns then positions[|positions| - fullTurns] else 0
  }

  /** positions lists the human messages before index, in order. */
  ghost predicate PositionsUpTo(positions: seq<nat>, messages: seq<Message>, index: nat) {
    && index <= |messages| && |positions| == Humans(messages[..index])
    && forall k :: 0 <= k < |positions| ==> IsKthHuman(positions[k], messages, k) && positions[k] < index
  }

  ghost predicate IsKthHuman(i: nat, messages: seq<Message>, k: nat) {
    i < |messages| && messages[i].Human? && Humans(messages[..i]) == k
  }

  lemma PositionsGrow(positions: seq<nat>, messages: seq<Message>, index: nat)
    requires index < |messages| && PositionsUpTo(positions, messages, index)
    ensures PositionsUpTo(if messages[index].Human? then positions + [index] else positions, messages, index + 1)
  {
    HumansFrom(messages, index);
  }

  lemma HumansAround(messages: seq<Message>, i: nat)
    requires i <= |messages|
    ensures Humans(messages) == Humans(messages[..i]) + Humans(messages[i..])
  {
    assert messages == messages[..i] + messages[i..];
    HumansConcat(messages[..i], messages[i..]);
  }

  lemma StartIsCut(positions: seq<nat>, messages: seq<Message>, turns: int)
    requires turns >= 1 && PositionsUpTo(positions, messages, |messages|)
    ensures var start := if |positions| > turns then positions[|positions| - turns] else 0;
            start <= |messages| && Cut(messages, turns) == messages[start..]
  {
    assert messages[..|messages|] == messages;
    if |positions| > turns {
      var start := positions[|positions| - turns];
      assert IsKthHuman(start, messages, |positions| - turns);
      HumansAround(messages, start);
      var s := LastTurnsStart(messages, turns);
      StartIsUnique(messages, start, s);
    }
  }

  lemma SuffixStubbed(messages: seq<Message>, start: nat, index: nat, fullTurns: nat)
    requires start <= index < |messages|
    ensures Stubbed(messages[start..], fullTurns)[index - start] == StubbedAt(messages, index, fullTurns)
  {
    assert messages[start..][index - start..] == messages[index..];
  }

  lemma StubStep(positions: seq<nat>, messages: seq<Message>, fullTurns: nat, start: nat, index: nat)
    requires fullTurns >= 1 && start <= index < |messages| && PositionsUpTo(positions, messages, |messages|)
    ensures Stubbed(messages[start..], fullTurns)[index - start]
         == if messages[index].Tool? && index < KeepFrom(positions, fullTurns) then Stub(messages[index]) else messages[index]
  {
    SuffixStubbed(messages, start, index, fullTurns);
    StaleIsBefore(positions, messages, fullTurns, index);
  }

  lemma StaleIsBefore(positions: seq<nat>, messages: seq<Message>, fullTurns: nat, index: nat)
    requires fullTurns >= 1 && index < |messages| && PositionsUpTo(positions, messages, |messages|)
    ensures messages[index].Tool? ==> (index < KeepFrom(positions, fullTurns) <==> Humans(messages[index..]) >= fullTurns)
  {
    assert messages[..|messages|] == messages;
    HumansAround(messages, index);
    if |positions| >= fullTurns && messages[index].Tool? {
      var keepFrom := positions[|positions| - fullTurns];
      assert IsKthHuman(keepFrom, messages, |positions| - fullTurns);
      HumansAround(messages, keepFrom);
      HumansFrom(messages, keepFrom);
      if index < keepFrom {
        FewerLater(messages, index, keepFrom);
      } else {
        FewerLater(messages, keepFrom + 1, index);
      }
    }
  }

  // ----- What the window is -----

  /**
   * A suffix of the history, each message as it was or with its tool content stubbed; a cut history
   * starts at a human message.
   */
  lemma WindowIsStubbedSuffix(messages: seq<Message>, turns: int, fullTurns: nat) returns (start: nat)
    requires turns >= 1
    ensures start <= |messages| && Cut(messages, turns) == messages[start..]
    ensures IsStubbedFrom(Windowed(messages, turns, fullTurns), messages, start, fullTurns)
    ensures StartsAt(messages, turns, start)
  {
    if Humans(messages) > turns {
      start := LastTurnsStart(messages, turns);
    } else {
      start := 0;
    }
    var window := Windowed(messages, turns, fullTurns);
    forall i | 0 <= i < |window| ensures window[i] == StubbedAt(messages, start + i, fullTurns) {
      SuffixStubbed(messages, start, start + i, fullTurns);
    }
  }

  /** The last so many pilot turns begin at this position, or it is the start of a history with no more than them. */
  ghost predicate TurnsBegin(messages: seq<Message>, turns: nat, at: nat) {
    if Humans(messages) >= turns then at < |messages| && messages[at].Human? && Humans(messages[at..]) == turns
    else at == 0
  }

  /** The messages from start on, as they were but for the contents of tool results before keep. */
  ghost predicate ShowsFrom(window: seq<Message>, messages: seq<Message>, start: nat, keep: nat) {
    && start <= |messages| && |window| == |messages| - start
    && forall i :: start <= i < |messages| ==>
         window[i - start] == if messages[i].Tool? && i < keep then Tool(messages[i].toolCallId, STALE_TOOL_RESULT)
                              else messages[i]
  }

  /**
   * The window, message by message. Windowing switched off changes nothing; otherwise every message of
   * the wanted turns is there as it was, but for the contents of tool results from before the last
   * fullTurns turns. Those keep their ids.
   */
  lemma WindowExactly(messages: seq<Message>, turns: int, fullTurns: nat) returns (start: nat, keep: nat)
    requires fullTurns >= 1
    ensures turns <= 0 ==> Windowed(messages, turns, fullTurns) == messages
    ensures turns >= 1 ==>
              && StartsAt(messages, turns, start) && TurnsBegin(messages, fullTurns, keep)
              && ShowsFrom(Windowed(messages, turns, fullTurns), messages, start, keep)
  {
    start, keep := 0, 0;
    if turns >= 1 {
      start := WindowIsStubbedSuffix(messages, turns, fullTurns);
      if Humans(messages) >= fullTurns {
        keep := LastTurnsStart(messages, fullTurns);
        assert TurnsBegin(messages, fullTurns, keep);
      }
      StubbedShows(Windowed(messages, turns, fullTurns), messages, start, keep, fullTurns);
    }
  }

  lemma StubbedShows(window: seq<Message>, messages: seq<Message>, start: nat, keep: nat, fullTurns: nat)
    requires fullTurns >= 1 && IsStubbedFrom(window, messages, start, fullTurns) && TurnsBegin(messages, fullTurns, keep)
    ensures ShowsFrom(window, messages, start, keep)
  {
    forall i | start <= i < |messages|
      ensures window[i - start] == if messages[i].Tool? && i < keep then Tool(messages[i].toolCallId, STALE_TOOL_RESULT)
                                   else messages[i]
    {
      assert window[i - start] == StubbedAt(messages, start + (i - start), fullTurns);
      if messages[i].Tool? {
        StaleBefore(messages, fullTurns, keep, i);
      }
    }
  }

  lemma StaleBefore(messages: seq<Message>, fullTurns: nat, keep: nat, i: nat)
    requires fullTurns >= 1 && TurnsBegin(messages, fullTurns, keep) && i < |messages| && messages[i].Tool?
    ensures Humans(messages[i..]) >= fullTurns <==> i < keep
  {
    if i < keep {
      FewerLater(messages, i, keep);
    } else if keep < i && Humans(messages) >= fullTurns {
      HumansFrom(messages, keep);
      FewerLater(messages, keep + 1, i);
    } else if Humans(messages) < fullTurns {
      assert messages[0..] == messages;
      FewerLater(messages, 0, i);
    }
  }

  lemma {:induction false} SameHumans(a: seq<Message>, b: seq<Message>)
    requires |a| == |b| && forall i :: 0 <= i < |a| ==> (a[i].Human? <==> b[i].Human?)
    ensures Humans(a) == Humans(b)
  {
    if a != [] {
      SameHumans(a[1..], b[1..]);
    }
  }

  /** Stubbing moves no turn: the window has the turns of the suffix it came from. */
  lemma WindowHumans(messages: seq<Message>, window: seq<Message>, start: nat, fullTurns: nat, k: nat)
    requires IsStubbedFrom(window, messages, start, fullTurns) && k <= |window|
    ensures Humans(window[k..]) == Humans(messages[start + k..])
    ensures forall j :: k <= j <= |window| ==> Humans(window[k..j]) == Humans(messages[start + k..start + j])
  {
    SameHumans(window[k..], messages[start + k..]);
    forall j | k <= j <= |window| ensures Humans(window[k..j]) == Humans(messages[start + k..start + j]) {
      SameHumans(window[k..j], messages[start + k..start + j]);
    }
  }

  /** Exactly the wanted number of turns, or all there are. */
  lemma WindowTurns(messages: seq<Message>, turns: int, fullTurns: nat)
    requires turns >= 1
    ensures Humans(Windowed(messages, turns, fullTurns)) == if Humans(messages) < turns then Humans(messages) else turns
  {
    var start := WindowIsStubbedSuffix(messages, turns, fullTurns);
    var window := Windowed(messages, turns, fullTurns);
    WindowHumans(messages, window, start, fullTurns, 0);
    assert window[0..] == window;
    assert messages[0..] == messages;
  }

  // ----- Tool results stay with their calls -----

  /** The AI message at i asked for the result at j, within the same pilot turn. */
  ghost predicate Answers(messages: seq<Message>, i: nat, j: nat) {
    && i < j < |messages| && messages[i].AI? && messages[j].Tool?
    && messages[j].toolCallId in messages[i].toolCalls
    && Humans(messages[i..j]) == 0
  }

  ghost predicate Paired(messages: seq<Message>) {
    forall j :: 0 <= j < |messages| && messages[j].Tool? ==> exists i :: Answers(messages, i, j)
  }

  /** If every tool result followed its call within its turn, every one in the window still does. */
  lemma WindowKeepsPairs(messages: seq<Message>, turns: int, fullTurns: nat)
    requires Paired(messages)
    ensures Paired(Windowed(messages, turns, fullTurns))
  {
    if turns >= 1 {
      var start := WindowIsStubbedSuffix(messages, turns, fullTurns);
      var window := Windowed(messages, turns, fullTurns);
      forall j | 0 <= j < |window| && window[j].Tool? ensures exists i :: Answers(window, i, j) {
        assert messages[start + j].Tool?;
        var i: nat :| Answers(messages, i, start + j);
        WindowKeepsPair(messages, window, start, fullTurns, i, j);
      }
    }
  }

  lemma WindowKeepsPair(messages: seq<Message>, window: seq<Message>, start: nat, fullTurns: nat, i: nat, j: nat)
    requires IsStubbedFrom(window, messages, start, fullTurns) && Answers(messages, i, start + j)
    requires start > 0 ==> messages[start].Human?
    ensures start <= i && Answers(window, i - start, j)
  {
    CallNotCut(messages, start, i, start + j);
    WindowHumans(messages, window, start, fullTurns, i - start);
  }

  lemma CallNotCut(messages: seq<Message>, start: nat, i: nat, j: nat)
    requires Answers(messages, i, j) && start <= j && (start > 0 ==> messages[start].Human?)
    ensures start <= i
  {
    if i < start {
      HumanBetween(messages, i, start, j);
    }
  }

  lemma HumanBetween(messages: seq<Message>, i: nat, m: nat, j: nat)
    requires i <= m < j <= |messages| && messages[m].Human?
    ensures Humans(messages[i..j]) > 0
  {
    assert messages[i..j] == messages[i..m] + ([messages[m]] + messages[m + 1..j]);
    HumansConcat(messages[i..m], [messages[m]] + messages[m + 1..j]);
  }

  // ----- Windows of windows -----

  /** A larger window, then a smaller one with no more full results, is just the smaller one. */
  lemma WindowsCompose(messages: seq<Message>, larger: int, smaller: int, largerFull: nat, smallerFull: nat)
    requires 1 <= smaller && (larger <= 0 || smaller <= larger) && smallerFull <= largerFull
    ensures Windowed(Windowed(messages, larger, largerFull), smaller, smallerFull) == Windowed(messages, smaller, smallerFull)
  {
    if larger >= 1 {
      var s1 := WindowIsStubbedSuffix(messages, larger, largerFull);
      var w1 := Windowed(messages, larger, largerFull);
      var s2 := WindowIsStubbedSuffix(w1, smaller, smallerFull);
      var s := WindowIsStubbedSuffix(messages, smaller, smallerFull);
      WindowTurns(messages, larger, largerFull);
      SameStart(messages, w1, larger, smaller, largerFull, s1, s2, s);
      SameWindow(messages, w1, Windowed(w1, smaller, smallerFull), Windowed(messages, smaller, smallerFull),
                 s1, s2, s, largerFull, smallerFull);
    }
  }

  /** window is messages from start on, with stale results stubbed. */
  ghost predicate IsStubbedFrom(window: seq<Message>, messages: seq<Message>, start: nat, fullTurns: nat) {
    && start <= |messages| && |window| == |messages| - start
    && forall i :: 0 <= i < |window| ==> window[i] == StubbedAt(messages, start + i, fullTurns)
  }

  lemma SameWindow(
    messages: seq<Message>, w1: seq<Message>, w2: seq<Message>, w: seq<Message>,
    s1: nat, s2: nat, s: nat, largerFull: nat, smallerFull: nat
  )
    requires smallerFull <= largerFull && s1 + s2 == s
    requires IsStubbedFrom(w1, messages, s1, largerFull) && IsStubbedFrom(w2, w1, s2, smallerFull)
    requires IsStubbedFrom(w, messages, s, smallerFull)
    ensures w2 == w
  {
    forall i | 0 <= i < |w2| ensures w2[i] == w[i] {
      StubTwice(messages, w1, s1, largerFull, smallerFull, s2 + i);
      assert s1 + (s2 + i) == s + i;
    }
  }

  lemma StubTwice(messages: seq<Message>, w1: seq<Message>, s1: nat, largerFull: nat, smallerFull: nat, i: nat)
    requires IsStubbedFrom(w1, messages, s1, largerFull) && i < |w1| && smallerFull <= largerFull
    ensures StubbedAt(w1, i, smallerFull) == StubbedAt(messages, s1 + i, smallerFull)
  {
    WindowHumans(messages, w1, s1, largerFull, i);
  }

  /** Where a window of so many turns starts. */
  ghost predicate StartsAt(messages: seq<Message>, turns: int, start: nat) {
    if Humans(messages) > turns then start < |messages| && messages[start].Human? && Humans(messages[start..]) == turns
    else start == 0
  }

  lemma SameStart(messages: seq<Message>, w1: seq<Message>, larger: int, smaller: int, largerFull: nat, s1: nat, s2: nat, s: nat)
    requires 1 <= smaller <= larger && IsStubbedFrom(w1, messages, s1, largerFull) && s2 <= |w1|
    requires Humans(w1) == if Humans(messages) < larger then Humans(messages) else larger
    requires StartsAt(messages, larger, s1) && StartsAt(w1, smaller, s2) && StartsAt(messages, smaller, s)
    ensures s1 + s2 == s
  {
    WindowHumans(messages, w1, s1, largerFull, s2);
    if Humans(messages) > smaller {
      StartIsUnique(messages, s1 + s2, s);
    }
  }

  /** Windowing twice is windowing once. */
  lemma WindowIsIdempotent(messages: seq<Message>, turns: int, fullTurns: nat)
    ensures Windowed(Windowed(messages, turns, fullTurns), turns, fullTurns) == Windowed(messages, turns, fullTurns)
  {
    if turns >= 1 {
      WindowsCompose(messages, turns, turns, fullTurns, fullTurns);
    }
  }
}
