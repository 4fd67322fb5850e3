/** Pairs tool calls and tool results by order, giving both matching ids. */
module ToolCallIds {
  import opened Options
  import opened DecimalText

  /** An id of "" is one that is missing or empty. */
  datatype ToolCall = ToolCall(id: string, name: string, arguments: string)

  datatype Message =
    | System(content: string)
    | User(content: string)
    | Assistant(content: string, toolCalls: seq<ToolCall>)
    | ToolResult(toolCallId: string, content: string)

  function CallId(index: nat, position: nat): string {
    "call_" + NatText(index) + "_" + NatText(position)
  }

  // ----- Specification -----

  function NamedCall(call: ToolCall, index: nat, position: nat): ToolCall {
    if call.id == "" then call.(id := CallId(index, position)) else call
  }

  function NamedCalls(calls: seq<ToolCall>, index: nat): (r: seq<ToolCall>)
    ensures |r| == |calls|
    ensures forall k :: 0 <= k < |r| ==> r[k] == NamedCall(calls[k], index, k)
  {
    seq(|calls|, k requires 0 <= k < |calls| => NamedCall(calls[k], index, k))
  }

  function Ids(calls: seq<ToolCall>): (r: seq<string>)
    ensures |r| == |calls|
    ensures forall k :: 0 <= k < |r| ==> r[k] == calls[k].id
  {
    seq(|calls|, k requires 0 <= k < |calls| => calls[k].id)
  }

  /** Python's list.remove: the first occurrence goes. */
  function Remove(pending: seq<string>, id: string): seq<string> {
    if pending == [] then [] else if pending[0] == id then pending[1..] else [pending[0]] + Remove(pending[1..], id)
  }

  function NamedResult(m: Message, pending: seq<string>): Message
    requires m.ToolResult?
  {
    if m.toolCallId == "" && pending != [] then ToolResult(pending[0], m.content) else m
  }

  /** The message with its ids, and the call ids still waiting for a result. */
  function Step(m: Message, index: nat, pending: seq<string>): (Message, seq<string>) {
    match m
    case Assistant(content, calls) =>
      if calls == [] then (m, pending)
      else (Assistant(content, NamedCalls(calls, index)), Ids(NamedCalls(calls, index)))
    case ToolResult(_, _) => (NamedResult(m, pending), Remove(pending, NamedResult(m, pending).toolCallId))
    case _ => (m, pending)
  }

  function Paired(messages: seq<Message>, index: nat, pending: seq<string>): seq<Message> {
    if messages == [] then []
    else
      var (m, rest) := Step(messages[0], index, pending);
      [m] + Paired(messages[1..], index + 1, rest)
  }

  // ----- The loops -----

  method NameCalls(calls: seq<ToolCall>, index: nat) returns (named: seq<ToolCall>, pendingIds: seq<string>)
    ensures named == NamedCalls(calls, index) && pendingIds == Ids(named)
  {
    named, pendingIds := [], [];
    for position := 0 to |calls|
      invariant |named| == |pendingIds| == position
      invariant forall k :: 0 <= k < position ==> named[k] == NamedCall(calls[k], index, k) && pendingIds[k] == named[k].id
    {
      var toolCallId := if calls[position].id != "" then calls[position].id else CallId(index, position);
      named := named + [calls[position].(id := toolCallId)];
      pendingIds := pendingIds + [toolCallId];
    }
  }

  method WithToolCallIds(messages: seq<Message>) returns (paired: seq<Message>)
    ensures paired == Paired(messages, 0, [])
  {
    paired := [];
    var pendingIds: seq<string> := [];
    for index := 0 to |messages|
      invariant paired + Paired(messages[index..], index, pendingIds) == Paired(messages, 0, [])
    {
      var message := messages[index];
      ghost var step := Step(message, index, pendingIds);
      PairedProgress(paired, messages, index, pendingIds);
      match message {
        case Assistant(content, calls) =>
          if calls != [] {
            var named;
            named, pendingIds := NameCalls(calls, index);
            message := Assistant(content, named);
          }
        case ToolResult(id, content) =>
          if id == "" && pendingIds != [] {
            message := ToolResult(pendingIds[0], content);
          }
          if message.toolCallId in pendingIds {
            pendingIds := Remove(pendingIds, message.toolCallId);
          } else {
            RemoveAbsent(pendingIds, message.toolCallId);
          }
        case _ =>
      }
      assert (message, pendingIds) == step;
      paired := paired + [message];
    }
  }

  lemma {:induction false} RemoveAbsent(pending: seq<string>, id: string)
    requires id !in pending
    ensures Remove(pending, id) == pending
  {
    if pending != [] {
      RemoveAbsent(pending[1..], id);
    }
  }

  lemma PairedStep(messages: seq<Message>, from: nat, index: nat, pending: seq<string>)
    requires from < |messages|
    ensures var (m, rest) := Step(messages[from], index, pending);
            Paired(messages[from..], index, pending) == [m] + Paired(messages[from + 1..], index + 1, rest)
  {
    assert messages[from..][1..] == messages[from + 1..];
  }

  lemma PairedProgress(paired: seq<Message>, messages: seq<Message>, index: nat, pending: seq<string>)
    requires index < |messages|
    ensures var (m, rest) := Step(messages[index], index, pending);
            paired + Paired(messages[index..], index, pending) == (paired + [m]) + Paired(messages[index + 1..], index + 1, rest)
  {
    PairedStep(messages, index, index, pending);
  }

  // ----- What pairing leaves alone -----

  /** The same message but for ids that were missing. */
  predicate SameButIds(m: Message, p: Message) {
    match m
    case Assistant(content, calls) =>
      && p.Assistant? && p.content == content && |p.toolCalls| == |calls|
      && forall k :: 0 <= k < |calls| ==>
           && p.toolCalls[k].id != "" && p.toolCalls[k].name == calls[k].name && p.toolCalls[k].arguments == calls[k].arguments
           && (calls[k].id != "" ==> p.toolCalls[k].id == calls[k].id)
    case ToolResult(id, content) => p.ToolResult? && p.content == content && (id != "" ==> p.toolCallId == id)
    case _ => p == m
  }

  /** One for one in order; ids already present are kept, and every call has one. */
  lemma {:induction false} PairingKeepsMessages(messages: seq<Message>, index: nat, pending: seq<string>)
    ensures |Paired(messages, index, pending)| == |messages|
    ensures forall i :: 0 <= i < |messages| ==> SameButIds(messages[i], Paired(messages, index, pending)[i])
  {
    if messages != [] {
      var (m, rest) := Step(messages[0], index, pending);
      PairingKeepsMessages(messages[1..], index + 1, rest);
      assert forall i :: 1 <= i < |messages| ==> messages[i] == messages[1..][i - 1];
    }
  }

  // ----- Fresh ids are distinct -----

  lemma CallIdTail(index: nat, position: nat)
    ensures CallId(index, position)[|"call_"|..] == NatText(index) + ['_'] + NatText(position)
  {
  }

  lemma CallIdInjective(i: nat, p: nat, j: nat, q: nat)
    requires CallId(i, p) == CallId(j, q)
    ensures i == j && p == q
  {
    var a, b := NatText(i) + ['_'] + NatText(p), NatText(j) + ['_'] + NatText(q);
    CallIdTail(i, p);
    CallIdTail(j, q);
    IndexAfter(NatText(i), '_', NatText(p));
    IndexAfter(NatText(j), '_', NatText(q));
    assert NatText(i) == a[..|NatText(i)|] && NatText(j) == b[..|NatText(j)|];
    assert NatText(p) == a[|NatText(i)| + 1..] && NatText(q) == b[|NatText(j)| + 1..];
    NatTextInjective(i, j);
    NatTextInjective(p, q);
  }

  predicate IdFreeMessage(m: Message) {
    match m
    case Assistant(_, calls) => forall k :: 0 <= k < |calls| ==> calls[k].id == ""
    case ToolResult(id, _) => id == ""
    case _ => true
  }

  /** What the ollama client sends: no ids anywhere. */
  predicate IdFree(messages: seq<Message>) {
    forall i :: 0 <= i < |messages| ==> IdFreeMessage(messages[i])
  }

  function CallIdsOf(m: Message): seq<string> {
    if m.Assistant? then Ids(m.toolCalls) else []
  }

  function AllCallIds(messages: seq<Message>): seq<string> {
    if messages == [] then [] else CallIdsOf(messages[0]) + AllCallIds(messages[1..])
  }

  ghost predicate MadeFrom(id: string, index: nat) {
    exists i: nat, p: nat :: i >= index && id == CallId(i, p)
  }

  lemma StepIds(m: Message, index: nat, pending: seq<string>)
    requires IdFreeMessage(m)
    ensures var ids := CallIdsOf(Step(m, index, pending).0);
            forall k :: 0 <= k < |ids| ==> ids[k] == CallId(index, k)
  {
  }

  ghost predicate AllMadeFrom(ids: seq<string>, index: nat) {
    forall k :: 0 <= k < |ids| ==> MadeFrom(ids[k], index)
  }

  ghost predicate Distinct(ids: seq<string>) {
    forall j, k :: 0 <= j < k < |ids| ==> ids[j] != ids[k]
  }

  lemma AppendIds(first: seq<string>, later: seq<string>, index: nat)
    requires forall k :: 0 <= k < |first| ==> first[k] == CallId(index, k)
    requires AllMadeFrom(later, index + 1) && Distinct(later)
    ensures AllMadeFrom(first + later, index) && Distinct(first + later)
  {
    var ids := first + later;
    forall k | 0 <= k < |ids| ensures MadeFrom(ids[k], index) {
      if k >= |first| {
        assert MadeFrom(later[k - |first|], index + 1);
      }
    }
    forall j, k | 0 <= j < k < |ids| ensures ids[j] != ids[k] {
      DistinctAcross(first, later, index, j, k);
    }
  }

  lemma DistinctAcross(first: seq<string>, later: seq<string>, index: nat, j: nat, k: nat)
    requires forall k :: 0 <= k < |first| ==> first[k] == CallId(index, k)
    requires AllMadeFrom(later, index + 1) && Distinct(later)
    requires j < k < |first + later|
    ensures (first + later)[j] != (first + later)[k]
  {
    if k < |first| {
      if CallId(index, j) == CallId(index, k) {
        CallIdInjective(index, j, index, k);
      }
    } else if j < |first| {
      assert MadeFrom(later[k - |first|], index + 1);
      var i: nat, p: nat :| i >= index + 1 && later[k - |first|] == CallId(i, p);
      if CallId(index, j) == CallId(i, p) {
        CallIdInjective(index, j, i, p);
      }
    }
  }

  /** In an id-free history every call gets an id of its own. */
  lemma {:induction false} FreshIdsAreDistinct(messages: seq<Message>, index: nat, pending: seq<string>)
    requires IdFree(messages)
    ensures AllMadeFrom(AllCallIds(Paired(messages, index, pending)), index)
    ensures Distinct(AllCallIds(Paired(messages, index, pending)))
  {
    if messages != [] {
      var (m, rest) := Step(messages[0], index, pending);
      var later := Paired(messages[1..], index + 1, rest);
      StepIds(messages[0], index, pending);
      FreshIdsAreDistinct(messages[1..], index + 1, rest);
      AppendIds(CallIdsOf(m), AllCallIds(later), index);
      assert Paired(messages, index, pending) == [m] + later;
      assert ([m] + later)[1..] == later;
    }
  }

  // ----- The j-th result answers the j-th call -----

  predicate ResultsFollow(messages: seq<Message>, k: nat) {
    k < |messages| && forall j :: 1 <= j <= k ==> messages[j].ToolResult?
  }

  /** Each assistant message with k calls is followed by k tool messages, and there are no others. */
  predicate Followed(messages: seq<Message>) {
    messages == [] ||
    (match messages[0]
     case Assistant(_, calls) => ResultsFollow(messages, |calls|) && Followed(messages[1 + |calls|..])
     case ToolResult(_, _) => false
     case _ => Followed(messages[1..]))
  }

  /** The same, with the j-th of those tool messages carrying the j-th call's id. */
  predicate Matched(messages: seq<Message>) {
    messages == [] ||
    (match messages[0]
     case Assistant(_, calls) =>
       && ResultsFollow(messages, |calls|)
       && (forall j :: 0 <= j < |calls| ==> messages[1 + j].toolCallId == calls[j].id)
       && Matched(messages[1 + |calls|..])
     case ToolResult(_, _) => false
     case _ => Matched(messages[1..]))
  }

  function Answering(results: seq<Message>, ids: seq<string>): (r: seq<Message>)
    requires |results| == |ids| && forall j :: 0 <= j < |results| ==> results[j].ToolResult?
    ensures |r| == |results|
    ensures forall j :: 0 <= j < |r| ==> r[j] == ToolResult(ids[j], results[j].content)
  {
    seq(|results|, j requires 0 <= j < |results| => ToolResult(ids[j], results[j].content))
  }

  /** Results without ids use up the pending ids in order. */
  lemma {:induction false} ResultsTakeIds(results: seq<Message>, rest: seq<Message>, index: nat, pending: seq<string>)
    requires |results| == |pending| && forall j :: 0 <= j < |results| ==> results[j].ToolResult? && results[j].toolCallId == ""
    ensures Paired(results + rest, index, pending) == Answering(results, pending) + Paired(rest, index + |results|, [])
  {
    if results == [] {
      assert results + rest == rest;
    } else {
      assert (results + rest)[1..] == results[1..] + rest;
      ResultsTakeIds(results[1..], rest, index + 1, pending[1..]);
      assert Step(results[0], index, pending) == (ToolResult(pending[0], results[0].content), pending[1..]);
      assert Answering(results, pending) == [ToolResult(pending[0], results[0].content)] + Answering(results[1..], pending[1..]);
    }
  }

  lemma TailSplits(messages: seq<Message>, k: nat)
    requires k < |messages|
    ensures messages[1..] == messages[1..1 + k] + messages[1 + k..]
  {
  }

  lemma SegmentPaired(messages: seq<Message>, index: nat)
    requires messages != [] && messages[0].Assistant? && IdFree(messages)
    requires ResultsFollow(messages, |messages[0].toolCalls|)
    ensures var k := |messages[0].toolCalls|;
            var named := NamedCalls(messages[0].toolCalls, index);
            Paired(messages, index, []) == [Assistant(messages[0].content, named)]
              + (Answering(messages[1..1 + k], Ids(named)) + Paired(messages[1 + k..], index + 1 + k, []))
  {
    var k := |messages[0].toolCalls|;
    var named := NamedCalls(messages[0].toolCalls, index);
    var results, rest := messages[1..1 + k], messages[1 + k..];
    TailSplits(messages, k);
    forall j | 0 <= j < k ensures results[j].ToolResult? && results[j].toolCallId == "" {
      assert IdFreeMessage(messages[1 + j]);
    }
    NamesCalls(messages[0], index);
    ResultsTakeIds(results, rest, index + 1, Ids(named));
    PairedStep(messages, 0, index, []);
    assert messages[0..] == messages;
  }

  lemma NamesCalls(m: Message, index: nat)
    requires m.Assistant?
    ensures var named := NamedCalls(m.toolCalls, index);
            Step(m, index, []) == (Assistant(m.content, named), Ids(named))
  {
    if m.toolCalls == [] {
      assert NamedCalls(m.toolCalls, index) == [];
    }
  }

  /** In an id-free history whose calls are all answered, every result carries its own call's id. */
  lemma {:induction false} PairingMatches(messages: seq<Message>, index: nat)
    requires IdFree(messages) && Followed(messages)
    ensures Matched(Paired(messages, index, []))
    decreases |messages|
  {
    if messages != [] {
      if messages[0].Assistant? {
        PairingMatches(messages[1 + |messages[0].toolCalls|..], index + 1 + |messages[0].toolCalls|);
        AssistantMatches(messages, index);
      } else {
        PairingMatches(messages[1..], index + 1);
        MatchedPlain(messages[0], Paired(messages[1..], index + 1, []));
      }
    }
  }

  lemma AssistantMatches(messages: seq<Message>, index: nat)
    requires messages != [] && messages[0].Assistant? && IdFree(messages)
    requires ResultsFollow(messages, |messages[0].toolCalls|)
    requires var k := |messages[0].toolCalls|; Matched(Paired(messages[1 + k..], index + 1 + k, []))
    ensures Matched(Paired(messages, index, []))
  {
    var k := |messages[0].toolCalls|;
    SegmentPaired(messages, index);
    MatchedSegment(messages[0].content, NamedCalls(messages[0].toolCalls, index), messages[1..1 + k],
                   Paired(messages[1 + k..], index + 1 + k, []));
  }

  lemma MatchedPlain(m: Message, rest: seq<Message>)
    requires !m.Assistant? && !m.ToolResult? && Matched(rest)
    ensures Matched([m] + rest)
  {
    assert ([m] + rest)[1..] == rest;
  }

  lemma MatchedSegment(content: string, calls: seq<ToolCall>, results: seq<Message>, rest: seq<Message>)
    requires |results| == |calls| && Matched(rest)
    requires forall j :: 0 <= j < |results| ==> results[j].ToolResult?
    ensures Matched([Assistant(content, calls)] + (Answering(results, Ids(calls)) + rest))
  {
    var answers := Answering(results, Ids(calls));
    var ps := [Assistant(content, calls)] + (answers + rest);
    forall j | 1 <= j <= |calls| ensures ps[j].ToolResult? && ps[j].toolCallId == calls[j - 1].id {
      assert ps[j] == answers[j - 1];
    }
    assert ps[1 + |calls|..] == rest;
  }

  // ----- Any history: a result without an id answers the oldest call still open -----

  /** The ids less those taken; of equal ids the earlier ones go first. */
  function Without(ids: seq<string>, taken: multiset<string>): seq<string> {
    if ids == [] then []
    else if ids[0] in taken then Without(ids[1..], taken - multiset{ids[0]})
    else [ids[0]] + Without(ids[1..], taken)
  }

  /** The ids of the last calls made, and of the results that have come since. */
  function LastCallIds(history: seq<Message>): seq<string> {
    if history == [] then []
    else if CallIdsOf(history[|history| - 1]) != [] then CallIdsOf(history[|history| - 1])
    else LastCallIds(history[..|history| - 1])
  }

  function ResultIdsSince(history: seq<Message>): multiset<string> {
    if history == [] || CallIdsOf(history[|history| - 1]) != [] then multiset{}
    else
      ResultIdsSince(history[..|history| - 1])
      + (if history[|history| - 1].ToolResult? then multiset{history[|history| - 1].toolCallId} else multiset{})
  }

  /** The calls no result has answered yet, oldest first. */
  function OpenCalls(history: seq<Message>): seq<string> {
    Without(LastCallIds(history), ResultIdsSince(history))
  }

  lemma {:induction false} RemoveTaken(ids: seq<string>, taken: multiset<string>, id: string)
    ensures Remove(Without(ids, taken), id) == Without(ids, taken + multiset{id})
  {
    if ids != [] {
      if ids[0] in taken {
        RemoveTaken(ids[1..], taken - multiset{ids[0]}, id);
        assert taken + multiset{id} - multiset{ids[0]} == taken - multiset{ids[0]} + multiset{id};
      } else {
        RemoveTaken(ids[1..], taken, id);
        assert id == ids[0] ==> taken + multiset{id} - multiset{ids[0]} == taken;
      }
    }
  }

  lemma {:induction false} NoneTaken(ids: seq<string>)
    ensures Without(ids, multiset{}) == ids
  {
    if ids != [] {
      NoneTaken(ids[1..]);
    }
  }

  lemma StepOpens(before: seq<Message>, m: Message, index: nat)
    ensures var (m', rest) := Step(m, index, OpenCalls(before)); rest == OpenCalls(before + [m'])
  {
    var (m', rest) := Step(m, index, OpenCalls(before));
    assert (before + [m'])[..|before + [m']| - 1] == before;
    assert ResultIdsSince(before) + multiset{} == ResultIdsSince(before);
    match m {
      case Assistant(_, calls) =>
        if calls != [] {
          NoneTaken(Ids(NamedCalls(calls, index)));
          assert CallIdsOf(m') == rest != [];
        } else {
          assert CallIdsOf(m') == [];
        }
      case ToolResult(_, _) => RemoveTaken(LastCallIds(before), ResultIdsSince(before), m'.toolCallId);
      case _ =>
    }
  }

  /** The id a result without one gets. */
  function OldestOpen(history: seq<Message>): string {
    if OpenCalls(history) == [] then "" else OpenCalls(history)[0]
  }

  /** The i-th message, a result, comes out with the id that is due to it. */
  ghost predicate AnswersOldest(before: seq<Message>, paired: seq<Message>, i: nat, content: string)
    requires i < |paired|
  {
    paired[i] == ToolResult(OldestOpen(before + paired[..i]), content)
  }

  lemma {:induction false} AnswersOldestAfter(before: seq<Message>, messages: seq<Message>, index: nat, i: nat)
    requires i < |messages| && messages[i].ToolResult? && messages[i].toolCallId == ""
    ensures |Paired(messages, index, OpenCalls(before))| == |messages|
    ensures AnswersOldest(before, Paired(messages, index, OpenCalls(before)), i, messages[i].content)
    decreases |messages|
  {
    var (m, open) := Step(messages[0], index, OpenCalls(before));
    StepOpens(before, messages[0], index);
    var rest := Paired(messages[1..], index + 1, open);
    PairingKeepsMessages(messages[1..], index + 1, open);
    assert Paired(messages, index, OpenCalls(before)) == [m] + rest;
    if i == 0 {
      assert before + ([m] + rest)[..0] == before;
    } else {
      AnswersOldestAfter(before + [m], messages[1..], index + 1, i - 1);
      OneFurther(before, m, rest, i, messages[i].content);
    }
  }

  lemma OneFurther(before: seq<Message>, m: Message, rest: seq<Message>, i: nat, content: string)
    requires 0 < i <= |rest| && AnswersOldest(before + [m], rest, i - 1, content)
    ensures AnswersOldest(before, [m] + rest, i, content)
  {
    assert ([m] + rest)[..i] == [m] + rest[..i - 1];
    assert before + ([m] + rest[..i - 1]) == (before + [m]) + rest[..i - 1];
  }

  /**
   * In any history, whichever of its calls and results come with ids: a result without one gets the id
   * of the oldest of the last calls that no result before it carries, or stays without.
   */
  lemma ResultsAnswerOldest(messages: seq<Message>, i: nat)
    requires i < |messages| && messages[i].ToolResult? && messages[i].toolCallId == ""
    ensures |Paired(messages, 0, [])| == |messages|
    ensures Paired(messages, 0, [])[i] == ToolResult(OldestOpen(Paired(messages, 0, [])[..i]), messages[i].content)
  {
    AnswersOldestAfter([], messages, 0, i);
    assert [] + Paired(messages, 0, [])[..i] == Paired(messages, 0, [])[..i];
  }

  /** A made-up id is the word call, the message's position and the call's, with underscores between them. */
  lemma CallIdParts(index: nat, position: nat)
    ensures Split(CallId(index, position), '_', None) == ["call", NatText(index), NatText(position)]
  {
    var parts := ["call", NatText(index), NatText(position)];
    assert parts[1..][1..] == [NatText(position)];
    assert Join(parts[1..], '_') == NatText(index) + ['_'] + NatText(position);
    assert CallId(index, position) == Join(parts, '_');
    assert '_' !in "call";
    SplitJoin(parts, '_', None);
  }
}
