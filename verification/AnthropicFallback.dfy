/** The message list of a Claude request: tool calls and results as content blocks, same-role messages merged. */
module AnthropicFallback {
  import opened Options
  import opened ToolCallIds

  datatype Role = FromUser | FromAssistant

  /** Arguments stay as the text they came as; decoding them is not modelled. */
  datatype Block =
    | Text(text: string)
    | ToolUse(id: string, name: string, input: string)
    | Result(toolUseId: string, content: string)

  datatype Turn = Turn(role: Role, blocks: seq<Block>)

  // ----- Specification -----

  function Opposite(role: Role): Role {
    if role == FromUser then FromAssistant else FromUser
  }

  function TextBlocks(content: string): seq<Block> {
    if content == "" then [] else [Text(content)]
  }

  function UseBlock(call: ToolCall): Block {
    ToolUse(if call.id != "" then call.id else "call", call.name, call.arguments)
  }

  function UseBlocks(calls: seq<ToolCall>): (r: seq<Block>)
    ensures |r| == |calls|
    ensures forall k :: 0 <= k < |r| ==> r[k] == UseBlock(calls[k])
  {
    seq(|calls|, k requires 0 <= k < |calls| => UseBlock(calls[k]))
  }

  /** A message's blocks; a system message has none, its text goes elsewhere. */
  function BlocksOf(m: Message): seq<Block> {
    match m
    case System(_) => []
    case User(content) => TextBlocks(content)
    case Assistant(content, calls) => TextBlocks(content) + UseBlocks(calls)
    case ToolResult(id, content) => [Result(id, content)]
  }

  function RoleOf(m: Message): Role {
    if m.Assistant? then FromAssistant else FromUser
  }

  function Append(turns: seq<Turn>, role: Role, blocks: seq<Block>): seq<Turn> {
    if blocks == [] then turns
    else if turns != [] && turns[|turns| - 1].role == role then
      turns[..|turns| - 1] + [Turn(role, turns[|turns| - 1].blocks + blocks)]
    else turns + [Turn(role, blocks)]
  }

  function AddAll(turns: seq<Turn>, messages: seq<Message>): seq<Turn>
    decreases |messages|
  {
    if messages == [] then turns
    else AddAll(Append(turns, RoleOf(messages[0]), BlocksOf(messages[0])), messages[1..])
  }

  function SystemParts(messages: seq<Message>): seq<string> {
    if messages == [] then []
    else SystemPart(messages[0]) + SystemParts(messages[1..])
  }

  // ----- The loop -----

  method AssistantBlocks(content: string, calls: seq<ToolCall>) returns (blocks: seq<Block>)
    ensures blocks == BlocksOf(Assistant(content, calls))
  {
    blocks := if content != "" then [Text(content)] else [];
    for k := 0 to |calls|
      invariant blocks == TextBlocks(content) + UseBlocks(calls)[..k]
    {
      blocks := blocks + [UseBlock(calls[k])];
    }
    assert UseBlocks(calls)[..|calls|] == UseBlocks(calls);
  }

  /** One message's blocks, joined to the last turn when it has the same role. */
  method AddMessage(turns: seq<Turn>, systemParts: seq<string>, message: Message)
    returns (turns': seq<Turn>, systemParts': seq<string>)
    ensures turns' == Append(turns, RoleOf(message), BlocksOf(message))
    ensures systemParts' == systemParts + SystemPart(message)
  {
    turns', systemParts' := turns, systemParts;
    match message {
      case System(content) =>
        if content != "" {
          systemParts' := systemParts' + [content];
        }
      case ToolResult(id, content) =>
        turns' := Append(turns', FromUser, [Result(id, content)]);
      case Assistant(content, calls) =>
        var blocks := AssistantBlocks(content, calls);
        turns' := Append(turns', FromAssistant, blocks);
      case User(content) =>
        if content != "" {
          turns' := Append(turns', FromUser, [Text(content)]);
        }
    }
  }

  method AnthropicMessages(messages: seq<Message>) returns (turns: seq<Turn>, systemParts: seq<string>)
    ensures turns == AddAll([], Paired(messages, 0, []))
    ensures systemParts == SystemParts(messages)
  {
    var paired := WithToolCallIds(messages);
    turns, systemParts := [], [];
    for i := 0 to |paired|
      invariant AddAll(turns, paired[i..]) == AddAll([], paired)
      invariant systemParts + SystemParts(paired[i..]) == SystemParts(paired)
    {
      TurnsStep(turns, paired, i);
      PartsStep(systemParts, paired, i);
      turns, systemParts := AddMessage(turns, systemParts, paired[i]);
    }
    PairingKeepsSystem(messages, 0, []);
  }

  function SystemPart(m: Message): seq<string> {
    if m.System? && m.content != "" then [m.content] else []
  }

  lemma TurnsStep(turns: seq<Turn>, paired: seq<Message>, i: nat)
    requires i < |paired|
    ensures AddAll(turns, paired[i..]) == AddAll(Append(turns, RoleOf(paired[i]), BlocksOf(paired[i])), paired[i + 1..])
  {
    assert paired[i..][1..] == paired[i + 1..];
  }

  lemma PartsStep(parts: seq<string>, paired: seq<Message>, i: nat)
    requires i < |paired|
    ensures parts + SystemParts(paired[i..]) == (parts + SystemPart(paired[i])) + SystemParts(paired[i + 1..])
  {
    assert paired[i..][1..] == paired[i + 1..];
    var own, rest := SystemPart(paired[i]), SystemParts(paired[i + 1..]);
    assert SystemParts(paired[i..]) == own + rest;
    assert parts + (own + rest) == (parts + own) + rest;
  }

  lemma {:induction false} PairingKeepsSystem(messages: seq<Message>, index: nat, pending: seq<string>)
    ensures SystemParts(Paired(messages, index, pending)) == SystemParts(messages)
  {
    if messages != [] {
      var (m, rest) := Step(messages[0], index, pending);
      var later := Paired(messages[1..], index + 1, rest);
      PairingKeepsSystem(messages[1..], index + 1, rest);
      assert ([m] + later)[1..] == later;
    }
  }

  // ----- Roles alternate, blocks stay in order -----

  ghost predicate Alternating(turns: seq<Turn>) {
    && (forall i :: 0 <= i < |turns| - 1 ==> turns[i + 1].role == Opposite(turns[i].role))
    && forall i :: 0 <= i < |turns| ==> turns[i].blocks != []
  }

  lemma {:induction false} RolesAlternate(turns: seq<Turn>, messages: seq<Message>)
    requires Alternating(turns)
    ensures Alternating(AddAll(turns, messages))
    decreases |messages|
  {
    if messages != [] {
      RolesAlternate(Append(turns, RoleOf(messages[0]), BlocksOf(messages[0])), messages[1..]);
    }
  }

  /** Every block with the role it is sent under, in order. */
  function Labelled(role: Role, blocks: seq<Block>): (r: seq<(Role, Block)>)
    ensures |r| == |blocks|
    ensures forall k :: 0 <= k < |r| ==> r[k] == (role, blocks[k])
  {
    seq(|blocks|, k requires 0 <= k < |blocks| => (role, blocks[k]))
  }

  function BlocksInTurns(turns: seq<Turn>): seq<(Role, Block)> {
    if turns == [] then []
    else BlocksInTurns(turns[..|turns| - 1]) + Labelled(turns[|turns| - 1].role, turns[|turns| - 1].blocks)
  }

  function BlocksInMessages(messages: seq<Message>): seq<(Role, Block)> {
    if messages == [] then [] else Labelled(RoleOf(messages[0]), BlocksOf(messages[0])) + BlocksInMessages(messages[1..])
  }

  lemma AppendKeepsBlocks(turns: seq<Turn>, role: Role, blocks: seq<Block>)
    ensures BlocksInTurns(Append(turns, role, blocks)) == BlocksInTurns(turns) + Labelled(role, blocks)
  {
    if blocks != [] {
      var after := Append(turns, role, blocks);
      if turns != [] && turns[|turns| - 1].role == role {
        var last := turns[|turns| - 1].blocks;
        assert after[..|after| - 1] == turns[..|turns| - 1];
        assert Labelled(role, last + blocks) == Labelled(role, last) + Labelled(role, blocks);
      } else {
        assert after[..|after| - 1] == turns;
      }
    }
  }

  /** Merging loses no block, adds none, and changes neither their order nor their role. */
  lemma {:induction false} BlocksKept(turns: seq<Turn>, messages: seq<Message>)
    ensures BlocksInTurns(AddAll(turns, messages)) == BlocksInTurns(turns) + BlocksInMessages(messages)
    decreases |messages|
  {
    if messages != [] {
      var m := messages[0];
      var turns' := Append(turns, RoleOf(m), BlocksOf(m));
      AppendKeepsBlocks(turns, RoleOf(m), BlocksOf(m));
      BlocksKept(turns', messages[1..]);
      assert BlocksInMessages(messages) == Labelled(RoleOf(m), BlocksOf(m)) + BlocksInMessages(messages[1..]);
    }
  }

  // ----- Reading the request back -----

  /** One thing said, called or answered in a conversation. */
  datatype Item =
    | Said(role: Role, text: string)
    | Called(role: Role, call: ToolCall)
    | Answer(role: Role, toolCallId: string, content: string)

  function ItemOf(sent: (Role, Block)): Item {
    match sent.1
    case Text(text) => Said(sent.0, text)
    case ToolUse(id, name, input) => Called(sent.0, ToolCall(id, name, input))
    case Result(id, content) => Answer(sent.0, id, content)
  }

  function ReadBack(sent: seq<(Role, Block)>): seq<Item> {
    if sent == [] then [] else [ItemOf(sent[0])] + ReadBack(sent[1..])
  }

  function CallItems(calls: seq<ToolCall>): seq<Item> {
    if calls == [] then [] else [Called(FromAssistant, calls[0])] + CallItems(calls[1..])
  }

  function SaidItems(role: Role, text: string): seq<Item> {
    if text == "" then [] else [Said(role, text)]
  }

  /** What a conversation says, calls and answers, in order, system messages aside. */
  function Items(messages: seq<Message>): seq<Item> {
    if messages == [] then []
    else
      var rest := Items(messages[1..]);
      match messages[0]
      case System(_) => rest
      case User(content) => SaidItems(FromUser, content) + rest
      case Assistant(content, calls) => SaidItems(FromAssistant, content) + CallItems(calls) + rest
      case ToolResult(id, content) => [Answer(FromUser, id, content)] + rest
  }

  lemma {:induction false} ReadBackConcat(a: seq<(Role, Block)>, b: seq<(Role, Block)>)
    ensures ReadBack(a + b) == ReadBack(a) + ReadBack(b)
  {
    if a == [] {
      assert a + b == b;
    } else {
      assert (a + b)[1..] == a[1..] + b;
      ReadBackConcat(a[1..], b);
    }
  }

  lemma {:induction false} ReadBackCalls(calls: seq<ToolCall>)
    requires forall k :: 0 <= k < |calls| ==> calls[k].id != ""
    ensures ReadBack(Labelled(FromAssistant, UseBlocks(calls))) == CallItems(calls)
  {
    if calls != [] {
      ReadBackCalls(calls[1..]);
      assert Labelled(FromAssistant, UseBlocks(calls))[1..] == Labelled(FromAssistant, UseBlocks(calls[1..]));
    }
  }

  lemma ReadBackText(role: Role, content: string)
    ensures ReadBack(Labelled(role, TextBlocks(content))) == SaidItems(role, content)
  {
    if content != "" {
      assert Labelled(role, TextBlocks(content)) == [(role, Text(content))];
      assert [(role, Text(content))][1..] == [];
    }
  }

  lemma {:induction false} ReadBackAssistant(content: string, calls: seq<ToolCall>)
    requires forall k :: 0 <= k < |calls| ==> calls[k].id != ""
    ensures ReadBack(Labelled(FromAssistant, BlocksOf(Assistant(content, calls))))
         == SaidItems(FromAssistant, content) + CallItems(calls)
  {
    var texts, uses := Labelled(FromAssistant, TextBlocks(content)), Labelled(FromAssistant, UseBlocks(calls));
    ReadBackText(FromAssistant, content);
    ReadBackCalls(calls);
    assert Labelled(FromAssistant, TextBlocks(content) + UseBlocks(calls)) == texts + uses;
    ReadBackConcat(texts, uses);
  }

  lemma ReadBackMessage(m: Message)
    requires m.Assistant? ==> forall k :: 0 <= k < |m.toolCalls| ==> m.toolCalls[k].id != ""
    ensures ReadBack(Labelled(RoleOf(m), BlocksOf(m))) == Items([m])
  {
    assert [m][1..] == [] && Items([]) == [];
    match m {
      case System(_) =>
      case User(content) => ReadBackText(FromUser, content);
      case Assistant(content, calls) => ReadBackAssistant(content, calls);
      case ToolResult(id, content) =>
        assert Labelled(FromUser, BlocksOf(m)) == [(FromUser, Result(id, content))];
        assert [(FromUser, Result(id, content))][1..] == [];
    }
  }

  lemma FirstItems(messages: seq<Message>)
    requires messages != []
    ensures Items(messages) == Items([messages[0]]) + Items(messages[1..])
  {
    assert [messages[0]][1..] == [] && Items([]) == [];
  }

  lemma {:induction false} ReadBackMessages(messages: seq<Message>)
    requires CallsHaveIds(messages)
    ensures ReadBack(BlocksInMessages(messages)) == Items(messages)
  {
    if messages != [] {
      var m, rest := messages[0], messages[1..];
      ReadBackMessage(m);
      ReadBackMessages(rest);
      ReadBackConcat(Labelled(RoleOf(m), BlocksOf(m)), BlocksInMessages(rest));
      FirstItems(messages);
    }
  }

  /**
   * Read back, the request says, calls and answers exactly what the paired conversation does, in the
   * same order, under the same roles, each call with its own id, name and arguments.
   */
  lemma RequestReadsBack(messages: seq<Message>)
    ensures var paired := Paired(messages, 0, []);
            ReadBack(BlocksInTurns(AddAll([], paired))) == Items(paired)
  {
    var paired := Paired(messages, 0, []);
    PairingKeepsMessages(messages, 0, []);
    forall i | 0 <= i < |paired| && paired[i].Assistant?
      ensures forall k :: 0 <= k < |paired[i].toolCalls| ==> paired[i].toolCalls[k].id != ""
    {
      assert SameButIds(messages[i], paired[i]);
    }
    BlocksKept([], paired);
    assert [] + BlocksInMessages(paired) == BlocksInMessages(paired);
    ReadBackMessages(paired);
  }

  /** And the system prompt is made of the system messages' texts, each as often as it comes. */
  lemma {:induction false} SystemPartsCount(messages: seq<Message>, text: string)
    ensures multiset(SystemParts(messages))[text] == if text == "" then 0 else multiset(messages)[System(text)]
  {
    if messages != [] {
      SystemPartsCount(messages[1..], text);
      assert messages == [messages[0]] + messages[1..];
    }
  }

  /** In their order. */
  lemma {:induction false} SystemPartsInOrder(a: seq<Message>, b: seq<Message>)
    ensures SystemParts(a + b) == SystemParts(a) + SystemParts(b)
  {
    if a == [] {
      assert a + b == b;
    } else {
      assert (a + b)[1..] == a[1..] + b;
      SystemPartsInOrder(a[1..], b);
    }
  }

  // ----- Every tool use is answered in the very next turn -----

  function UseId(block: Block): seq<string> {
    if block.ToolUse? then [block.id] else []
  }

  function ResultId(block: Block): seq<string> {
    if block.Result? then [block.toolUseId] else []
  }

  function UseIds(blocks: seq<Block>): seq<string> {
    if blocks == [] then [] else UseId(blocks[0]) + UseIds(blocks[1..])
  }

  function ResultIds(blocks: seq<Block>): seq<string> {
    if blocks == [] then [] else ResultId(blocks[0]) + ResultIds(blocks[1..])
  }

  lemma {:induction false} UseIdsConcat(a: seq<Block>, b: seq<Block>)
    ensures UseIds(a + b) == UseIds(a) + UseIds(b)
  {
    if a == [] {
      assert a + b == b;
    } else {
      assert (a + b)[1..] == a[1..] + b;
      UseIdsConcat(a[1..], b);
    }
  }

  lemma {:induction false} ResultIdsConcat(a: seq<Block>, b: seq<Block>)
    ensures ResultIds(a + b) == ResultIds(a) + ResultIds(b)
  {
    if a == [] {
      assert a + b == b;
    } else {
      assert (a + b)[1..] == a[1..] + b;
      ResultIdsConcat(a[1..], b);
    }
  }

  lemma IdsConcat(a: seq<Block>, b: seq<Block>)
    ensures UseIds(a + b) == UseIds(a) + UseIds(b)
    ensures ResultIds(a + b) == ResultIds(a) + ResultIds(b)
  {
    UseIdsConcat(a, b);
    ResultIdsConcat(a, b);
  }

  /** The results of turn i are those asked for in the turn before it: all of them, in order, and no others. */
  ghost predicate AnsweredAt(turns: seq<Turn>, i: nat)
    requires i < |turns|
  {
    ResultIds(turns[i].blocks) == if i == 0 then [] else UseIds(turns[i - 1].blocks)
  }

  /** Every turn's results answer the turn before, and nothing is left unanswered at the end. */
  ghost predicate Answered(turns: seq<Turn>) {
    && (forall i :: 0 <= i < |turns| ==> AnsweredAt(turns, i))
    && (turns != [] ==> UseIds(turns[|turns| - 1].blocks) == [])
  }

  /** Whether turn i is answered depends on its own results and on the turn before it. */
  lemma StillAnswered(turns: seq<Turn>, after: seq<Turn>, i: nat)
    requires i < |turns| && i < |after| && AnsweredAt(turns, i)
    requires i > 0 ==> after[i - 1] == turns[i - 1]
    requires ResultIds(after[i].blocks) == ResultIds(turns[i].blocks)
    ensures AnsweredAt(after, i)
  {
  }

  /** The ids of the turn that blocks end up in. */
  lemma AppendIds(turns: seq<Turn>, role: Role, blocks: seq<Block>)
    requires Answered(turns) && blocks != [] && ResultIds(blocks) == []
    ensures var after := Append(turns, role, blocks);
            && after != [] && after[|after| - 1].role == role
            && UseIds(after[|after| - 1].blocks) == UseIds(blocks)
            && forall i :: 0 <= i < |after| ==> AnsweredAt(after, i)
  {
    if turns != [] && turns[|turns| - 1].role == role {
      MergeIds(turns, blocks);
    } else {
      OpenIds(turns, Turn(role, blocks));
    }
  }

  lemma OpenIds(turns: seq<Turn>, turn: Turn)
    requires Answered(turns) && ResultIds(turn.blocks) == []
    ensures forall i :: 0 <= i <= |turns| ==> AnsweredAt(turns + [turn], i)
  {
    var after := turns + [turn];
    forall i | 0 <= i < |after| ensures AnsweredAt(after, i) {
      assert i > 0 ==> after[i - 1] == turns[i - 1];
      if i < |turns| {
        StillAnswered(turns, after, i);
      } else {
        assert after[i] == turn;
      }
    }
  }

  lemma MergeIds(turns: seq<Turn>, blocks: seq<Block>)
    requires Answered(turns) && turns != [] && ResultIds(blocks) == []
    ensures var last := |turns| - 1;
            var after := turns[..last] + [Turn(turns[last].role, turns[last].blocks + blocks)];
            && UseIds(after[last].blocks) == UseIds(blocks)
            && forall i :: 0 <= i < |after| ==> AnsweredAt(after, i)
  {
    var last := |turns| - 1;
    var merged := Turn(turns[last].role, turns[last].blocks + blocks);
    var after := turns[..last] + [merged];
    assert |after| == last + 1 && after[last] == merged;
    MergedIds(turns[last].blocks, blocks);
    forall i | 0 <= i < |after| ensures AnsweredAt(after, i) {
      assert i < last ==> after[i] == turns[i];
      assert i > 0 ==> after[i - 1] == turns[i - 1];
      StillAnswered(turns, after, i);
    }
  }

  lemma MergedIds(a: seq<Block>, b: seq<Block>)
    requires UseIds(a) == [] && ResultIds(b) == []
    ensures UseIds(a + b) == UseIds(b) && ResultIds(a + b) == ResultIds(a)
  {
    IdsConcat(a, b);
  }

  /** Plain text added to answered turns leaves them answered. */
  lemma TextStaysAnswered(turns: seq<Turn>, role: Role, blocks: seq<Block>)
    requires Answered(turns) && UseIds(blocks) == [] && ResultIds(blocks) == []
    ensures Answered(Append(turns, role, blocks))
  {
    if blocks != [] {
      AppendIds(turns, role, blocks);
    }
  }

  function ResultBlocks(results: seq<Message>): (r: seq<Block>)
    requires forall j :: 0 <= j < |results| ==> results[j].ToolResult?
    ensures |r| == |results|
  {
    if results == [] then [] else [Result(results[0].toolCallId, results[0].content)] + ResultBlocks(results[1..])
  }

  /** Tool results pile up in one user turn. */
  lemma {:induction false} ResultsMerge(turns: seq<Turn>, results: seq<Message>, rest: seq<Message>)
    requires turns != [] && turns[|turns| - 1].role == FromUser
    requires forall j :: 0 <= j < |results| ==> results[j].ToolResult?
    ensures AddAll(turns, results + rest) == AddAll(
              turns[..|turns| - 1] + [Turn(FromUser, turns[|turns| - 1].blocks + ResultBlocks(results))], rest)
    decreases |results|
  {
    var last := turns[|turns| - 1];
    if results == [] {
      assert results + rest == rest && last.blocks + [] == last.blocks;
      assert turns[..|turns| - 1] + [Turn(FromUser, last.blocks)] == turns;
    } else {
      var block := Result(results[0].toolCallId, results[0].content);
      var turns' := turns[..|turns| - 1] + [Turn(FromUser, last.blocks + [block])];
      assert (results + rest)[1..] == results[1..] + rest;
      ResultsMerge(turns', results[1..], rest);
      assert turns'[..|turns'| - 1] == turns[..|turns| - 1];
      assert last.blocks + [block] + ResultBlocks(results[1..]) == last.blocks + ResultBlocks(results);
    }
  }

  lemma ResultsOpenTurn(turns: seq<Turn>, results: seq<Message>, rest: seq<Message>)
    requires turns != [] && turns[|turns| - 1].role == FromAssistant && results != []
    requires forall j :: 0 <= j < |results| ==> results[j].ToolResult?
    ensures AddAll(turns, results + rest) == AddAll(turns + [Turn(FromUser, ResultBlocks(results))], rest)
  {
    var block := Result(results[0].toolCallId, results[0].content);
    var started := turns + [Turn(FromUser, [block])];
    assert (results + rest)[1..] == results[1..] + rest;
    ResultsMerge(started, results[1..], rest);
    assert started[..|started| - 1] == turns;
  }

  lemma {:induction false} ResultBlockIds(results: seq<Message>, ids: seq<string>)
    requires |results| == |ids|
    requires forall j :: 0 <= j < |results| ==> results[j].ToolResult? && results[j].toolCallId == ids[j]
    ensures ResultIds(ResultBlocks(results)) == ids && UseIds(ResultBlocks(results)) == []
  {
    if results != [] {
      ResultBlockIds(results[1..], ids[1..]);
      assert ResultBlocks(results)[1..] == ResultBlocks(results[1..]);
    }
  }

  lemma {:induction false} UseBlockIds(calls: seq<ToolCall>)
    requires forall k :: 0 <= k < |calls| ==> calls[k].id != ""
    ensures UseIds(UseBlocks(calls)) == Ids(calls) && ResultIds(UseBlocks(calls)) == []
  {
    if calls != [] {
      UseBlockIds(calls[1..]);
      assert UseBlocks(calls)[1..] == UseBlocks(calls[1..]);
      assert Ids(calls) == [calls[0].id] + Ids(calls[1..]);
    }
  }

  lemma TextIds(content: string)
    ensures UseIds(TextBlocks(content)) == [] && ResultIds(TextBlocks(content)) == []
  {
    if content != "" {
      assert [Text(content)][1..] == [];
    }
  }

  /** An assistant's calls and the results that follow them close over each other. */
  lemma CallsThenResults(turns: seq<Turn>, uses: seq<Block>, results: seq<Block>)
    requires Answered(turns) && uses != [] && ResultIds(uses) == []
    requires UseIds(results) == [] && ResultIds(results) == UseIds(uses)
    ensures Answered(Append(turns, FromAssistant, uses) + [Turn(FromUser, results)])
  {
    var asked := Append(turns, FromAssistant, uses);
    var after := asked + [Turn(FromUser, results)];
    AppendIds(turns, FromAssistant, uses);
    forall i | 0 <= i < |after| ensures AnsweredAt(after, i) {
      assert i > 0 ==> after[i - 1] == asked[i - 1];
      if i < |asked| {
        StillAnswered(asked, after, i);
      }
    }
  }

  predicate CallsHaveIds(messages: seq<Message>) {
    forall i :: 0 <= i < |messages| && messages[i].Assistant? ==>
      forall k :: 0 <= k < |messages[i].toolCalls| ==> messages[i].toolCalls[k].id != ""
  }

  /** A history whose results carry their calls' ids becomes turns in which every use is answered at once. */
  lemma {:induction false} MatchedIsAnswered(turns: seq<Turn>, messages: seq<Message>)
    requires Answered(turns) && Matched(messages) && CallsHaveIds(messages)
    ensures Answered(AddAll(turns, messages))
    decreases |messages|
  {
    if messages != [] {
      var m := messages[0];
      if m.Assistant? && m.toolCalls != [] {
        var turns' := CallsSegment(turns, messages);
        MatchedIsAnswered(turns', messages[1 + |m.toolCalls|..]);
      } else {
        PlainSegment(turns, messages);
        MatchedIsAnswered(Append(turns, RoleOf(m), BlocksOf(m)), messages[1..]);
      }
    }
  }

  lemma PlainSegment(turns: seq<Turn>, messages: seq<Message>)
    requires messages != [] && !(messages[0].Assistant? && messages[0].toolCalls != [])
    requires Answered(turns) && Matched(messages) && CallsHaveIds(messages)
    ensures Answered(Append(turns, RoleOf(messages[0]), BlocksOf(messages[0])))
    ensures Matched(messages[1..]) && CallsHaveIds(messages[1..])
  {
    var m := messages[0];
    TextIds(m.content);
    assert m.Assistant? ==> BlocksOf(m) == TextBlocks(m.content);
    TextStaysAnswered(turns, RoleOf(m), BlocksOf(m));
  }

  lemma CallsSegment(turns: seq<Turn>, messages: seq<Message>) returns (turns': seq<Turn>)
    requires messages != [] && messages[0].Assistant? && messages[0].toolCalls != []
    requires Answered(turns) && Matched(messages) && CallsHaveIds(messages)
    ensures Answered(turns') && AddAll(turns, messages) == AddAll(turns', messages[1 + |messages[0].toolCalls|..])
    ensures var rest := messages[1 + |messages[0].toolCalls|..]; Matched(rest) && CallsHaveIds(rest)
  {
    var m := messages[0];
    var k := |m.toolCalls|;
    var results, rest := messages[1..1 + k], messages[1 + k..];
    turns' := CallsAnswered(turns, m, results);
    TailSplits(messages, k);
    ResultsOpenTurn(Append(turns, FromAssistant, BlocksOf(m)), results, rest);
  }

  lemma CallsAnswered(turns: seq<Turn>, m: Message, results: seq<Message>) returns (turns': seq<Turn>)
    requires Answered(turns) && m.Assistant? && m.toolCalls != [] && |results| == |m.toolCalls|
    requires forall k :: 0 <= k < |m.toolCalls| ==> m.toolCalls[k].id != ""
    requires forall j :: 0 <= j < |results| ==> results[j].ToolResult? && results[j].toolCallId == m.toolCalls[j].id
    ensures var called := Append(turns, FromAssistant, BlocksOf(m));
            && called != [] && called[|called| - 1].role == FromAssistant
            && turns' == called + [Turn(FromUser, ResultBlocks(results))] && Answered(turns')
  {
    turns' := Append(turns, FromAssistant, BlocksOf(m)) + [Turn(FromUser, ResultBlocks(results))];
    AssistantIds(m.content, m.toolCalls);
    ResultBlockIds(results, Ids(m.toolCalls));
    CallsThenResults(turns, BlocksOf(m), ResultBlocks(results));
  }

  lemma AssistantIds(content: string, calls: seq<ToolCall>)
    requires calls != [] && forall k :: 0 <= k < |calls| ==> calls[k].id != ""
    ensures var blocks := BlocksOf(Assistant(content, calls));
            blocks != [] && UseIds(blocks) == Ids(calls) && ResultIds(blocks) == []
  {
    UseBlockIds(calls);
    TextIds(content);
    IdsConcat(TextBlocks(content), UseBlocks(calls));
  }

  /**
   * For what the ollama client sends, an id-free history with every call answered: roles alternate,
   * and each assistant turn's tool uses are answered, in order, by the very next user turn.
   */
  lemma RequestIsWellFormed(messages: seq<Message>)
    requires IdFree(messages) && Followed(messages)
    ensures var turns := AddAll([], Paired(messages, 0, []));
            && Alternating(turns) && Answered(turns)
            && forall i :: 0 <= i < |turns| && UseIds(turns[i].blocks) != [] ==>
                 && turns[i].role == FromAssistant && i + 1 < |turns| && turns[i + 1].role == FromUser
                 && ResultIds(turns[i + 1].blocks) == UseIds(turns[i].blocks)
  {
    var paired := Paired(messages, 0, []);
    var turns := AddAll([], paired);
    RolesAlternate([], paired);
    PairingMatches(messages, 0);
    PairingKeepsMessages(messages, 0, []);
    MatchedIsAnswered([], paired);
    UsesComeFromAssistants([], paired);
    forall i | 0 <= i < |turns| && UseIds(turns[i].blocks) != []
      ensures turns[i].role == FromAssistant && i + 1 < |turns| && turns[i + 1].role == FromUser
              && ResultIds(turns[i + 1].blocks) == UseIds(turns[i].blocks)
    {
      assert i + 1 < |turns| ==> AnsweredAt(turns, i + 1);
    }
  }

  ghost predicate UsesFromAssistants(turns: seq<Turn>) {
    forall i :: 0 <= i < |turns| && turns[i].role == FromUser ==> UseIds(turns[i].blocks) == []
  }

  lemma {:induction false} UsesComeFromAssistants(turns: seq<Turn>, messages: seq<Message>)
    requires UsesFromAssistants(turns)
    ensures UsesFromAssistants(AddAll(turns, messages))
    decreases |messages|
  {
    if messages != [] {
      AppendUses(turns, messages[0]);
      UsesComeFromAssistants(Append(turns, RoleOf(messages[0]), BlocksOf(messages[0])), messages[1..]);
    }
  }

  lemma AppendUses(turns: seq<Turn>, m: Message)
    requires UsesFromAssistants(turns)
    ensures UsesFromAssistants(Append(turns, RoleOf(m), BlocksOf(m)))
  {
    if !m.Assistant? {
      TextIds(m.content);
      assert m.ToolResult? ==> BlocksOf(m)[1..] == [];
      if turns != [] {
        IdsConcat(turns[|turns| - 1].blocks, BlocksOf(m));
      }
    }
  }
}
