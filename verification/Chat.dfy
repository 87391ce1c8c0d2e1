/** The chat tool loop (frigate/api/chat.py), written twice in the source: once for clients that stream and
    once for those that do not.  Both are proved against one protocol.

    The language model and the tools are scripts: for every call of the model the stream of events it
    yields (or its one reply), and with each reply how each of its tool calls turned out. */
module Chat {
  import opened Common

  datatype Role = SystemRole | UserRole | AssistantRole | ToolRole

  datatype Call = Call(id: string, name: string, arguments: string)

  datatype Message = Message(role: Role, content: Option<string>, toolCallId: Option<string>, name: Option<string>,
                             calls: Option<seq<Call>>, image: Option<string>)
  {
    predicate RequestsTools() { calls.Some? && calls.value != [] }
  }

  /** How a tool call turned out.  The live image a result carries is set aside before the result is
      serialized, so that it may be there even when that raises. */
  datatype ToolOutcome = Returned(content: string, image: Option<string>) | Raised(error: string, image: Option<string>)

  datatype Turn = Turn(content: Option<string>, calls: seq<Call>, error: bool, outcomes: seq<ToolOutcome>) {
    predicate Valid() { |outcomes| == |calls| }
  }

  // ---------------------------------------------------------------- messages of one turn

  function Plain(role: Role, content: Option<string>): Message {
    Message(role, content, None, None, None, None)
  }

  /** The assistant's message as appended to the conversation: tool calls only when there are any. */
  function AssistantMessage(content: Option<string>, calls: seq<Call>): Message {
    Plain(AssistantRole, content).(calls := if calls == [] then None else Some(calls))
  }

  function ToolContent(outcome: ToolOutcome): string {
    match outcome
    case Returned(content, _) => content
    case Raised(error, _) => "Tool execution failed: " + error
  }

  function ToolMessage(call: Call, outcome: ToolOutcome): Message {
    Plain(ToolRole, Some(ToolContent(outcome))).(toolCallId := Some(call.id))
  }

  function ImageMessage(url: string): Message {
    Plain(UserRole, Some("Here is the current live image.")).(image := Some(url))
  }

  function Results(turn: Turn, n: nat): (out: seq<Message>)
    requires turn.Valid() && n <= |turn.calls|
    ensures |out| == n
    ensures forall j :: 0 <= j < n ==> out[j] == ToolMessage(turn.calls[j], turn.outcomes[j])
  {
    if n == 0 then [] else Results(turn, n - 1) + [ToolMessage(turn.calls[n - 1], turn.outcomes[n - 1])]
  }

  function Extras(turn: Turn, n: nat): (out: seq<Message>)
    requires turn.Valid() && n <= |turn.calls|
    ensures forall m :: m in out ==> m.role.UserRole? && m.calls.None?
  {
    if n == 0 then []
    else Extras(turn, n - 1)
         + if turn.outcomes[n - 1].image.Some? then [ImageMessage(turn.outcomes[n - 1].image.value)] else []
  }

  /** What a tool turn adds: the request, one result per call, then the images. */
  function TurnMessages(turn: Turn): seq<Message>
    requires turn.Valid()
  {
    [AssistantMessage(turn.content, turn.calls)] + Results(turn, |turn.calls|) + Extras(turn, |turn.calls|)
  }

  /** Executes a list of tool calls; a tool that raises still yields its one result. */
  method ExecutePendingTools(turn: Turn) returns (results: seq<Message>, extras: seq<Message>)
    requires turn.Valid()
    ensures results == Results(turn, |turn.calls|) && extras == Extras(turn, |turn.calls|)
  {
    results, extras := [], [];
    for i := 0 to |turn.calls|
      invariant results == Results(turn, i) && extras == Extras(turn, i)
    {
      var outcome := turn.outcomes[i];
      if outcome.image.Some? {
        extras := extras + [ImageMessage(outcome.image.value)];
      }
      match outcome
      case Returned(content, _) =>
        results := results + [Plain(ToolRole, Some(content)).(toolCallId := Some(turn.calls[i].id))];
      case Raised(error, _) =>
        results := results
          + [Plain(ToolRole, Some("Tool execution failed: " + error)).(toolCallId := Some(turn.calls[i].id))];
    }
  }

  /** Appends the request, runs the tools, and appends what they returned. */
  method AppendTurn(conversation: seq<Message>, turn: Turn) returns (longer: seq<Message>)
    requires turn.Valid()
    ensures longer == conversation + TurnMessages(turn)
  {
    longer := conversation + [AssistantMessage(turn.content, turn.calls)];
    var results, extras := ExecutePendingTools(turn);
    longer := longer + results;
    longer := longer + extras;
  }

  // ---------------------------------------------------------------- the protocol

  /** Where a conversation ends up: answered, out of tool turns, failed, or cut short by the client. */
  datatype Ending = Answered | LimitReached | Failed | CutShort

  datatype Outcome = Outcome(messages: seq<Message>, ending: Ending)

  predicate AllValid(turns: seq<Turn>) { forall t :: t in turns ==> t.Valid() }

  function Converse(conversation: seq<Message>, budget: nat, turns: seq<Turn>): Outcome
    requires AllValid(turns)
    decreases turns
  {
    if budget == 0 then Outcome(conversation, LimitReached)
    else if turns == [] then Outcome(conversation, CutShort)
    else if turns[0].error then Outcome(conversation, Failed)
    else if turns[0].calls == [] then Outcome(conversation + [AssistantMessage(turns[0].content, [])], Answered)
    else Converse(conversation + TurnMessages(turns[0]), budget - 1, turns[1..])
  }

  /** The conversations shown to a streaming client, after those in `shown`: one after every tool turn, and
      one at the end. */
  function Snapshots(shown: seq<seq<Message>>, conversation: seq<Message>, budget: nat, turns: seq<Turn>)
    : seq<seq<Message>>
    requires AllValid(turns)
    decreases turns
  {
    if budget == 0 then shown + [conversation]
    else if turns == [] || turns[0].error then shown
    else if turns[0].calls == [] then shown + [conversation + [AssistantMessage(turns[0].content, [])]]
    else
      var next := conversation + TurnMessages(turns[0]);
      Snapshots(shown + [next], next, budget - 1, turns[1..])
  }

  // ---------------------------------------------------------------- the loop without streaming

  /** The response: the full chain when the conversation ended well. */
  datatype Response =
    | Completed(messages: seq<Message>, toolIterations: nat)
    | LengthLimit(messages: seq<Message>, toolIterations: nat)
    | ServerError
    | Abandoned(messages: seq<Message>)

  predicate Reports(response: Response, outcome: Outcome) {
    match outcome.ending
    case Answered => response.Completed? && response.messages == outcome.messages
    case LimitReached => response.LengthLimit? && response.messages == outcome.messages
    case Failed => response.ServerError?
    case CutShort => response == Abandoned(outcome.messages)
  }

  /** How many of the replies acted on ask for tools. */
  function ToolReplies(budget: nat, turns: seq<Turn>): nat
    decreases turns
  {
    if budget == 0 || turns == [] || turns[0].error || turns[0].calls == [] then 0
    else 1 + ToolReplies(budget - 1, turns[1..])
  }

  method CompletionLoop(initial: seq<Message>, maxIterations: nat, replies: seq<Turn>) returns (response: Response)
    requires AllValid(replies)
    ensures Reports(response, Converse(initial, maxIterations, replies))
    ensures response.Completed? || response.LengthLimit? ==>
              response.toolIterations == ToolReplies(maxIterations, replies)
    ensures response.Completed? ==> response.toolIterations < maxIterations
    ensures response.LengthLimit? ==> response.toolIterations == maxIterations
  {
    var conversation, toolIterations, rest := initial, 0, replies;
    while toolIterations < maxIterations
      invariant toolIterations <= maxIterations && AllValid(rest)
      invariant Converse(initial, maxIterations, replies)
                == Converse(conversation, maxIterations - toolIterations, rest)
      invariant toolIterations + ToolReplies(maxIterations - toolIterations, rest)
                == ToolReplies(maxIterations, replies)
      decreases |rest|, maxIterations - toolIterations
    {
      if rest == [] {
        return Abandoned(conversation);
      }
      var reply := rest[0];
      if reply.error {
        return ServerError;
      }
      if reply.calls == [] {
        conversation := conversation + [AssistantMessage(reply.content, reply.calls)];
        return Completed(conversation, toolIterations);
      }
      toolIterations := toolIterations + 1;
      conversation := AppendTurn(conversation, reply);
      rest := rest[1..];
    }
    return LengthLimit(conversation, toolIterations);
  }

  // ---------------------------------------------------------------- the streaming loop

  /** What a stream yields.  `Gone` marks a point where the client is found to have disconnected, and
      `leaves` that it has left by the time the tools would run. */
  datatype Event = ContentDelta(delta: string) | ReasoningDelta(delta: string) | Stats | Gone
                 | Final(turn: Turn, leaves: bool)

  datatype Chunk = Content(delta: string) | Reasoning(delta: string) | StatsChunk | Chain(messages: seq<Message>)
                 | ErrorChunk | Done

  predicate ValidStream(events: seq<Event>) {
    forall e :: e in events && e.Final? ==> e.turn.Valid()
  }

  predicate ValidStreams(streams: seq<seq<Event>>) {
    forall s :: s in streams ==> ValidStream(s)
  }

  /** How a stream ends for the loop: with a reply, with the client gone, or without any reply. */
  datatype Heard = Replied(turn: Turn) | Hangup | Silence

  function Listen(events: seq<Event>): (h: Heard)
    requires ValidStream(events)
    ensures h.Replied? ==> h.turn.Valid()
  {
    if events == [] then Silence
    else if events[0].Gone? then Hangup
    else if events[0].Final? then
      if events[0].leaves && events[0].turn.calls != [] && !events[0].turn.error then Hangup
      else Replied(events[0].turn)
    else Listen(events[1..])
  }

  /** The replies the loop acts on: a stream without one is passed over, and a hangup ends the script. */
  function RepliesHeard(streams: seq<seq<Event>>): (turns: seq<Turn>)
    requires ValidStreams(streams)
    ensures AllValid(turns)
  {
    if streams == [] then []
    else
      match Listen(streams[0])
      case Hangup => []
      case Silence => RepliesHeard(streams[1..])
      case Replied(turn) => [turn] + RepliesHeard(streams[1..])
  }

  function Chains(chunks: seq<Chunk>): seq<seq<Message>> {
    if chunks == [] then []
    else Chains(chunks[..|chunks| - 1])
         + if chunks[|chunks| - 1].Chain? then [chunks[|chunks| - 1].messages] else []
  }

  lemma {:induction false} ChainsSnoc(chunks: seq<Chunk>, c: Chunk)
    ensures Chains(chunks + [c]) == Chains(chunks) + if c.Chain? then [c.messages] else []
  {
    assert (chunks + [c])[..|chunks|] == chunks;
  }

  /** The deltas of one stream passed on, after `sofar`, before the event that decides how it ends. */
  function PassOn(sofar: seq<Chunk>, events: seq<Event>): seq<Chunk>
    decreases events
  {
    if events == [] then sofar
    else
      match events[0]
      case ContentDelta(delta) => PassOn(sofar + [Content(delta)], events[1..])
      case ReasoningDelta(delta) => PassOn(sofar + [Reasoning(delta)], events[1..])
      case Stats => PassOn(sofar + [StatsChunk], events[1..])
      case _ => sofar
  }

  /** Everything the streaming loop sends after `sofar`. */
  function Transcript(sofar: seq<Chunk>, conversation: seq<Message>, budget: nat, streams: seq<seq<Event>>): seq<Chunk>
    requires ValidStreams(streams)
    decreases streams
  {
    if budget == 0 then sofar + [Chain(conversation)] + [Done]
    else if streams == [] then sofar
    else
      var chunks := PassOn(sofar, streams[0]);
      match Listen(streams[0])
      case Hangup => chunks
      case Silence => Transcript(chunks, conversation, budget, streams[1..])
      case Replied(turn) =>
        if turn.error then chunks + [ErrorChunk]
        else if turn.calls == [] then chunks + [Chain(conversation + [AssistantMessage(turn.content, [])])] + [Done]
        else
          var next := conversation + TurnMessages(turn);
          Transcript(chunks + [Chain(next)], next, budget - 1, streams[1..])
  }

  /** Passes on the deltas of one stream and reports how it ends. */
  method Forward(events: seq<Event>, sofar: seq<Chunk>) returns (heard: Heard, chunks: seq<Chunk>)
    requires ValidStream(events)
    ensures heard == Listen(events) && chunks == PassOn(sofar, events)
  {
    chunks := sofar;
    for i := 0 to |events|
      invariant Listen(events) == Listen(events[i..])
      invariant PassOn(sofar, events) == PassOn(chunks, events[i..])
    {
      match events[i] {
        case Gone =>
          return Hangup, chunks;
        case Final(turn, leaves) =>
          if leaves && turn.calls != [] && !turn.error {
            return Hangup, chunks;
          }
          return Replied(turn), chunks;
        case ContentDelta(delta) => chunks := chunks + [Content(delta)];
        case ReasoningDelta(delta) => chunks := chunks + [Reasoning(delta)];
        case Stats => chunks := chunks + [StatsChunk];
      }
    }
    return Silence, chunks;
  }

  method StreamLoop(initial: seq<Message>, maxIterations: nat, streams: seq<seq<Event>>) returns (chunks: seq<Chunk>)
    requires ValidStreams(streams)
    ensures chunks == Transcript([], initial, maxIterations, streams)
  {
    var conversation, streamIterations, rest := initial, 0, streams;
    chunks := [];
    while streamIterations < maxIterations
      invariant streamIterations <= maxIterations && ValidStreams(rest)
      invariant Transcript([], initial, maxIterations, streams)
                == Transcript(chunks, conversation, maxIterations - streamIterations, rest)
      decreases |rest|
    {
      if rest == [] {
        return;
      }
      var heard;
      heard, chunks := Forward(rest[0], chunks);
      rest := rest[1..];
      match heard {
        case Hangup =>
          return;
        case Silence =>
        case Replied(turn) =>
          if turn.error {
            return chunks + [ErrorChunk];
          }
          if turn.calls == [] {
            return chunks + [Chain(conversation + [Plain(AssistantRole, turn.content)])] + [Done];
          }
          streamIterations := streamIterations + 1;
          conversation := AppendTurn(conversation, turn);
          chunks := chunks + [Chain(conversation)];
      }
    }
    chunks := chunks + [Chain(conversation)] + [Done];
  }

  // ---------------------------------------------------------------- both loops follow one protocol

  lemma {:induction false} PassedOnIsHarmless(sofar: seq<Chunk>, events: seq<Event>)
    ensures Chains(PassOn(sofar, events)) == Chains(sofar)
    ensures Done in PassOn(sofar, events) <==> Done in sofar
    ensures ErrorChunk in PassOn(sofar, events) <==> ErrorChunk in sofar
    decreases events
  {
    if events != [] {
      match events[0]
      case ContentDelta(delta) =>
        ChainsSnoc(sofar, Content(delta));
        PassedOnIsHarmless(sofar + [Content(delta)], events[1..]);
      case ReasoningDelta(delta) =>
        ChainsSnoc(sofar, Reasoning(delta));
        PassedOnIsHarmless(sofar + [Reasoning(delta)], events[1..]);
      case Stats =>
        ChainsSnoc(sofar, StatsChunk);
        PassedOnIsHarmless(sofar + [StatsChunk], events[1..]);
      case _ =>
    }
  }

  /** How many events come before the one that decides how the stream ends. */
  function Before(events: seq<Event>): (n: nat)
    ensures n <= |events| && forall i :: 0 <= i < n ==> !Decides(events[i])
    ensures n < |events| ==> Decides(events[n])
  {
    if events == [] || Decides(events[0]) then 0 else 1 + Before(events[1..])
  }

  predicate Decides(e: Event) { e.Gone? || e.Final? }

  /** The chunk says what the event says. */
  predicate Says(c: Chunk, e: Event) {
    match e
    case ContentDelta(delta) => c == Content(delta)
    case ReasoningDelta(delta) => c == Reasoning(delta)
    case Stats => c == StatsChunk
    case _ => false
  }

  function ChunkOf(e: Event): (c: Chunk)
    requires !Decides(e)
    ensures Says(c, e)
  {
    match e
    case ContentDelta(delta) => Content(delta)
    case ReasoningDelta(delta) => Reasoning(delta)
    case Stats => StatsChunk
  }

  /** The events, one by one, as chunks. */
  function ChunksOf(events: seq<Event>): (chunks: seq<Chunk>)
    requires forall e :: e in events ==> !Decides(e)
    ensures |chunks| == |events| && forall k :: 0 <= k < |events| ==> Says(chunks[k], events[k])
  {
    seq(|events|, k requires 0 <= k < |events| => assert events[k] in events; ChunkOf(events[k]))
  }

  /** The events of a stream before the one that decides how it ends. */
  function Said(events: seq<Event>): (out: seq<Event>)
    ensures out == events[..Before(events)] && forall e :: e in out ==> !Decides(e)
  {
    events[..Before(events)]
  }

  /** What the model streams reaches the client: one chunk for each event before the deciding one, in order, of
      the same kind and with the same text. */
  lemma {:induction false} PassedOnIsComplete(sofar: seq<Chunk>, events: seq<Event>)
    ensures PassOn(sofar, events) == sofar + ChunksOf(Said(events))
    decreases events
  {
    if events != [] && !Decides(events[0]) {
      var c := ChunkOf(events[0]);
      PassedOnIsComplete(sofar + [c], events[1..]);
      assert Said(events) == [events[0]] + Said(events[1..]);
      assert ChunksOf(Said(events)) == [c] + ChunksOf(Said(events[1..]));
      Regroup(sofar, [c], ChunksOf(Said(events[1..])));
    }
  }

  /** The events the client is told of: of the first `n` streams, what each says. */
  function SaidBy(streams: seq<seq<Event>>, n: nat): (out: seq<Event>)
    requires n <= |streams|
    ensures forall e :: e in out ==> !Decides(e)
  {
    if n == 0 then [] else Said(streams[0]) + SaidBy(streams[1..], n - 1)
  }

  /** The chunks that pass on what the model says. */
  function Deltas(chunks: seq<Chunk>): seq<Chunk> {
    if chunks == [] then []
    else
      var last := chunks[|chunks| - 1];
      Deltas(chunks[..|chunks| - 1]) + if last.Content? || last.Reasoning? || last.StatsChunk? then [last] else []
  }

  lemma {:induction false} DeltasSnoc(chunks: seq<Chunk>, c: Chunk)
    ensures Deltas(chunks + [c]) == Deltas(chunks) + if c.Content? || c.Reasoning? || c.StatsChunk? then [c] else []
  {
    assert (chunks + [c])[..|chunks|] == chunks;
  }

  lemma {:induction false} DeltasOfChunks(sofar: seq<Chunk>, events: seq<Event>)
    requires forall e :: e in events ==> !Decides(e)
    ensures Deltas(sofar + ChunksOf(events)) == Deltas(sofar) + ChunksOf(events)
  {
    AllDeltas(sofar, ChunksOf(events));
  }

  lemma {:induction false} AllDeltas(sofar: seq<Chunk>, chunks: seq<Chunk>)
    requires forall k :: 0 <= k < |chunks| ==> chunks[k].Content? || chunks[k].Reasoning? || chunks[k].StatsChunk?
    ensures Deltas(sofar + chunks) == Deltas(sofar) + chunks
  {
    if chunks == [] {
      assert sofar + chunks == sofar;
    } else {
      var init, last := chunks[..|chunks| - 1], chunks[|chunks| - 1];
      AllDeltas(sofar, init);
      DeltasSnoc(sofar + init, last);
      assert chunks == init + [last];
      Regroup(sofar, init, [last]);
      Regroup(Deltas(sofar), init, [last]);
    }
  }

  /** Over a whole transcript: the client is told, chunk by chunk and in order, exactly what the streams listened
      to say, each up to its deciding event. */
  lemma {:induction false} ClientIsToldAll(sofar: seq<Chunk>, conversation: seq<Message>, budget: nat,
                                           streams: seq<seq<Event>>)
    requires ValidStreams(streams)
    ensures ModelCalls(budget, streams) <= |streams|
    ensures Deltas(Transcript(sofar, conversation, budget, streams)) ==
              Deltas(sofar) + ChunksOf(SaidBy(streams, ModelCalls(budget, streams)))
    decreases streams
  {
    if budget == 0 {
      NoDeltas(sofar, conversation);
    } else if streams != [] {
      var on, chunks, next, left := OneStreamTold(sofar, conversation, budget, streams);
      if on {
        ClientIsToldAll(chunks, next, left, streams[1..]);
        ToldThenTold(Deltas(sofar), streams, ModelCalls(left, streams[1..]));
      } else {
        assert SaidBy(streams, 1) == Said(streams[0]);
      }
    } else {
      assert Deltas(sofar) + ChunksOf(SaidBy(streams, 0)) == Deltas(sofar);
    }
  }

  /** One stream: the client is told what it says, and then the transcript ends or goes on with the next. */
  lemma {:induction false} OneStreamTold(sofar: seq<Chunk>, conversation: seq<Message>, budget: nat,
                                         streams: seq<seq<Event>>)
    returns (on: bool, chunks: seq<Chunk>, next: seq<Message>, left: nat)
    requires ValidStreams(streams) && budget > 0 && streams != []
    ensures Deltas(chunks) == Deltas(sofar) + ChunksOf(Said(streams[0]))
    ensures on ==> Transcript(sofar, conversation, budget, streams) == Transcript(chunks, next, left, streams[1..])
                   && ModelCalls(budget, streams) == 1 + ModelCalls(left, streams[1..])
    ensures !on ==> Transcript(sofar, conversation, budget, streams) == chunks && ModelCalls(budget, streams) == 1
  {
    on, chunks, next, left := false, PassOn(sofar, streams[0]), conversation, budget;
    PassedOnIsComplete(sofar, streams[0]);
    DeltasOfChunks(sofar, Said(streams[0]));
    match Listen(streams[0]) {
      case Hangup =>
      case Silence =>
        on := true;
      case Replied(turn) =>
        if turn.error {
          DeltasSnoc(chunks, ErrorChunk);
          chunks := chunks + [ErrorChunk];
        } else if turn.calls == [] {
          var answer := conversation + [AssistantMessage(turn.content, [])];
          NoDeltas(chunks, answer);
          chunks := chunks + [Chain(answer)] + [Done];
        } else {
          next := conversation + TurnMessages(turn);
          DeltasSnoc(chunks, Chain(next));
          on, chunks, left := true, chunks + [Chain(next)], budget - 1;
        }
    }
  }

  lemma {:induction false} NoDeltas(sofar: seq<Chunk>, messages: seq<Message>)
    ensures Deltas(sofar + [Chain(messages)] + [Done]) == Deltas(sofar)
  {
    DeltasSnoc(sofar, Chain(messages));
    DeltasSnoc(sofar + [Chain(messages)], Done);
  }

  lemma {:induction false} ToldThenTold(told: seq<Chunk>, streams: seq<seq<Event>>, n: nat)
    requires n < |streams|
    ensures told + ChunksOf(Said(streams[0])) + ChunksOf(SaidBy(streams[1..], n)) ==
              told + ChunksOf(SaidBy(streams, n + 1))
  {
    assert ChunksOf(SaidBy(streams, n + 1)) == ChunksOf(Said(streams[0])) + ChunksOf(SaidBy(streams[1..], n));
  }

  /** How a conversation is wound up: its chain, then the end marker. */
  lemma {:induction false} WoundUp(sofar: seq<Chunk>, messages: seq<Message>)
    ensures Chains(sofar + [Chain(messages)] + [Done]) == Chains(sofar) + [messages]
    ensures Done in sofar + [Chain(messages)] + [Done]
    ensures ErrorChunk in sofar + [Chain(messages)] + [Done] <==> ErrorChunk in sofar
  {
    ChainsSnoc(sofar, Chain(messages));
    ChainsSnoc(sofar + [Chain(messages)], Done);
  }

  /** The streaming loop shows its client exactly the conversations of the protocol, on the replies it
      heard. */
  lemma {:induction false} StreamShowsProtocol(sofar: seq<Chunk>, conversation: seq<Message>, budget: nat,
                                               streams: seq<seq<Event>>)
    requires ValidStreams(streams)
    ensures Chains(Transcript(sofar, conversation, budget, streams)) ==
              Snapshots(Chains(sofar), conversation, budget, RepliesHeard(streams))
    decreases streams
  {
    if budget == 0 {
      WoundUp(sofar, conversation);
    } else if streams != [] {
      var on, chunks, next, left := OneStreamShown(sofar, conversation, budget, streams);
      if on {
        StreamShowsProtocol(chunks, next, left, streams[1..]);
      }
    }
  }

  /** One stream: what the loop has sent by its end shows the protocol so far, and goes on as the protocol does. */
  lemma {:induction false} OneStreamShown(sofar: seq<Chunk>, conversation: seq<Message>, budget: nat,
                                          streams: seq<seq<Event>>)
    returns (on: bool, chunks: seq<Chunk>, next: seq<Message>, left: nat)
    requires ValidStreams(streams) && budget > 0 && streams != []
    ensures var shown := Snapshots(Chains(sofar), conversation, budget, RepliesHeard(streams));
            if on then
              && Transcript(sofar, conversation, budget, streams) == Transcript(chunks, next, left, streams[1..])
              && shown == Snapshots(Chains(chunks), next, left, RepliesHeard(streams[1..]))
            else Transcript(sofar, conversation, budget, streams) == chunks && Chains(chunks) == shown
  {
    on, chunks, next, left := false, PassOn(sofar, streams[0]), conversation, budget;
    PassedOnIsHarmless(sofar, streams[0]);
    match Listen(streams[0]) {
      case Hangup =>
      case Silence =>
        on := true;
      case Replied(turn) =>
        assert RepliesHeard(streams)[0] == turn && RepliesHeard(streams)[1..] == RepliesHeard(streams[1..]);
        if turn.error {
          ChainsSnoc(chunks, ErrorChunk);
          chunks := chunks + [ErrorChunk];
        } else if turn.calls == [] {
          var answer := conversation + [AssistantMessage(turn.content, [])];
          WoundUp(chunks, answer);
          chunks := chunks + [Chain(answer)] + [Done];
        } else {
          next := conversation + TurnMessages(turn);
          ChainsSnoc(chunks, Chain(next));
          on, chunks, left := true, chunks + [Chain(next)], budget - 1;
        }
    }
  }

  /** It closes with the end marker exactly when the conversation ended well and with an error exactly when
      the model reported one. */
  lemma {:induction false} StreamMarksEnding(sofar: seq<Chunk>, conversation: seq<Message>, budget: nat,
                                             streams: seq<seq<Event>>)
    requires ValidStreams(streams) && Done !in sofar && ErrorChunk !in sofar
    ensures var out, ending := Transcript(sofar, conversation, budget, streams),
                               Converse(conversation, budget, RepliesHeard(streams)).ending;
            && (Done in out <==> ending.Answered? || ending.LimitReached?)
            && (ErrorChunk in out <==> ending.Failed?)
    decreases streams
  {
    if budget > 0 && streams != [] {
      var chunks := PassOn(sofar, streams[0]);
      PassedOnIsHarmless(sofar, streams[0]);
      match Listen(streams[0]) {
        case Hangup =>
        case Silence =>
          StreamMarksEnding(chunks, conversation, budget, streams[1..]);
        case Replied(turn) =>
          assert RepliesHeard(streams)[1..] == RepliesHeard(streams[1..]);
          if !turn.error && turn.calls != [] {
            var next := conversation + TurnMessages(turn);
            StreamMarksEnding(chunks + [Chain(next)], next, budget - 1, streams[1..]);
          }
      }
    }
  }

  /** Each conversation shown extends the one before it. */
  ghost predicate Growing(shown: seq<seq<Message>>, last: seq<Message>) {
    && (forall i, j :: 0 <= i < j < |shown| ==> shown[i] <= shown[j])
    && (forall i :: 0 <= i < |shown| ==> shown[i] <= last)
  }

  /** The last conversation shown to a streaming client is the one a client that does not stream gets, for
      the same replies, whenever the conversation ends well; and each one shown extends those before. */
  lemma {:induction false} LastSnapshotIsOutcome(shown: seq<seq<Message>>, conversation: seq<Message>, budget: nat,
                                                 turns: seq<Turn>)
    requires AllValid(turns) && Growing(shown, conversation)
    ensures var outcome, all := Converse(conversation, budget, turns), Snapshots(shown, conversation, budget, turns);
            && (outcome.ending.Answered? || outcome.ending.LimitReached? ==>
                  all != [] && all[|all| - 1] == outcome.messages)
            && shown <= all && Growing(all, outcome.messages)
    decreases turns
  {
    if budget == 0 {
      GrowingSnoc(shown, conversation, conversation);
    } else if turns != [] && !turns[0].error {
      if turns[0].calls == [] {
        GrowingSnoc(shown, conversation, conversation + [AssistantMessage(turns[0].content, [])]);
      } else {
        var next := conversation + TurnMessages(turns[0]);
        GrowingSnoc(shown, conversation, next);
        LastSnapshotIsOutcome(shown + [next], next, budget - 1, turns[1..]);
      }
    }
  }

  lemma {:induction false} GrowingSnoc(shown: seq<seq<Message>>, last: seq<Message>, longer: seq<Message>)
    requires Growing(shown, last) && last <= longer
    ensures Growing(shown + [longer], longer)
  {
  }

  /** For the same replies both loops give their client the same conversation: when it ends well, the last
      chain the streaming loop sends is the message list `CompletionLoop` returns. */
  lemma {:induction false} LoopsAgree(initial: seq<Message>, maxIterations: nat, streams: seq<seq<Event>>)
    requires ValidStreams(streams)
    ensures var sent := Chains(Transcript([], initial, maxIterations, streams));
            var outcome := Converse(initial, maxIterations, RepliesHeard(streams));
            && (outcome.ending.Answered? || outcome.ending.LimitReached? <==>
                  Done in Transcript([], initial, maxIterations, streams))
            && (outcome.ending.Answered? || outcome.ending.LimitReached? ==>
                  sent != [] && sent[|sent| - 1] == outcome.messages)
            && Growing(sent, outcome.messages)
  {
    StreamShowsProtocol([], initial, maxIterations, streams);
    StreamMarksEnding([], initial, maxIterations, streams);
    LastSnapshotIsOutcome([], initial, maxIterations, RepliesHeard(streams));
  }

  /** How often the streaming loop calls the model. */
  function ModelCalls(budget: nat, streams: seq<seq<Event>>): nat
    requires ValidStreams(streams)
    decreases streams
  {
    if budget == 0 || streams == [] then 0
    else
      1 + match Listen(streams[0])
          case Hangup => 0
          case Silence => ModelCalls(budget, streams[1..])
          case Replied(turn) => if turn.error || turn.calls == [] then 0 else ModelCalls(budget - 1, streams[1..])
  }

  function SilentStreams(streams: seq<seq<Event>>): nat
    requires ValidStreams(streams)
  {
    if streams == [] then 0 else (if Listen(streams[0]).Silence? then 1 else 0) + SilentStreams(streams[1..])
  }

  /** A stream that brings no message is not counted: the loop calls the model at most as often as the limit
      allows plus once for each such stream, and as long as there are only such streams it goes on. */
  lemma {:induction false} SilentStreamsAreNotCounted(budget: nat, streams: seq<seq<Event>>)
    requires ValidStreams(streams)
    ensures ModelCalls(budget, streams) <= budget + SilentStreams(streams)
    ensures budget > 0 && SilentStreams(streams) == |streams| ==> ModelCalls(budget, streams) == |streams|
    ensures SilentStreams(streams) <= |streams|
    decreases streams
  {
    if streams != [] {
      SilentStreamsAreNotCounted(budget, streams[1..]);
      if budget > 0 {
        SilentStreamsAreNotCounted(budget - 1, streams[1..]);
      }
    }
  }

  /** How a stream ends is decided by one event: a final message is the reply, unless the client leaves before the
      tools it asks for are run; the client's leaving ends everything; and without either there is no reply. */
  lemma {:induction false} HeardIs(events: seq<Event>)
    requires ValidStream(events)
    ensures var n := Before(events);
            if n == |events| then Listen(events).Silence?
            else match events[n]
                 case Final(turn, leaves) =>
                   if leaves && turn.calls != [] && !turn.error then Listen(events).Hangup?
                   else Listen(events) == Replied(turn)
                 case _ => Listen(events).Hangup?
  {
    if events != [] && !Decides(events[0]) {
      HeardIs(events[1..]);
    }
  }

  /** Once the client has left, or a reply has reported an error or asked for no tools, the model is not called
      again. */
  lemma {:induction false} LastCall(budget: nat, streams: seq<seq<Event>>, k: nat)
    requires ValidStreams(streams) && k < ModelCalls(budget, streams) <= |streams|
    requires Before(streams[k]) < |streams[k]|
    requires var e := streams[k][Before(streams[k])];
             e.Gone? || (e.Final? && (e.turn.error || e.turn.calls == [] || e.leaves))
    ensures ModelCalls(budget, streams) == k + 1
    decreases streams
  {
    HeardIs(streams[0]);
    if k > 0 {
      var left := match Listen(streams[0]) case Replied(_) => budget - 1 case _ => budget;
      LastCall(left, streams[1..], k - 1);
    }
  }

  lemma {:induction false} CountSilent(streams: seq<seq<Event>>)
    requires ValidStreams(streams)
    ensures (forall s :: s in streams ==> Listen(s).Silence?) ==> SilentStreams(streams) == |streams|
    ensures (forall s :: s in streams ==> !Listen(s).Silence?) ==> SilentStreams(streams) == 0
  {
    if streams != [] {
      CountSilent(streams[1..]);
    }
  }

  /** The scripts of a provider: any number of the streams it may yield. */
  ghost predicate ScriptOf(provider: iset<seq<Event>>, streams: seq<seq<Event>>) {
    ValidStreams(streams) && forall s :: s in streams ==> s in provider
  }

  /** The limit bounds the calls of the model, whatever a provider's streams, if and only if none of them ends
      without a message or the client's leaving (or the limit is zero). */
  lemma LimitHoldsIffProviderReplies(budget: nat, provider: iset<seq<Event>>)
    requires forall s :: s in provider ==> ValidStream(s)
    ensures (forall streams :: ScriptOf(provider, streams) ==> ModelCalls(budget, streams) <= budget)
            <==> budget == 0 || forall s :: s in provider ==> !Listen(s).Silence?
  {
    if budget == 0 || forall s :: s in provider ==> !Listen(s).Silence? {
      forall streams | ScriptOf(provider, streams) ensures ModelCalls(budget, streams) <= budget {
        CountSilent(streams);
        SilentStreamsAreNotCounted(budget, streams);
      }
    } else {
      var silent :| silent in provider && Listen(silent).Silence?;
      var streams := seq(budget + 1, _ => silent);
      CountSilent(streams);
      SilentStreamsAreNotCounted(budget, streams);
      assert ScriptOf(provider, streams) && ModelCalls(budget, streams) > budget;
    }
  }

  // ---------------------------------------------------------------- what every conversation looks like

  /** From position `from` on, every request for tools is followed by exactly one result per call, with
      matching ids and in order, and every tool result belongs to such a request. */
  ghost predicate WellPaired(messages: seq<Message>, from: nat) {
    forall i :: from <= i < |messages| ==> PairedAt(messages, from, i)
  }

  ghost predicate PairedAt(messages: seq<Message>, from: nat, i: nat)
    requires i < |messages|
  {
    && (messages[i].RequestsTools() ==> Answers(messages, i))
    && (messages[i].role.ToolRole? ==> Requested(messages, from, i))
  }

  ghost predicate Requested(messages: seq<Message>, from: nat, k: nat)
    requires k < |messages|
  {
    exists i :: from <= i < k && messages[i].RequestsTools() && k <= i + |messages[i].calls.value|
  }

  /** The request at `i` is followed by the results of its calls, and then by no further result. */
  ghost predicate Answers(messages: seq<Message>, i: nat)
    requires i < |messages| && messages[i].RequestsTools()
  {
    var n := |messages[i].calls.value|;
    && i + n < |messages|
    && (forall k :: i < k <= i + n ==> messages[k].role.ToolRole?
                                       && messages[k].toolCallId == Some(messages[i].calls.value[k - i - 1].id))
    && (i + n + 1 < |messages| ==> !messages[i + n + 1].role.ToolRole?)
  }

  function ToolTurns(messages: seq<Message>): nat {
    if messages == [] then 0
    else ToolTurns(messages[..|messages| - 1]) + if messages[|messages| - 1].RequestsTools() then 1 else 0
  }

  /** Appending messages, the first of which is no tool result, disturbs no pairing. */
  lemma PairingPersists(messages: seq<Message>, more: seq<Message>, from: nat)
    requires from <= |messages| && WellPaired(messages, from)
    requires more != [] ==> !more[0].role.ToolRole?
    ensures forall i :: from <= i < |messages| ==> PairedAt(messages + more, from, i)
  {
    var out := messages + more;
    assert forall i :: 0 <= i < |messages| ==> out[i] == messages[i];
    forall i | from <= i < |messages| ensures PairedAt(out, from, i) {
      assert PairedAt(messages, from, i);
      assert |messages| < |out| ==> out[|messages|] == more[0];
      if messages[i].role.ToolRole? {
        var j :| from <= j < i && messages[j].RequestsTools() && i <= j + |messages[j].calls.value|;
        assert out[j].RequestsTools();
      }
    }
  }

  lemma AppendPlain(messages: seq<Message>, from: nat, m: Message)
    requires from <= |messages| && WellPaired(messages, from) && !m.RequestsTools() && !m.role.ToolRole?
    ensures WellPaired(messages + [m], from)
  {
    PairingPersists(messages, [m], from);
    assert PairedAt(messages + [m], from, |messages|);
  }

  /** A tool turn by itself is well paired. */
  lemma {:induction false} TurnIsWellPaired(messages: seq<Message>, turn: Turn)
    requires turn.Valid() && turn.calls != []
    ensures var out, base := messages + TurnMessages(turn), |messages|;
            && out[base].RequestsTools() && Answers(out, base)
            && (forall k :: base < k < |out| ==> !out[k].RequestsTools())
            && (forall k :: base < k < |out| && out[k].role.ToolRole? ==> k <= base + |out[base].calls.value|)
  {
    var out, base, n := messages + TurnMessages(turn), |messages|, |turn.calls|;
    assert out[base] == AssistantMessage(turn.content, turn.calls);
    forall k | base < k < |out|
      ensures k <= base + n ==> out[k] == ToolMessage(turn.calls[k - base - 1], turn.outcomes[k - base - 1])
      ensures k > base + n ==> out[k] in Extras(turn, n)
    {
      assert out[k] == TurnMessages(turn)[k - base];
    }
  }

  /** A whole tool turn keeps the pairing. */
  lemma AppendToolTurn(messages: seq<Message>, from: nat, turn: Turn)
    requires from <= |messages| && WellPaired(messages, from)
    requires turn.Valid() && turn.calls != []
    ensures WellPaired(messages + TurnMessages(turn), from)
  {
    var out := messages + TurnMessages(turn);
    PairingPersists(messages, TurnMessages(turn), from);
    TurnIsWellPaired(messages, turn);
    forall i | from <= i < |out| ensures PairedAt(out, from, i) {
      assert i >= |messages| ==> out[|messages|].RequestsTools();
    }
  }

  lemma {:induction false} NoToolTurns(messages: seq<Message>, more: seq<Message>)
    requires forall m :: m in more ==> !m.RequestsTools()
    ensures ToolTurns(messages + more) == ToolTurns(messages)
  {
    if more == [] {
      assert messages + more == messages;
    } else {
      NoToolTurns(messages, more[..|more| - 1]);
      assert (messages + more)[..|messages + more| - 1] == messages + more[..|more| - 1];
    }
  }

  lemma OneToolTurn(messages: seq<Message>, turn: Turn)
    requires turn.Valid() && turn.calls != []
    ensures ToolTurns(messages + TurnMessages(turn)) == ToolTurns(messages) + 1
  {
    var request := AssistantMessage(turn.content, turn.calls);
    var answers := Results(turn, |turn.calls|) + Extras(turn, |turn.calls|);
    assert (messages + [request])[..|messages|] == messages;
    assert messages + TurnMessages(turn) == messages + [request] + answers;
    NoToolTurns(messages + [request], answers);
  }

  /** The iterations counted are the requests for tools that a conversation has gained. */
  lemma {:induction false} IterationsAreToolTurns(conversation: seq<Message>, budget: nat, turns: seq<Turn>)
    requires AllValid(turns)
    ensures ToolTurns(Converse(conversation, budget, turns).messages) ==
              ToolTurns(conversation) + ToolReplies(budget, turns)
    decreases turns
  {
    if budget > 0 && turns != [] && !turns[0].error {
      if turns[0].calls == [] {
        NoToolTurns(conversation, [AssistantMessage(turns[0].content, [])]);
      } else {
        var next := MoreToolTurns(conversation, budget, turns);
        IterationsAreToolTurns(next, budget - 1, turns[1..]);
      }
    }
  }

  lemma {:induction false} MoreToolTurns(conversation: seq<Message>, budget: nat, turns: seq<Turn>)
    returns (next: seq<Message>)
    requires AllValid(turns) && budget > 0 && turns != [] && !turns[0].error && turns[0].calls != []
    ensures Converse(conversation, budget, turns) == Converse(next, budget - 1, turns[1..])
    ensures ToolTurns(next) == ToolTurns(conversation) + 1
  {
    next := conversation + TurnMessages(turns[0]);
    OneToolTurn(conversation, turns[0]);
  }

  /** Wherever a conversation ends, it extends the one it started from; from there on every request for
      tools is answered by exactly one result per call, in order, even when tools raise; and there are at
      most as many tool turns as allowed. */
  lemma {:induction false} EveryConversationIsWellPaired(conversation: seq<Message>, budget: nat, turns: seq<Turn>,
                                                         from: nat)
    requires AllValid(turns) && from <= |conversation| && WellPaired(conversation, from)
    ensures var out := Converse(conversation, budget, turns).messages;
            && conversation <= out && WellPaired(out, from)
            && ToolTurns(out) <= ToolTurns(conversation) + budget
    decreases turns
  {
    if budget > 0 && turns != [] && !turns[0].error {
      if turns[0].calls == [] {
        var answer := AssistantMessage(turns[0].content, []);
        AppendPlain(conversation, from, answer);
        NoToolTurns(conversation, [answer]);
      } else {
        var next := NextRound(conversation, budget, turns, from);
        EveryConversationIsWellPaired(next, budget - 1, turns[1..], from);
      }
    }
  }

  lemma NextRound(conversation: seq<Message>, budget: nat, turns: seq<Turn>, from: nat) returns (next: seq<Message>)
    requires AllValid(turns) && from <= |conversation| && WellPaired(conversation, from)
    requires budget > 0 && turns != [] && !turns[0].error && turns[0].calls != []
    ensures conversation <= next && WellPaired(next, from) && ToolTurns(next) == ToolTurns(conversation) + 1
    ensures Converse(conversation, budget, turns) == Converse(next, budget - 1, turns[1..])
  {
    next := conversation + TurnMessages(turns[0]);
    AppendToolTurn(conversation, from, turns[0]);
    OneToolTurn(conversation, turns[0]);
  }

  // ---------------------------------------------------------------- what a conversation tells

  /** The images the tools returned, in order. */
  function Images(outcomes: seq<ToolOutcome>): seq<string> {
    if outcomes == [] then []
    else
      var last := outcomes[|outcomes| - 1];
      Images(outcomes[..|outcomes| - 1]) + if last.image.Some? then [last.image.value] else []
  }

  /** The message tells the model how its call turned out. */
  predicate TellsOutcome(m: Message, call: Call, outcome: ToolOutcome) {
    && m.role.ToolRole? && m.toolCallId == Some(call.id)
    && m.content == Some(match outcome
                         case Returned(content, _) => content
                         case Raised(error, _) => "Tool execution failed: " + error)
  }

  /** The messages tell of one reply of the model: what it said, how each of its calls turned out, in order, and
      every image that came of them. */
  ghost predicate TellsTurn(block: seq<Message>, turn: Turn)
    requires turn.Valid()
  {
    var n, images := |turn.calls|, Images(turn.outcomes);
    && |block| == Length(turn)
    && block[0].role.AssistantRole? && block[0].content == turn.content
    && block[0].calls == (if turn.calls == [] then None else Some(turn.calls))
    && (forall k :: 0 <= k < n ==> TellsOutcome(block[1 + k], turn.calls[k], turn.outcomes[k]))
    && (forall k :: 0 <= k < |images| ==> block[1 + n + k].role.UserRole? && block[1 + n + k].image == Some(images[k]))
  }

  lemma {:induction false} ExtrasAreImages(turn: Turn, n: nat)
    requires turn.Valid() && n <= |turn.calls|
    ensures |Extras(turn, n)| == |Images(turn.outcomes[..n])|
    ensures forall k :: 0 <= k < |Extras(turn, n)| ==>
              Extras(turn, n)[k].role.UserRole? && Extras(turn, n)[k].image == Some(Images(turn.outcomes[..n])[k])
  {
    if n > 0 {
      ExtrasAreImages(turn, n - 1);
      assert turn.outcomes[..n][..n - 1] == turn.outcomes[..n - 1];
    }
  }

  lemma {:induction false} TurnTold(turn: Turn)
    requires turn.Valid()
    ensures TellsTurn(TurnMessages(turn), turn)
  {
    var n, results, extras := |turn.calls|, Results(turn, |turn.calls|), Extras(turn, |turn.calls|);
    ExtrasAreImages(turn, n);
    assert turn.outcomes[..n] == turn.outcomes;
    BlockTells([AssistantMessage(turn.content, turn.calls)], results, extras, turn);
  }

  lemma {:induction false} BlockTells(request: seq<Message>, results: seq<Message>, extras: seq<Message>, turn: Turn)
    requires turn.Valid() && request == [AssistantMessage(turn.content, turn.calls)]
    requires |results| == |turn.calls| && |extras| == |Images(turn.outcomes)|
    requires forall k :: 0 <= k < |results| ==> results[k] == ToolMessage(turn.calls[k], turn.outcomes[k])
    requires forall k :: 0 <= k < |extras| ==>
               extras[k].role.UserRole? && extras[k].image == Some(Images(turn.outcomes)[k])
    ensures TellsTurn(request + results + extras, turn)
  {
    var n, block := |turn.calls|, request + results + extras;
    forall k | 0 <= k < n ensures TellsOutcome(block[1 + k], turn.calls[k], turn.outcomes[k]) {
      assert block[1 + k] == results[k];
    }
    forall k | 0 <= k < |extras| ensures block[1 + n + k] == extras[k] {
    }
  }

  /** How many replies the protocol acts on. */
  function Acted(budget: nat, turns: seq<Turn>): (n: nat)
    ensures n <= |turns|
    decreases turns
  {
    if budget == 0 || turns == [] || turns[0].error then 0
    else if turns[0].calls == [] then 1
    else 1 + Acted(budget - 1, turns[1..])
  }

  /** How many messages it takes to tell of a reply. */
  function Length(turn: Turn): nat { 1 + |turn.calls| + |Images(turn.outcomes)| }

  /** The messages tell of the first `n` replies, one after another and completely, and of nothing else. */
  ghost predicate Tells(messages: seq<Message>, turns: seq<Turn>, n: nat)
    requires AllValid(turns) && n <= |turns|
  {
    if n == 0 then messages == []
    else
      var first := Length(turns[0]);
      && first <= |messages| && TellsTurn(messages[..first], turns[0])
      && Tells(messages[first..], turns[1..], n - 1)
  }

  /** Which replies are acted on, and how a conversation ends: one after another while they ask for tools and the
      limit allows; well with the first that does not ask, badly with the first that reports an error. */
  lemma {:induction false} EndingIs(conversation: seq<Message>, budget: nat, turns: seq<Turn>)
    requires AllValid(turns)
    ensures var n, ending := Acted(budget, turns), Converse(conversation, budget, turns).ending;
            && n <= budget && (forall k :: 0 <= k < n ==> !turns[k].error)
            && (forall k :: 0 <= k < n - 1 ==> turns[k].calls != [])
            && match ending
               case Answered => n > 0 && turns[n - 1].calls == []
               case LimitReached => n == budget && (n > 0 ==> turns[n - 1].calls != [])
               case Failed => n < budget && n < |turns| && turns[n].error && (n > 0 ==> turns[n - 1].calls != [])
               case CutShort => n < budget && n == |turns| && (n > 0 ==> turns[n - 1].calls != [])
    decreases turns
  {
    if budget > 0 && turns != [] && !turns[0].error && turns[0].calls != [] {
      EndingIs(conversation + TurnMessages(turns[0]), budget - 1, turns[1..]);
    }
  }

  /** The messages of the first `n` replies. */
  function MessagesOf(turns: seq<Turn>, n: nat): seq<Message>
    requires AllValid(turns) && n <= |turns|
  {
    if n == 0 then [] else TurnMessages(turns[0]) + MessagesOf(turns[1..], n - 1)
  }

  lemma {:induction false} MessagesTell(turns: seq<Turn>, n: nat)
    requires AllValid(turns) && n <= |turns|
    ensures Tells(MessagesOf(turns, n), turns, n)
    decreases n
  {
    if n > 0 {
      var all, first := MessagesOf(turns, n), Length(turns[0]);
      TurnTold(turns[0]);
      SplitBehind(TurnMessages(turns[0]), MessagesOf(turns[1..], n - 1));
      assert all[..first] == TurnMessages(turns[0]) && all[first..] == MessagesOf(turns[1..], n - 1);
      MessagesTell(turns[1..], n - 1);
    }
  }

  lemma {:induction false} SplitBehind<T>(a: seq<T>, b: seq<T>)
    ensures (a + b)[..|a|] == a && (a + b)[|a|..] == b
  {
  }

  lemma {:induction false} ConversationIs(conversation: seq<Message>, budget: nat, turns: seq<Turn>)
    requires AllValid(turns)
    ensures Converse(conversation, budget, turns).messages == conversation + MessagesOf(turns, Acted(budget, turns))
    decreases turns
  {
    if budget > 0 && turns != [] && !turns[0].error {
      if turns[0].calls == [] {
        AnswerIs(turns);
      } else {
        ConversationIs(conversation + TurnMessages(turns[0]), budget - 1, turns[1..]);
        Regroup(conversation, TurnMessages(turns[0]), MessagesOf(turns[1..], Acted(budget - 1, turns[1..])));
      }
    }
  }

  lemma {:induction false} AnswerIs(turns: seq<Turn>)
    requires AllValid(turns) && turns != [] && turns[0].calls == []
    ensures MessagesOf(turns, 1) == [AssistantMessage(turns[0].content, [])]
  {
    assert TurnMessages(turns[0]) == [AssistantMessage(turns[0].content, [])];
    assert MessagesOf(turns[1..], 0) == [];
  }

  /** Wherever a conversation ends: what has been added to it tells of the replies acted on. */
  lemma ConversationTells(conversation: seq<Message>, budget: nat, turns: seq<Turn>)
    requires AllValid(turns)
    ensures var out := Converse(conversation, budget, turns).messages;
            conversation <= out && Tells(out[|conversation|..], turns, Acted(budget, turns))
  {
    var n := Acted(budget, turns);
    ConversationIs(conversation, budget, turns);
    MessagesTell(turns, n);
    SplitBehind(conversation, MessagesOf(turns, n));
  }

  // ---------------------------------------------------------------- replaying a chain

  function NonBlank(s: Option<string>): Option<string> { if s == Some("") then None else s }

  /** A client message as put into the conversation: blank ids and names are left out. */
  function Received(m: Message): Message {
    m.(toolCallId := NonBlank(m.toolCallId), name := NonBlank(m.name))
  }

  function ReceivedAll(client: seq<Message>): (out: seq<Message>)
    ensures |out| == |client| && forall i :: 0 <= i < |client| ==> out[i] == Received(client[i])
  {
    seq(|client|, i requires 0 <= i < |client| => Received(client[i]))
  }

  /** The client's messages, after a fresh system prompt unless the client sent one back. */
  function InitialConversation(client: seq<Message>, systemPrompt: string): seq<Message> {
    (if client == [] || !client[0].role.SystemRole? then [Plain(SystemRole, Some(systemPrompt))] else [])
    + ReceivedAll(client)
  }

  /** The conversation opens with a system message and comes back from `Received` unchanged. */
  predicate Replayable(conversation: seq<Message>) {
    conversation != [] && conversation[0].role.SystemRole? && ReceivedAll(conversation) == conversation
  }

  /** Some tool turn that the conversation gets to has a call with a blank id. */
  predicate CallsBlankId(budget: nat, turns: seq<Turn>)
    decreases turns
  {
    budget > 0 && turns != [] && !turns[0].error && turns[0].calls != []
    && (BlankId(turns[0]) || CallsBlankId(budget - 1, turns[1..]))
  }

  predicate BlankId(turn: Turn) { exists c :: c in turn.calls && c.id == "" }

  lemma {:induction false} ExtrasUnchanged(turn: Turn, n: nat, m: Message)
    requires turn.Valid() && n <= |turn.calls| && m in Extras(turn, n)
    ensures Received(m) == m
  {
    if m in Extras(turn, n - 1) {
      ExtrasUnchanged(turn, n - 1, m);
    }
  }

  /** The messages of a tool turn come back unchanged unless a call has a blank id. */
  lemma TurnComesBack(turn: Turn)
    requires turn.Valid()
    ensures (forall m :: m in TurnMessages(turn) ==> Received(m) == m) <==> !BlankId(turn)
  {
    if BlankId(turn) {
      var i :| 0 <= i < |turn.calls| && turn.calls[i].id == "";
      var m := Results(turn, |turn.calls|)[i];
      assert m == TurnMessages(turn)[i + 1];
      assert m in TurnMessages(turn) && Received(m) != m;
    } else {
      forall m | m in TurnMessages(turn) ensures Received(m) == m {
        if m in Extras(turn, |turn.calls|) {
          ExtrasUnchanged(turn, |turn.calls|, m);
        }
      }
    }
  }

  lemma {:induction false} ReplayableConcat(a: seq<Message>, b: seq<Message>)
    requires a != []
    ensures Replayable(a + b) <==> Replayable(a) && forall m :: m in b ==> Received(m) == m
  {
    UnchangedIff(a);
    UnchangedIff(b);
    UnchangedIff(a + b);
    assert forall m :: m in a + b <==> m in a || m in b;
  }

  lemma {:induction false} UnchangedIff(messages: seq<Message>)
    ensures ReceivedAll(messages) == messages <==> forall m :: m in messages ==> Received(m) == m
  {
    if ReceivedAll(messages) == messages {
      forall m | m in messages ensures Received(m) == m {
        var i :| 0 <= i < |messages| && messages[i] == m;
      }
    }
  }

  lemma {:induction false} ChainReplayableIff(conversation: seq<Message>, budget: nat, turns: seq<Turn>)
    requires AllValid(turns) && conversation != []
    ensures Replayable(Converse(conversation, budget, turns).messages) <==>
              Replayable(conversation) && !CallsBlankId(budget, turns)
    ensures conversation <= Converse(conversation, budget, turns).messages
    decreases turns
  {
    if budget > 0 && turns != [] && !turns[0].error {
      if turns[0].calls == [] {
        ReplayableConcat(conversation, [AssistantMessage(turns[0].content, [])]);
      } else {
        TurnComesBack(turns[0]);
        ReplayableConcat(conversation, TurnMessages(turns[0]));
        ChainReplayableIff(conversation + TurnMessages(turns[0]), budget - 1, turns[1..]);
      }
    }
  }

  /** The conversation holds the client's messages, in order and with their roles, contents and calls, behind a
      system message: the client's own, or one with the prompt. */
  lemma {:induction false} ClientMessagesAreKept(client: seq<Message>, prompt: string, i: nat)
    requires i < |client|
    ensures var start := InitialConversation(client, prompt);
            var ahead := if client[0].role.SystemRole? then 0 else 1;
            && |start| == ahead + |client|
            && (ahead == 1 ==> start[0].role.SystemRole? && start[0].content == Some(prompt))
            && start[ahead + i].role == client[i].role && start[ahead + i].content == client[i].content
            && start[ahead + i].calls == client[i].calls
  {
    var received := ReceivedAll(client);
    assert InitialConversation(client, prompt)[|InitialConversation(client, prompt)| - |client| + i] == received[i];
  }

  lemma InitialIsReplayable(client: seq<Message>, prompt: string)
    ensures Replayable(InitialConversation(client, prompt))
  {
    var start := InitialConversation(client, prompt);
    forall i | 0 <= i < |start| ensures Received(start[i]) == start[i] {
    }
  }

  /** A client that sends a returned chain back, followed by new messages, gets a conversation that begins
      with that chain verbatim, whatever the system prompt would be by then, if and only if none of the tool
      turns behind it had a call with a blank id. */
  lemma ReplayedPrefixIsVerbatimIff(client: seq<Message>, prompt: string, budget: nat, turns: seq<Turn>,
                                    next: seq<Message>, laterPrompt: string)
    requires AllValid(turns)
    ensures var chain := Converse(InitialConversation(client, prompt), budget, turns).messages;
            InitialConversation(chain + next, laterPrompt) == chain + ReceivedAll(next)
            <==> !CallsBlankId(budget, turns)
  {
    var start := InitialConversation(client, prompt);
    var chain := Converse(start, budget, turns).messages;
    InitialIsReplayable(client, prompt);
    ChainReplayableIff(start, budget, turns);
    assert chain[0] == start[0] && (chain + next)[0] == chain[0];
    assert ReceivedAll(chain + next) == ReceivedAll(chain) + ReceivedAll(next);
    assert (ReceivedAll(chain) + ReceivedAll(next))[..|chain|] == ReceivedAll(chain);
    assert (chain + ReceivedAll(next))[..|chain|] == chain;
  }

  /** With a blank id the result loses the id that ties it to its call. */
  lemma BlankIdIsLost(client: seq<Message>, prompt: string, name: string, result: string)
    ensures var turn := Turn(None, [Call("", name, "")], false, [Returned(result, None)]);
            var chain := Converse(InitialConversation(client, prompt), 1, [turn]).messages;
            && chain != [] && chain[|chain| - 1].toolCallId == Some("")
            && |InitialConversation(chain, prompt)| == |chain|
            && InitialConversation(chain, prompt)[|chain| - 1].toolCallId == None
  {
    var start := InitialConversation(client, prompt);
    var turn := Turn(None, [Call("", name, "")], false, [Returned(result, None)]);
    var request, answer := AssistantMessage(None, turn.calls), ToolMessage(turn.calls[0], turn.outcomes[0]);
    OneCallTurn(turn);
    var chain := start + [request, answer];
    assert [turn][1..] == [];
    assert Converse(start, 1, [turn]) == Converse(chain, 0, []);
    assert chain[0] == start[0] && chain[|chain| - 1] == answer;
    InitialIsReplayable(client, prompt);
    assert InitialConversation(chain, prompt) == [] + ReceivedAll(chain);
  }

  lemma {:induction false} OneCallTurn(turn: Turn)
    requires turn.Valid() && |turn.calls| == 1 && turn.outcomes[0].image.None?
    ensures TurnMessages(turn) ==
              [AssistantMessage(turn.content, turn.calls), ToolMessage(turn.calls[0], turn.outcomes[0])]
  {
    assert Results(turn, 0) == [] && Extras(turn, 0) == [];
    assert Results(turn, 1) == [ToolMessage(turn.calls[0], turn.outcomes[0])];
    assert Extras(turn, 1) == [];
  }
}
