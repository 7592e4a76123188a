/** Client and server of a burst together, in every interleaving of their steps. The client's lock is
  * held by whoever computes or frees; it is free in phase `Idle`. A channel publishes whole packets. */
module BurstCoherence {
  import opened Sequences
  import opened Models
  import opened OutputShapes
  import opened BurstPackets
  import opened BurstSlots
  import opened BurstServing

  datatype ClientPhase =
    | Idle
    | Sending(request: Request, pools: seq<HidlMemory>)
    | Waiting(request: Request, pools: seq<HidlMemory>)
    | Freeing(slot: nat)

  datatype ServerPhase =
    | Receiving
    | Asking(request: Request)
    | Executing(request: Request)

  /** What the server did: the request that it parsed, the pools that it executed with, and what the prepared
    * model said. */
  datatype Exchange = Exchange(request: Request, used: seq<HidlMemory>, said: Result)

  /** What the client got: its own request and pools, and the result that it returns. */
  datatype Reply = Reply(request: Request, pools: seq<HidlMemory>, result: Result)

  datatype State = State(client: CacheState, phase: ClientPhase, requests: seq<seq<Datum>>, replies: seq<Reply>,
                         server: ServerCache, task: ServerPhase, results: seq<seq<Datum>>, log: seq<Exchange>)

  ghost predicate Init(s: State) {
    s == State(EMPTY_CACHE, Idle, [], [], map[], Receiving, [], [])
  }

  /** What the caller of a computation promises: memories are valid, and a bound key still names the
    * memory it was bound for. */
  ghost predicate ProperRequest(client: CacheState, keys: seq<int>, memories: seq<HidlMemory>) {
    KeysName(client, keys, memories) && forall i :: 0 <= i < |memories| ==> memories[i] != Unset
  }

  // ---------------------------------------------------------------- steps of the client

  ghost predicate StartCompute(s: State, t: State, keys: seq<int>, memories: seq<HidlMemory>, request: Request) {
    && s.phase.Idle? && ProperRequest(s.client, keys, memories)
    && request.slots == SlotsFor(GetAll(s.client, keys, memories), keys)
    && t == s.(client := GetAll(s.client, keys, memories), phase := Sending(request, memories))
  }

  ghost predicate Send(s: State, t: State) {
    && s.phase.Sending? && |RequestPacket(s.phase.request)| <= CHANNEL_LENGTH
    && t == s.(phase := Waiting(s.phase.request, s.phase.pools),
               requests := s.requests + [RequestPacket(s.phase.request)])
  }

  /** The packet cannot be written; the caller falls back to another way of executing. */
  ghost predicate SendFails(s: State, t: State) {
    s.phase.Sending? && t == s.(phase := Idle)
  }

  /** What a client makes of a packet. */
  function Received(packet: seq<Datum>): Result {
    match ParseResult(packet)
    case Accepted(result, _) => result
    case _ => ERROR_RESULT
  }

  ghost predicate Return(s: State, t: State) {
    && s.phase.Waiting? && s.results != []
    && t == s.(phase := Idle, results := s.results[1..],
               replies := s.replies + [Reply(s.phase.request, s.phase.pools, Received(s.results[0]))])
  }

  ghost predicate StartFree(s: State, t: State, key: int) {
    && s.phase.Idle?
    && if key in s.client.slots && s.client.slots[key] < |s.client.cache|
       then t == s.(client := Release(s.client, key), phase := Freeing(s.client.slots[key]))
       else t == s
  }

  /** The remote call of `freeMemory`. */
  ghost predicate RemoteFree(s: State, t: State) {
    s.phase.Freeing? && t == s.(phase := Idle, server := s.server - {s.phase.slot})
  }

  // ---------------------------------------------------------------- steps of the server

  ghost predicate Receive(s: State, t: State) {
    && s.task.Receiving? && s.requests != []
    && match ParseRequest(s.requests[0]) {
         case Accepted(request, _) => t == s.(requests := s.requests[1..], task := Asking(request))
         case _ => t == s.(requests := s.requests[1..], results := s.results + [ResultPacket(ERROR_RESULT)])
       }
  }

  ghost predicate Ask(s: State, t: State) {
    && s.task.Asking?
    && t == s.(server := Ensured(s.server, s.task.request.slots, s.client), task := Executing(s.task.request))
  }

  /** Any result may come out. */
  ghost predicate Execute(s: State, t: State, result: Result) {
    && s.task.Executing?
    && t == s.(task := Receiving, server := LookedUp(s.server, s.task.request.slots),
               results := s.results + [ResultPacket(Sendable(Answer(result)))],
               log := s.log + [Exchange(s.task.request, PoolsOf(s.server, s.task.request.slots), result)])
  }

  ghost predicate Step(s: State, t: State) {
    || (exists keys, memories, request :: StartCompute(s, t, keys, memories, request))
    || Send(s, t) || SendFails(s, t) || Return(s, t)
    || (exists key :: StartFree(s, t, key)) || RemoteFree(s, t)
    || Receive(s, t) || Ask(s, t) || (exists result :: Execute(s, t, result))
  }

  // ---------------------------------------------------------------- the invariant

  /** The request's slots hold its pools. */
  ghost predicate Backed(client: CacheState, request: Request, pools: seq<HidlMemory>) {
    AllInUse(client, request.slots) && MemoriesOf(client, request.slots) == pools
  }

  /** Nothing is under way, and every execution has been answered. */
  ghost predicate Quiet(s: State) {
    s.requests == [] && s.task.Receiving? && s.results == [] && |s.log| == |s.replies|
  }

  /** The one request of a waiting client is in exactly one place. */
  ghost predicate OnItsWay(s: State, request: Request, pools: seq<HidlMemory>) {
    || (s.requests == [RequestPacket(request)] && s.task.Receiving? && s.results == [] && |s.log| == |s.replies|)
    || (s.requests == [] && s.task == Asking(request) && s.results == [] && |s.log| == |s.replies|)
    || (s.requests == [] && s.task == Executing(request) && s.results == [] && |s.log| == |s.replies| &&
        PoolsOf(s.server, request.slots) == pools)
    || (s.requests == [] && s.task.Receiving? && |s.log| == |s.replies| + 1 && Answered(s, request, pools))
  }

  /** The last execution was for this request, and its answer is on the way. */
  ghost predicate Answered(s: State, request: Request, pools: seq<HidlMemory>) {
    && s.log != [] && s.log[|s.log|-1].request == request && s.log[|s.log|-1].used == pools
    && s.results == [ResultPacket(Sendable(Answer(s.log[|s.log|-1].said)))]
  }

  /** Coherence up to the slot whose memory is being freed. */
  ghost predicate CoherentBut(s: State) {
    match s.phase
    case Freeing(slot) =>
      && slot < |s.client.cache| && s.client.cache[slot] == Unset
      && s.client.free != [] && s.client.free[|s.client.free|-1] == slot
      && forall x :: Present(s.server, x) && x != slot ==> 0 <= x < |s.client.cache| && s.server[x] == s.client.cache[x]
    case _ => Coherent(s.server, s.client)
  }

  ghost predicate Flow(s: State) {
    match s.phase
    case Idle => Quiet(s)
    case Sending(request, pools) => Quiet(s) && Backed(s.client, request, pools)
    case Waiting(request, pools) =>
      && Backed(s.client, request, pools) && |RequestPacket(request)| <= CHANNEL_LENGTH
      && OnItsWay(s, request, pools)
    case Freeing(_) => Quiet(s)
  }

  /** Every result that the client returned is the server's answer to this very request, executed with
    * the pools that the client meant: a success as the prepared model reported it, as far as it fits into the
    * channel, and the status of a failure. */
  ghost predicate Faithful(replies: seq<Reply>, log: seq<Exchange>) {
    && |replies| <= |log|
    && forall i :: 0 <= i < |replies| ==>
         && log[i].request == replies[i].request && log[i].used == replies[i].pools
         && Answers(log[i].said, replies[i].result)
  }

  ghost predicate Inv(s: State) {
    ValidCache(s.client) && CoherentBut(s) && Flow(s) && Faithful(s.replies, s.log)
  }

  /** Binding more keys keeps the server coherent: slots it knows are bound and stay what they are. */
  lemma GetAllCoherent(server: ServerCache, client: CacheState, keys: seq<int>, memories: seq<HidlMemory>)
    requires ValidCache(client) && Coherent(server, client) && |keys| == |memories|
    ensures Coherent(server, GetAll(client, keys, memories))
  {
    var after := GetAll(client, keys, memories);
    GetAllKeeps(client, keys, memories);
    forall x | Present(server, x) ensures 0 <= x < |after.cache| && server[x] == after.cache[x] {
      assert x !in client.free;
      assert InUse(client, x);
      var k :| k in client.slots && client.slots[k] == x;
    }
  }

  lemma GetAllBacked(client: CacheState, keys: seq<int>, memories: seq<HidlMemory>, request: Request)
    requires ValidCache(client) && ProperRequest(client, keys, memories)
    requires request.slots == SlotsFor(GetAll(client, keys, memories), keys)
    ensures Backed(GetAll(client, keys, memories), request, memories)
  {
    var after := GetAll(client, keys, memories);
    GetAllServes(client, keys, memories);
    forall i | 0 <= i < |keys|
      ensures 0 <= request.slots[i] < |after.cache| && after.cache[request.slots[i]] == memories[i] &&
              memories[i] != Unset
    {
      assert Serves(after, keys[i], memories[i]);
    }
  }

  lemma ComputeKeeps(s: State, t: State, keys: seq<int>, memories: seq<HidlMemory>, request: Request)
    requires Inv(s) && StartCompute(s, t, keys, memories, request)
    ensures Inv(t)
  {
    hide ValidCache, GetAll, SlotsFor, Backed, Coherent, Faithful;
    GetAllKeeps(s.client, keys, memories);
    GetAllCoherent(s.server, s.client, keys, memories);
    GetAllBacked(s.client, keys, memories, request);
  }

  lemma FreeKeeps(s: State, t: State, key: int)
    requires Inv(s) && StartFree(s, t, key)
    ensures Inv(t)
  {
    hide ValidCache, Faithful;
    KeySlotBounded(s.client, key);
    if key in s.client.slots { ReleaseKeeps(s.client, key); }
  }

  lemma RemoteFreeKeeps(s: State, t: State)
    requires Inv(s) && RemoteFree(s, t)
    ensures Inv(t)
  {
    hide ValidCache, Faithful;
  }

  lemma ReceiveKeeps(s: State, t: State)
    requires Inv(s) && Receive(s, t)
    ensures Inv(t)
  {
    hide ValidCache, Coherent, Backed, Faithful, RequestPacket, ParseRequest, ResultPacket;
    assert s.phase.Waiting?;
    RequestRoundTrip(s.phase.request);
  }

  lemma AskKeeps(s: State, t: State)
    requires Inv(s) && Ask(s, t)
    ensures Inv(t)
  {
    hide ValidCache, Coherent, Faithful, RequestPacket, ResultPacket, Ensured;
    EnsuredCoherent(s.server, s.task.request.slots, s.client);
  }

  lemma ExecuteKeeps(s: State, t: State, result: Result)
    requires Inv(s) && Execute(s, t, result)
    ensures Inv(t)
  {
    hide ValidCache, Coherent, RequestPacket, ResultPacket, LookedUp, PoolsOf, Backed, Sendable, Answer;
    LookingUpCoherent(s.server, s.task.request.slots, s.client);
  }

  lemma ReturnKeeps(s: State, t: State)
    requires Inv(s) && Return(s, t)
    ensures Inv(t)
  {
    hide ValidCache, Coherent, Backed, RequestPacket, ResultPacket, ParseResult, Sendable, Answer, Answers;
    var said := s.log[|s.log|-1].said;
    SendableAnswers(said);
    ResultRoundTrip(Sendable(Answer(said)));
  }

  lemma SendKeeps(s: State, t: State)
    requires Inv(s) && (Send(s, t) || SendFails(s, t))
    ensures Inv(t)
  {
    hide ValidCache, Coherent, Backed, Faithful, RequestPacket, ResultPacket;
  }

  lemma StepKeeps(s: State, t: State)
    requires Inv(s) && Step(s, t)
    ensures Inv(t)
  {
    hide Inv, StartCompute, StartFree, Execute, RemoteFree, Receive, Ask, Return, Send, SendFails;
    if keys, memories, request :| StartCompute(s, t, keys, memories, request) {
      ComputeKeeps(s, t, keys, memories, request);
    } else if key :| StartFree(s, t, key) {
      FreeKeeps(s, t, key);
    } else if result :| Execute(s, t, result) {
      ExecuteKeeps(s, t, result);
    } else if RemoteFree(s, t) {
      RemoteFreeKeeps(s, t);
    } else if Receive(s, t) {
      ReceiveKeeps(s, t);
    } else if Ask(s, t) {
      AskKeeps(s, t);
    } else if Return(s, t) {
      ReturnKeeps(s, t);
    } else {
      SendKeeps(s, t);
    }
  }

  ghost predicate IsRun(states: seq<State>) {
    && states != [] && Init(states[0])
    && forall i :: 0 <= i < |states| - 1 ==> Step(states[i], states[i+1])
  }

  lemma {:induction false} RunKeeps(states: seq<State>, i: nat)
    requires IsRun(states) && i < |states|
    ensures Inv(states[i])
  {
    if i == 0 {
      assert Inv(State(EMPTY_CACHE, Idle, [], [], map[], Receiving, [], []));
    } else {
      hide Inv, Step;
      RunKeeps(states, i - 1);
      StepKeeps(states[i-1], states[i]);
    }
  }

  /** Burst cache coherence: in every interleaving, whenever the client's lock is free, each valid entry
    * of the server is the client's memory for that slot; and every result that the client has returned
    * is the server's answer to this request, executed with the very memories that the client meant. */
  lemma CachesCoherent(states: seq<State>, i: nat)
    requires IsRun(states) && i < |states|
    ensures states[i].phase.Idle? ==> Coherent(states[i].server, states[i].client)
    ensures Faithful(states[i].replies, states[i].log)
  {
    RunKeeps(states, i);
  }

  // ---------------------------------------------------------------- progress

  /** Steps that a waiting client still has to wait for. */
  function Remaining(s: State): nat {
    if !s.phase.Waiting? then 0
    else if s.requests != [] then 4
    else if s.task.Asking? then 3
    else if s.task.Executing? then 2
    else 1
  }

  ghost predicate CanStep(s: State) {
    exists t :: Step(s, t)
  }

  /** While the client waits there is a step to take. */
  lemma WaitingEnabled(s: State) returns (t: State)
    requires Inv(s) && s.phase.Waiting?
    ensures Step(s, t)
  {
    hide ValidCache, CoherentBut, Faithful, Backed, RequestPacket, ParseRequest, ResultPacket, Ensured;
    hide LookedUp, PoolsOf;
    hide Received;
    if s.requests != [] {
      RequestRoundTrip(s.phase.request);
      t := s.(requests := s.requests[1..], task := Asking(s.phase.request));
      assert Receive(s, t);
    } else if s.task.Asking? {
      t := s.(server := Ensured(s.server, s.task.request.slots, s.client), task := Executing(s.task.request));
      assert Ask(s, t);
    } else if s.task.Executing? {
      var answer := Sendable(Answer(ERROR_RESULT));
      t := s.(task := Receiving, server := LookedUp(s.server, s.task.request.slots),
              results := s.results + [ResultPacket(answer)],
              log := s.log + [Exchange(s.task.request, PoolsOf(s.server, s.task.request.slots), ERROR_RESULT)]);
      assert Execute(s, t, ERROR_RESULT);
    } else {
      t := s.(phase := Idle, results := s.results[1..],
              replies := s.replies + [Reply(s.phase.request, s.phase.pools, Received(s.results[0]))]);
      assert Return(s, t);
    }
  }

  /** Whatever step is taken then, it brings the reply nearer. */
  lemma WaitingShrinks(s: State, t: State)
    requires Inv(s) && Step(s, t) && s.phase.Waiting?
    ensures Remaining(t) == Remaining(s) - 1
    ensures if t.phase.Waiting? then t.phase == s.phase && t.replies == s.replies
            else t.phase.Idle? && |t.replies| == |s.replies| + 1 &&
                 t.replies[|s.replies|].request == s.phase.request && t.replies[|s.replies|].pools == s.phase.pools
  {
    hide ValidCache, CoherentBut, Faithful, Backed, RequestPacket, ParseRequest, ResultPacket, Ensured;
    hide LookedUp, PoolsOf;
    hide Received;
    RequestRoundTrip(s.phase.request);
  }

  /** A waiting client waits for exactly as many steps as it has to, four at most; it is never stuck, and
    * then it has a reply to its request. */
  lemma {:induction false} WaitingEnds(states: seq<State>, i: nat)
    requires IsRun(states) && i < |states| && states[i].phase.Waiting?
    ensures 1 <= Remaining(states[i]) <= 4
    ensures i + Remaining(states[i]) >= |states| ==> CanStep(states[|states|-1])
    ensures i + Remaining(states[i]) < |states| ==>
              var s, e := states[i], states[i + Remaining(states[i])];
              && e.phase.Idle? && |e.replies| == |s.replies| + 1
              && e.replies[|s.replies|].request == s.phase.request && e.replies[|s.replies|].pools == s.phase.pools
    decreases Remaining(states[i])
  {
    hide Inv, Step;
    RunKeeps(states, i);
    if i + 1 < |states| {
      WaitingShrinks(states[i], states[i+1]);
      if states[i+1].phase.Waiting? { WaitingEnds(states, i + 1); }
    } else {
      var t := WaitingEnabled(states[i]);
    }
  }

  // ---------------------------------------------------------------- what a lost remote call does

  /** The client does not look at the outcome of the remote call, so the call may be lost. */
  ghost predicate LoseFree(s: State, t: State) {
    s.phase.Freeing? && t == s.(phase := Idle)
  }

  ghost predicate MayStep(s: State, t: State, lossy: bool) {
    Step(s, t) || (lossy && LoseFree(s, t))
  }

  /** A run in which remote calls may be lost, or not. */
  ghost predicate IsLossyRun(states: seq<State>, lossy: bool) {
    && states != [] && Init(states[0])
    && forall i :: 0 <= i < |states| - 1 ==> MayStep(states[i], states[i+1], lossy)
  }

  /** A lost call does no harm exactly when the server never asked for the slot. */
  lemma LostRemoteFree(s: State, t: State)
    requires Inv(s) && LoseFree(s, t)
    ensures Inv(t) <==> !Present(s.server, s.phase.slot)
  {
    hide ValidCache, Faithful;
  }

  lemma Extended(states: seq<State>, t: State, lossy: bool)
    requires states != [] && IsLossyRun(states, lossy) && MayStep(states[|states|-1], t, lossy)
    ensures IsLossyRun(states + [t], lossy)
  {
    hide MayStep, Init;
  }

  lemma LosslessRun(states: seq<State>)
    ensures IsRun(states) <==> IsLossyRun(states, false)
  {
    hide Step, Init;
    assert forall s, t :: MayStep(s, t, false) <==> Step(s, t);
  }

  lemma MoreIsLossy(states: seq<State>)
    requires IsLossyRun(states, false)
    ensures IsLossyRun(states, true)
  {
    hide Step, Init, LoseFree;
  }

  function Last(states: seq<State>): State
    requires states != []
  {
    states[|states|-1]
  }

  /** A request without operands that asks for one slot. */
  function OneSlot(slot: nat): Request {
    BurstPackets.Request([], [], [slot], false)
  }

  lemma OneSlotFits(slot: nat)
    ensures |RequestPacket(OneSlot(slot))| == 3
  {
  }

  /** The client of an idle burst binds one new key, and has a request for it executed. */
  lemma OneExchange(states: seq<State>, lossy: bool, key: int, memory: HidlMemory) returns (more: seq<State>)
    requires states != [] && IsLossyRun(states, lossy) && Last(states).phase.Idle? && Quiet(Last(states)) &&
             ValidCache(Last(states).client)
    requires key !in Last(states).client.slots && memory != Unset
    ensures states <= more && IsLossyRun(more, lossy)
    ensures Exchanged(Last(states), Last(more), key, memory)
  {
    hide IsLossyRun, ValidCache, RequestPacket, Ensured, LookedUp, PoolsOf;
    var request := OneSlot(Next(Last(states).client));
    OneSlotFits(Next(Last(states).client));
    var sent := RequestSent(states, lossy, key, memory);
    var asked := MemoryAsked(sent, lossy, request);
    more := ReplyReturned(asked, lossy, request, [memory]);
  }

  /** The client binds the key and sends its request. */
  lemma RequestSent(states: seq<State>, lossy: bool, key: int, memory: HidlMemory) returns (more: seq<State>)
    requires states != [] && IsLossyRun(states, lossy) && Last(states).phase.Idle? && Quiet(Last(states)) &&
             ValidCache(Last(states).client)
    requires key !in Last(states).client.slots && memory != Unset
    ensures states <= more && IsLossyRun(more, lossy)
    ensures var s, request := Last(states), OneSlot(Next(Last(states).client));
            Last(more) == s.(client := Bind(s.client, key, memory), phase := Waiting(request, [memory]),
                             requests := [RequestPacket(request)])
  {
    hide IsLossyRun, RequestPacket, ValidCache;
    var s, request := Last(states), OneSlot(Next(Last(states).client));
    var client := Bind(s.client, key, memory);
    OneSlotFits(Next(s.client));
    KeyBound(s.client, key, memory);
    var bound := s.(client := client, phase := Sending(request, [memory]));
    assert StartCompute(s, bound, [key], [memory], request);
    var sent := bound.(phase := Waiting(request, [memory]), requests := [RequestPacket(request)]);
    assert Send(bound, sent);
    Extended(states, bound, lossy);
    Extended(states + [bound], sent, lossy);
    more := states + [bound] + [sent];
  }

  lemma KeyBound(c: CacheState, key: int, memory: HidlMemory)
    requires ValidCache(c) && key !in c.slots && memory != Unset
    ensures ProperRequest(c, [key], [memory]) && GetAll(c, [key], [memory]) == Bind(c, key, memory)
    ensures SlotsFor(Bind(c, key, memory), [key]) == [Next(c)]
  {
    assert [key][..0] == [] && [memory][..0] == [];
  }

  /** The server parses the request and asks for the memory of its slot, if it does not know it. */
  lemma MemoryAsked(states: seq<State>, lossy: bool, request: Request) returns (more: seq<State>)
    requires states != [] && IsLossyRun(states, lossy) && Last(states).task.Receiving? &&
             Last(states).requests == [RequestPacket(request)]
    requires |RequestPacket(request)| <= CHANNEL_LENGTH
    ensures states <= more && IsLossyRun(more, lossy)
    ensures var s := Last(states);
            Last(more) == s.(requests := [], task := Executing(request),
                             server := Ensured(s.server, request.slots, s.client))
  {
    hide IsLossyRun, RequestPacket, ParseRequest, Ensured;
    var s := Last(states);
    RequestRoundTrip(request);
    var received := s.(requests := [], task := Asking(request));
    assert Receive(s, received);
    var asked := received.(server := Ensured(s.server, request.slots, s.client), task := Executing(request));
    assert Ask(received, asked);
    Extended(states, received, lossy);
    Extended(states + [received], asked, lossy);
    more := states + [received] + [asked];
  }

  /** The server executes it, and the client gets the reply. */
  lemma ReplyReturned(states: seq<State>, lossy: bool, request: Request, pools: seq<HidlMemory>)
    returns (more: seq<State>)
    requires states != [] && IsLossyRun(states, lossy) && Last(states).phase == Waiting(request, pools)
    requires Last(states).task == Executing(request) && Last(states).results == []
    ensures states <= more && IsLossyRun(more, lossy) && Last(more).phase.Idle? && Last(more).results == []
    ensures var s, answer := Last(states), Sendable(Answer(ERROR_RESULT));
            Last(more) == s.(phase := Idle, task := Receiving, server := LookedUp(s.server, request.slots),
                             log := s.log + [Exchange(request, PoolsOf(s.server, request.slots), ERROR_RESULT)],
                             replies := s.replies + [Reply(request, pools, Received(ResultPacket(answer)))])
  {
    hide IsLossyRun, ResultPacket, LookedUp, PoolsOf, Received;
    var s, answer := Last(states), Sendable(Answer(ERROR_RESULT));
    var executed := s.(task := Receiving, server := LookedUp(s.server, request.slots),
                       results := [ResultPacket(answer)],
                       log := s.log + [Exchange(request, PoolsOf(s.server, request.slots), ERROR_RESULT)]);
    assert Execute(s, executed, ERROR_RESULT);
    var returned := executed.(phase := Idle, results := [],
                              replies := s.replies + [Reply(request, pools, Received(ResultPacket(answer)))]);
    assert Return(executed, returned);
    Extended(states, executed, lossy);
    Extended(states + [executed], returned, lossy);
    more := states + [executed] + [returned];
  }

  ghost predicate Exchanged(s: State, t: State, key: int, memory: HidlMemory) {
    && t.phase.Idle? && Quiet(t) && t.client == Bind(s.client, key, memory)
    && |t.log| == |t.replies| == |s.replies| + 1 && t.replies[|s.replies|].pools == [memory]
    && t.server == ServedCache(s.server, [Next(s.client)], t.client)
    && t.log[|s.replies|].used == PoolsOf(Ensured(s.server, [Next(s.client)], t.client), [Next(s.client)])
  }

  /** After a lost call, the next key that is bound gets the slot, and its requests are served the memory
    * that the server has for it: the new one exactly if the server did not hold the old one. */
  lemma NextKeyServed(states: seq<State>, key: int, memory: HidlMemory) returns (more: seq<State>)
    requires states != [] && IsRun(states) && Last(states).phase.Freeing?
    requires key !in Last(states).client.slots && memory != Unset
    ensures states <= more && IsLossyRun(more, true) && Last(more).phase.Idle? && Last(more).replies != []
    ensures |Last(more).log| == |Last(more).replies|
    ensures Last(more).replies[|Last(more).replies|-1].pools == [memory]
    ensures var s, slot := Last(states), Last(states).phase.slot;
            Last(more).log[|Last(more).log|-1].used == [if Present(s.server, slot) then s.server[slot] else memory]
  {
    hide IsRun, IsLossyRun, Quiet, ValidCache, Ensured, ServedCache, Step;
    var s := Last(states);
    RunKeeps(states, |states| - 1);
    LosslessRun(states);
    MoreIsLossy(states);
    FreedOnTop(s);
    Extended(states, s.(phase := Idle), true);
    var lost := states + [s.(phase := Idle)];
    more := OneExchange(lost, true, key, memory);
    SlotServed(s.server, s.client, key, memory, s.phase.slot);
  }

  lemma FreedOnTop(s: State)
    requires Inv(s) && s.phase.Freeing?
    ensures Next(s.client) == s.phase.slot && ValidCache(s.client) && Quiet(s.(phase := Idle))
    ensures s.client.free != []
  {
    hide ValidCache, Faithful;
  }

  /** Pools of a request for a slot that was just bound to a new memory. */
  lemma SlotServed(server: ServerCache, client: CacheState, key: int, memory: HidlMemory, slot: nat)
    requires ValidCache(client) && key !in client.slots && memory != Unset && slot == Next(client)
    ensures PoolsOf(Ensured(server, [slot], Bind(client, key, memory)), [slot]) ==
            [if Present(server, slot) then server[slot] else memory]
  {
    hide ValidCache;
    var after := Bind(client, key, memory);
    BindExtends(client, key, memory);
    assert AllInUse(after, [slot]);
    EnsuredEntry(server, [slot], after, slot);
    assert slot in [slot];
  }

  /** Such states are reached: a memory is used once, and then it is freed. */
  lemma MemoryUsedAndFreed(memory: HidlMemory) returns (states: seq<State>)
    requires memory != Unset
    ensures states != [] && IsRun(states) && Last(states).phase == Freeing(0) && Last(states).client.slots == map[]
    ensures Present(Last(states).server, 0) && Last(states).server[0] == memory
  {
    hide IsRun, IsLossyRun, Step;
    var start := State(EMPTY_CACHE, Idle, [], [], map[], Receiving, [], []);
    StartIsRun(start);
    var used := OneExchange([start], false, 0, memory);
    var s := Last(used);
    SlotKept(memory);
    var freed := s.(client := Release(s.client, 0), phase := Freeing(0));
    assert StartFree(s, freed, 0);
    StepOfFree(s, freed, 0);
    Extended(used, freed, false);
    states := used + [freed];
    LosslessRun(states);
  }

  lemma StartIsRun(start: State)
    requires Init(start)
    ensures IsLossyRun([start], false)
  {
  }

  lemma StepOfFree(s: State, t: State, key: int)
    requires StartFree(s, t, key)
    ensures MayStep(s, t, false)
  {
  }

  lemma SlotKept(memory: HidlMemory)
    requires memory != Unset
    ensures var client := Bind(EMPTY_CACHE, 0, memory);
            && client == CacheState(map[0 := 0], [memory], []) && Release(client, 0).slots == map[]
            && Present(ServedCache(map[], [0], client), 0) && ServedCache(map[], [0], client)[0] == memory
  {
    var client := Bind(EMPTY_CACHE, 0, memory);
    SlotServed(map[], EMPTY_CACHE, 0, memory, 0);
    LookedUpFacts(Ensured(map[], [0], client), [0], 0);
    assert PoolsOf(Ensured(map[], [0], client), [0])[0] == memory;
  }

  /** So one lost call is enough for a request to be executed with a memory that its caller did not mean. */
  lemma StaleMemoryUsed() returns (states: seq<State>)
    ensures states != [] && IsLossyRun(states, true) && Last(states).phase.Idle?
    ensures |Last(states).replies| == |Last(states).log| > 0
    ensures var k := |Last(states).log| - 1;
            Last(states).replies[k].pools == [Shared(2)] && Last(states).log[k].used == [Shared(1)]
  {
    hide IsRun, IsLossyRun;
    var freed := MemoryUsedAndFreed(Shared(1));
    states := NextKeyServed(freed, 1, Shared(2));
  }

  // ---------------------------------------------------------------- a computation from end to end

  /** A client with the server that serves it; every request is served while the client waits. */
  class ExecutionBurstController {
    const memoryCache: ExecutionBurstCallback
    const server: BurstExecutorWithCache

    ghost predicate Valid()
      reads memoryCache, server
    {
      memoryCache.Valid() && Coherent(server.memoryCache, memoryCache.State())
    }

    constructor ()
      ensures Valid() && fresh(memoryCache) && fresh(server) && memoryCache.State() == EMPTY_CACHE
    {
      memoryCache := new ExecutionBurstCallback();
      server := new BurstExecutorWithCache();
    }

    /** The result is what the prepared model says of the operands and of the very memories that were
      * passed: a success with its shapes and timing, as far as the channel can hold them, and the status of a
      * failure. If the request is too long for the channel, another way is to be taken. */
    method TryCompute(inputs: seq<Block>, outputs: seq<Block>, measure: bool, memories: seq<HidlMemory>, keys: seq<int>,
                      prepared: (Request, seq<HidlMemory>) -> Result)
      returns (result: Result, fallback: bool, ghost request: Request)
      requires Valid() && ProperRequest(memoryCache.State(), keys, memories)
      requires |GetAll(memoryCache.State(), keys, memories).cache| <= MAX_NUMBER_OF_SLOTS
      modifies memoryCache, server
      ensures Valid() && memoryCache.State() == GetAll(old(memoryCache.State()), keys, memories)
      ensures request.inputs == inputs && request.outputs == outputs && request.measure == measure
      ensures |request.slots| == |keys|
      ensures forall i :: 0 <= i < |keys| ==>
                keys[i] in memoryCache.memoryIdToSlot && request.slots[i] == memoryCache.memoryIdToSlot[keys[i]]
      ensures fallback <==> |RequestPacket(request)| > CHANNEL_LENGTH
      ensures fallback ==>
                result == Result(GeneralFailure, [], NO_TIMING) && server.memoryCache == old(server.memoryCache)
      ensures !fallback ==> Answers(prepared(request, memories), result)
    {
      hide ValidCache, Coherent, GetAll, SlotsFor, RequestPacket, ResultPacket, ParseRequest, ParseResult;
      hide Ensured, LookedUp, PoolsOf, Sendable, Answer, AllInUse, MemoriesOf;
      ghost var before := memoryCache.State();
      GetAllCoherent(server.memoryCache, before, keys, memories);
      var slots := memoryCache.GetSlots(memories, keys);
      request := BurstPackets.Request(inputs, outputs, slots, measure);
      GetAllBacked(before, keys, memories, request);
      var packet := SerializeRequest(BurstPackets.Request(inputs, outputs, slots, measure));
      if |packet| > CHANNEL_LENGTH { return ERROR_RESULT, true, request; }
      RequestRoundTrip(request);
      EnsuredCoherent(server.memoryCache, slots, memoryCache.State());
      var answer := server.Serve(packet, memoryCache, prepared);
      SendableAnswers(prepared(request, memories));
      ResultRoundTrip(Sendable(Answer(prepared(request, memories))));
      var parsed := DeserializeResult(answer);
      return if parsed.Accepted? then parsed.value else ERROR_RESULT, false, request;
    }

    /** Forgets a memory on both sides. */
    method FreeMemory(key: int)
      requires Valid()
      modifies memoryCache, server
      ensures Valid() && key !in memoryCache.memoryIdToSlot
      ensures forall k :: k in memoryCache.memoryIdToSlot <==> k in old(memoryCache.memoryIdToSlot) && k != key
      ensures forall k :: k in memoryCache.memoryIdToSlot ==>
                memoryCache.memoryIdToSlot[k] == old(memoryCache.memoryIdToSlot)[k]
    {
      ghost var before := memoryCache.State();
      KeySlotBounded(before, key);
      var valid, slot := memoryCache.FreeMemory(key);
      if valid {
        ReleaseCoherent(server.memoryCache, before, key);
        server.RemoveCacheEntry(slot);
      }
    }
  }

  lemma ReleaseCoherent(server: ServerCache, client: CacheState, key: int)
    requires ValidCache(client) && Coherent(server, client) && key in client.slots
    ensures client.slots[key] < |client.cache| && Coherent(server - {client.slots[key]}, Release(client, key))
  {
  }
}
