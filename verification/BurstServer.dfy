/** Server side of a burst: the cache of memories by slot. */
module BurstServing {
  import opened Sequences
  import opened OutputShapes
  import opened BurstPackets
  import opened BurstSlots

  type ServerCache = map<int, HidlMemory>

  predicate Present(cache: ServerCache, slot: int) {
    slot in cache && cache[slot] != Unset
  }

  /** Drops all but the first of equal neighbours. */
  function Unique(s: seq<int>): (r: seq<int>) {
    if |s| < 2 then s
    else if s[|s|-1] == s[|s|-2] then Unique(s[..|s|-1])
    else Unique(s[..|s|-1]) + [s[|s|-1]]
  }

  lemma {:induction false} UniqueFacts(s: seq<int>)
    requires Ascending(s)
    ensures forall x :: x in Unique(s) <==> x in s
    ensures NoDup(Unique(s))
    ensures s != [] ==> forall x :: x in Unique(s) ==> x <= s[|s|-1]
  {
    if |s| >= 2 {
      var init, last := s[..|s|-1], s[|s|-1];
      UniqueFacts(init);
      assert s == init + [last];
      if last != s[|s|-2] { NoDupAppend(Unique(init), last); }
    }
  }

  /** Drops the slots that are present. */
  function RemovePresent(cache: ServerCache, s: seq<int>): seq<int> {
    if s == [] then []
    else RemovePresent(cache, s[..|s|-1]) + (if Present(cache, s[|s|-1]) then [] else [s[|s|-1]])
  }

  lemma {:induction false} RemovePresentFacts(cache: ServerCache, s: seq<int>)
    requires NoDup(s)
    ensures forall x :: x in RemovePresent(cache, s) <==> x in s && !Present(cache, x)
    ensures NoDup(RemovePresent(cache, s))
  {
    if s != [] {
      RemovePresentFacts(cache, s[..|s|-1]);
      assert s == s[..|s|-1] + [s[|s|-1]];
      if !Present(cache, s[|s|-1]) { NoDupAppend(RemovePresent(cache, s[..|s|-1]), s[|s|-1]); }
    }
  }

  /** The slots whose memory the server has to ask for: each once. */
  function UnknownSlots(cache: ServerCache, slots: seq<int>): seq<int> {
    RemovePresent(cache, Unique(Sort(slots)))
  }

  lemma UnknownSlotsFacts(cache: ServerCache, slots: seq<int>)
    ensures forall x :: x in UnknownSlots(cache, slots) <==> x in slots && !Present(cache, x)
    ensures NoDup(UnknownSlots(cache, slots))
  {
    SortSorts(slots);
    UniqueFacts(Sort(slots));
    RemovePresentFacts(cache, Unique(Sort(slots)));
    forall x ensures x in Sort(slots) <==> x in slots {
      assert x in Sort(slots) <==> x in multiset(Sort(slots));
      assert x in slots <==> x in multiset(slots);
    }
  }

  function AddEntries(cache: ServerCache, slots: seq<int>, memories: seq<HidlMemory>): ServerCache
    requires |slots| == |memories|
  {
    if slots == [] then cache
    else
      var n := |slots| - 1;
      AddEntries(cache, slots[..n], memories[..n])[slots[n] := memories[n]]
  }

  lemma {:induction false} AddEntriesFacts(cache: ServerCache, slots: seq<int>, memories: seq<HidlMemory>)
    requires |slots| == |memories| && NoDup(slots)
    ensures AddEntries(cache, slots, memories).Keys == cache.Keys + Elements(slots)
    ensures forall x :: x in cache && x !in slots ==> AddEntries(cache, slots, memories)[x] == cache[x]
    ensures forall i :: 0 <= i < |slots| ==>
              slots[i] in AddEntries(cache, slots, memories) &&
              AddEntries(cache, slots, memories)[slots[i]] == memories[i]
  {
    if slots != [] {
      var n := |slots| - 1;
      var before, after := AddEntries(cache, slots[..n], memories[..n]), AddEntries(cache, slots, memories);
      AddEntriesFacts(cache, slots[..n], memories[..n]);
      ElementsLast(slots);
      assert after == before[slots[n] := memories[n]];
      forall i | 0 <= i < n ensures slots[i] in after && after[slots[i]] == memories[i] {
        assert slots[..n][i] == slots[i] && slots[i] != slots[n];
      }
      forall x | x in cache && x !in slots ensures after[x] == cache[x] {
        assert slots[n] in slots && (x in slots[..n] ==> x in slots);
      }
    }
  }

  /** The server's cache after it asked the client for the slots it does not know. */
  function Ensured(cache: ServerCache, slots: seq<int>, client: CacheState): ServerCache {
    var unknown := UnknownSlots(cache, slots);
    if unknown != [] && AllInUse(client, unknown)
    then AddEntries(cache, unknown, MemoriesOf(client, unknown))
    else cache
  }

  /** What comes of asking for slots: those that are not present are taken over from the memories of the
    * client, unless one of them is not in use. */
  ghost predicate Obtained(cache: ServerCache, slots: seq<int>, memories: seq<HidlMemory>, after: ServerCache) {
    if exists x :: x in slots && !Present(cache, x) && !(0 <= x < |memories| && memories[x] != Unset)
    then after == cache
    else
      && (forall x :: x in after <==> x in cache || x in slots)
      && (forall x :: x in after ==>
            if Present(cache, x) || x !in slots then x in cache && after[x] == cache[x]
            else 0 <= x < |memories| && after[x] == memories[x])
  }

  lemma EnsuredObtains(cache: ServerCache, slots: seq<int>, client: CacheState)
    ensures Obtained(cache, slots, client.cache, Ensured(cache, slots, client))
  {
    var unknown := UnknownSlots(cache, slots);
    UnknownSlotsFacts(cache, slots);
    if AllInUse(client, unknown) {
      AddEntriesFacts(cache, unknown, MemoriesOf(client, unknown));
      forall x | x in slots && !Present(cache, x)
        ensures 0 <= x < |client.cache| && client.cache[x] != Unset
        ensures x in Ensured(cache, slots, client) && Ensured(cache, slots, client)[x] == client.cache[x]
      {
        assert x in unknown;
        var i :| 0 <= i < |unknown| && unknown[i] == x;
        assert MemoriesOf(client, unknown)[i] == client.cache[x];
      }
      forall x | x in Ensured(cache, slots, client) ensures x in cache || x in slots {
        assert x in Elements(unknown) <==> x in unknown;
      }
    } else {
      var i :| 0 <= i < |unknown| && !(0 <= unknown[i] < |client.cache| && client.cache[unknown[i]] != Unset);
      assert unknown[i] in unknown;
    }
  }

  function PoolsOf(cache: ServerCache, slots: seq<int>): (pools: seq<HidlMemory>)
    ensures |pools| == |slots|
  {
    seq(|slots|, i requires 0 <= i < |slots| => if slots[i] in cache then cache[slots[i]] else Unset)
  }

  /** The cache after every slot was looked up. */
  function LookedUp(cache: ServerCache, slots: seq<int>): ServerCache {
    if slots == [] then cache
    else
      var before := LookedUp(cache, slots[..|slots|-1]);
      if slots[|slots|-1] in before then before else before[slots[|slots|-1] := Unset]
  }

  /** Looking slots up adds nothing but empty memories. */
  lemma {:induction false} LookedUpFacts(cache: ServerCache, slots: seq<int>, x: int)
    ensures x in LookedUp(cache, slots) <==> x in cache || x in slots
    ensures x in LookedUp(cache, slots) ==> LookedUp(cache, slots)[x] == if x in cache then cache[x] else Unset
  {
    if slots != [] {
      var n := |slots| - 1;
      assert slots == slots[..n] + [slots[n]];
      LookedUpFacts(cache, slots[..n], x);
      LookedUpFacts(cache, slots[..n], slots[n]);
    }
  }

  lemma LookedUpNext(cache: ServerCache, slots: seq<int>, i: nat)
    requires i < |slots|
    ensures var before, after := LookedUp(cache, slots[..i]), LookedUp(cache, slots[..i+1]);
            && slots[i] in after && PoolsOf(cache, slots[..i+1]) == PoolsOf(cache, slots[..i]) + [after[slots[i]]]
            && after == if slots[i] in before then before else before[slots[i] := Unset]
  {
    assert slots[..i+1][..i] == slots[..i];
    LookedUpFacts(cache, slots[..i], slots[i]);
  }

  // ---------------------------------------------------------------- serving a request

  const CHANNEL_LENGTH: nat := 1024

  const NO_TIMING := Timing(0xFFFF_FFFF_FFFF_FFFF, 0xFFFF_FFFF_FFFF_FFFF)

  const ERROR_RESULT := Result(GeneralFailure, [], NO_TIMING)

  /** A failed execution tells its status only. */
  function Answer(result: Result): Result {
    if result.status == None then result else Result(result.status, [], NO_TIMING)
  }

  /** An answer that does not fit into the channel is replaced by an error. */
  function Sendable(result: Result): (r: Result)
    ensures |ResultPacket(r)| <= CHANNEL_LENGTH
  {
    assert |ResultPacket(ERROR_RESULT)| == 2;
    if |ResultPacket(result)| <= CHANNEL_LENGTH then result else ERROR_RESULT
  }

  /** What comes back for `p`, what the prepared model said: a success as it is, if its packet fits into the
    * channel, and otherwise a general failure; of any other status nothing but the status. */
  ghost predicate Answers(p: Result, result: Result) {
    if p.status != None then result == Result(p.status, [], NO_TIMING)
    else if |ResultPacket(p)| <= CHANNEL_LENGTH then result == p
    else result == Result(GeneralFailure, [], NO_TIMING)
  }

  lemma SendableAnswers(p: Result)
    ensures Answers(p, Sendable(Answer(p)))
  {
    assert |ResultPacket(Result(p.status, [], NO_TIMING))| == 2;
  }

  /** The cache after a request was served. */
  function ServedCache(cache: ServerCache, slots: seq<int>, client: CacheState): ServerCache {
    LookedUp(Ensured(cache, slots, client), slots)
  }

  function Served(cache: ServerCache, request: Request, client: CacheState,
                  prepared: (Request, seq<HidlMemory>) -> Result): Result
  {
    Sendable(Answer(prepared(request, PoolsOf(Ensured(cache, request.slots, client), request.slots))))
  }

  class BurstExecutorWithCache {
    var memoryCache: ServerCache

    constructor ()
      ensures memoryCache == map[]
    {
      memoryCache := map[];
    }

    method AddCacheEntry(memory: HidlMemory, slot: int)
      modifies this
      ensures memoryCache == old(memoryCache)[slot := memory]
    {
      memoryCache := memoryCache[slot := memory];
    }

    method RemoveCacheEntry(slot: int)
      modifies this
      ensures memoryCache == old(memoryCache) - {slot}
    {
      memoryCache := memoryCache - {slot};
    }

    /** The client is asked for the slots that are not present: if all of those are in use there, each gets
      * the client's memory, and otherwise nothing changes. */
    method EnsureCacheEntriesArePresentLocked(slots: seq<int>, callback: ExecutionBurstCallback)
      requires callback.Valid()
      modifies this
      ensures memoryCache == Ensured(old(memoryCache), slots, callback.State())
      ensures Obtained(old(memoryCache), slots, callback.memoryCache, memoryCache)
    {
      EnsuredObtains(memoryCache, slots, callback.State());
      var unknownSlots := RemovePresent(memoryCache, Unique(Sort(slots)));
      if |unknownSlots| == 0 { return; }
      var status, returnedMemories := callback.GetMemories(unknownSlots);
      if status != None || |returnedMemories| != |unknownSlots| { return; }
      AddAll(unknownSlots, returnedMemories);
    }

    method AddAll(slots: seq<int>, memories: seq<HidlMemory>)
      requires |slots| == |memories|
      modifies this
      ensures memoryCache == AddEntries(old(memoryCache), slots, memories)
    {
      for i := 0 to |slots|
        invariant memoryCache == AddEntries(old(memoryCache), slots[..i], memories[..i])
      {
        assert slots[..i+1][..i] == slots[..i] && memories[..i+1][..i] == memories[..i];
        AddCacheEntry(memories[i], slots[i]);
      }
      assert slots[..|slots|] == slots && memories[..|memories|] == memories;
    }

    /** Pools of the request that is executed. A slot that is not in the cache gets an empty memory, which
      * stays in the cache. */
    method PoolsFor(slots: seq<int>) returns (pools: seq<HidlMemory>)
      modifies this
      ensures pools == PoolsOf(old(memoryCache), slots)
      ensures memoryCache == LookedUp(old(memoryCache), slots)
    {
      pools := [];
      for i := 0 to |slots|
        invariant pools == PoolsOf(old(memoryCache), slots[..i])
        invariant memoryCache == LookedUp(old(memoryCache), slots[..i])
      {
        if slots[i] !in memoryCache { AddCacheEntry(Unset, slots[i]); }
        pools := pools + [memoryCache[slots[i]]];
        LookedUpNext(old(memoryCache), slots, i);
      }
      assert slots[..|slots|] == slots;
    }

    /** Serves one packet: the answer to a request is what the prepared model says of it, with the memories
      * of its slots for pools; to anything else it is an error, and the cache is left alone. */
    method Serve(packet: seq<Datum>, callback: ExecutionBurstCallback, prepared: (Request, seq<HidlMemory>) -> Result)
      returns (answer: seq<Datum>)
      requires callback.Valid()
      modifies this
      ensures match ParseRequest(packet) {
                case Accepted(request, _) =>
                  && memoryCache == ServedCache(old(memoryCache), request.slots, callback.State())
                  && answer == ResultPacket(Served(old(memoryCache), request, callback.State(), prepared))
                  && Answers(prepared(request, PoolsOf(Ensured(old(memoryCache), request.slots, callback.State()),
                                                       request.slots)),
                             Served(old(memoryCache), request, callback.State(), prepared))
                case _ =>
                  memoryCache == old(memoryCache) && answer == ResultPacket(Result(GeneralFailure, [], NO_TIMING))
              }
    {
      hide ParseRequest, ResultPacket, Ensured, PoolsOf, LookedUp, Answers;
      var parsed := DeserializeRequest(packet);
      var result := ERROR_RESULT;
      if parsed.Accepted? {
        EnsureCacheEntriesArePresentLocked(parsed.value.slots, callback);
        var pools := PoolsFor(parsed.value.slots);
        SendableAnswers(prepared(parsed.value, pools));
        result := Answer(prepared(parsed.value, pools));
      }
      answer := SerializeResult(result);
      if |answer| > CHANNEL_LENGTH { answer := SerializeResult(ERROR_RESULT); }
    }
  }

  // ---------------------------------------------------------------- one exchange

  /** Each entry of the server that holds a memory is the client's memory for that slot. */
  ghost predicate Coherent(cache: ServerCache, client: CacheState) {
    forall s :: Present(cache, s) ==> 0 <= s < |client.cache| && cache[s] == client.cache[s]
  }

  /** An entry after asking is the client's, or an old one. */
  lemma EnsuredEntry(cache: ServerCache, slots: seq<int>, client: CacheState, s: int)
    requires AllInUse(client, slots)
    ensures if s in slots && !Present(cache, s)
            then 0 <= s < |client.cache| && s in Ensured(cache, slots, client) &&
                 Ensured(cache, slots, client)[s] == client.cache[s]
            else (s in Ensured(cache, slots, client) <==> s in cache) &&
                 (s in cache ==> Ensured(cache, slots, client)[s] == cache[s])
  {
    var unknown := UnknownSlots(cache, slots);
    UnknownSlotsFacts(cache, slots);
    AskedSlotsInUse(client, slots, unknown);
    AddEntriesFacts(cache, unknown, MemoriesOf(client, unknown));
    if s in unknown {
      var i :| 0 <= i < |unknown| && unknown[i] == s;
      assert MemoriesOf(client, unknown)[i] == client.cache[s];
    }
  }

  lemma LookingUpCoherent(cache: ServerCache, slots: seq<int>, client: CacheState)
    requires Coherent(cache, client)
    ensures Coherent(LookedUp(cache, slots), client)
  {
    forall s | Present(LookedUp(cache, slots), s) ensures Present(cache, s) && LookedUp(cache, slots)[s] == cache[s] {
      LookedUpFacts(cache, slots, s);
    }
  }

  /** Asking for unknown slots keeps the caches coherent and makes every requested slot present. */
  lemma EnsuredCoherent(cache: ServerCache, slots: seq<int>, client: CacheState)
    requires Coherent(cache, client) && AllInUse(client, slots)
    ensures Coherent(Ensured(cache, slots, client), client)
    ensures Coherent(ServedCache(cache, slots, client), client)
    ensures PoolsOf(Ensured(cache, slots, client), slots) == MemoriesOf(client, slots)
  {
    var after := Ensured(cache, slots, client);
    forall s | Present(after, s) ensures 0 <= s < |client.cache| && after[s] == client.cache[s] {
      EnsuredEntry(cache, slots, client, s);
    }
    LookingUpCoherent(after, slots, client);
    forall i | 0 <= i < |slots| ensures PoolsOf(after, slots)[i] == MemoriesOf(client, slots)[i] {
      assert slots[i] in slots;
      EnsuredEntry(cache, slots, client, slots[i]);
    }
  }

  lemma AskedSlotsInUse(client: CacheState, slots: seq<int>, unknown: seq<int>)
    requires AllInUse(client, slots) && forall x :: x in unknown ==> x in slots
    ensures AllInUse(client, unknown)
  {
    forall i | 0 <= i < |unknown| ensures 0 <= unknown[i] < |client.cache| && client.cache[unknown[i]] != Unset {
      var x := unknown[i];
      assert x in unknown;
      assert x in slots;
      var k :| 0 <= k < |slots| && slots[k] == unknown[i];
    }
  }
}
