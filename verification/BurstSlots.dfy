/** Client side of a burst: which slot stands for which memory. */
module BurstSlots {
  import opened Sequences
  import opened OutputShapes

  datatype HidlMemory = Unset | Shared(id: nat)

  const MAX_NUMBER_OF_SLOTS: nat := 0x7FFF_FFFF

  /** Slot of each bound key, memory of each slot, and slots that were freed, last one on top. */
  datatype CacheState = CacheState(slots: map<int, nat>, cache: seq<HidlMemory>, free: seq<nat>)

  const EMPTY_CACHE := CacheState(map[], [], [])

  ghost predicate InUse(c: CacheState, s: nat) {
    exists k :: k in c.slots && c.slots[k] == s
  }

  /** Bound slots and free slots partition the cache; keys have different slots; free slots are empty. */
  ghost predicate ValidCache(c: CacheState) {
    && NoDup(c.free)
    && (forall i :: 0 <= i < |c.free| ==> c.free[i] < |c.cache| && c.cache[c.free[i]] == Unset)
    && (forall k :: k in c.slots ==> c.slots[k] < |c.cache| && c.slots[k] !in c.free)
    && (forall j, k :: j in c.slots && k in c.slots && c.slots[j] == c.slots[k] ==> j == k)
    && (forall s: nat :: s < |c.cache| ==> s in c.free || InUse(c, s))
    && |c.slots| + |c.free| == |c.cache|
  }

  /** Bound keys keep their slots and their memories. */
  ghost predicate Extends(c: CacheState, after: CacheState) {
    forall k :: k in c.slots ==>
      && k in after.slots && after.slots[k] == c.slots[k]
      && c.slots[k] < |c.cache| && c.slots[k] < |after.cache| && after.cache[c.slots[k]] == c.cache[c.slots[k]]
  }

  lemma ExtendsTransitive(a: CacheState, b: CacheState, c: CacheState)
    requires Extends(a, b) && Extends(b, c)
    ensures Extends(a, c)
  {
  }

  /** The slot that is handed out next: the one freed last, or a new one. */
  function Next(c: CacheState): nat {
    if c.free == [] then |c.cache| else c.free[|c.free|-1]
  }

  /** Binds a key that is not bound. */
  function Bind(c: CacheState, key: int, memory: HidlMemory): CacheState {
    var slot := Next(c);
    CacheState(c.slots[key := slot],
               if c.free == [] then c.cache + [memory]
               else if slot < |c.cache| then c.cache[slot := memory]
               else c.cache,
               if c.free == [] then [] else c.free[..|c.free|-1])
  }

  lemma BindExtends(c: CacheState, key: int, memory: HidlMemory)
    requires ValidCache(c) && key !in c.slots
    ensures Extends(c, Bind(c, key, memory))
    ensures Next(c) < |Bind(c, key, memory).cache| && Bind(c, key, memory).cache[Next(c)] == memory
  {
    if c.free != [] { assert Next(c) in c.free; }
  }

  lemma BindInUse(c: CacheState, key: int, memory: HidlMemory, s: nat)
    requires ValidCache(c) && key !in c.slots && s < |Bind(c, key, memory).cache|
    ensures s in Bind(c, key, memory).free || InUse(Bind(c, key, memory), s)
  {
    var after := Bind(c, key, memory);
    if c.free != [] { assert c.free == c.free[..|c.free|-1] + [Next(c)]; }
    if s == Next(c) {
      assert key in after.slots && after.slots[key] == s;
    } else if InUse(c, s) {
      var k :| k in c.slots && c.slots[k] == s;
      assert k in after.slots && after.slots[k] == s;
    }
  }

  /** The slot freed last is the only one that leaves the free slots. */
  lemma PopFree(c: CacheState)
    requires ValidCache(c) && c.free != []
    ensures Next(c) < |c.cache| && Next(c) in c.free && Next(c) !in c.free[..|c.free|-1] && NoDup(c.free[..|c.free|-1])
    ensures forall k :: k in c.slots ==> c.slots[k] != Next(c)
    ensures forall s :: s in c.free[..|c.free|-1] ==> s in c.free && s < |c.cache| && c.cache[s] == Unset
  {
    assert c.free == c.free[..|c.free|-1] + [Next(c)] && c.free[|c.free|-1] in c.free;
  }

  lemma BindFreed(c: CacheState, key: int, memory: HidlMemory)
    requires ValidCache(c) && key !in c.slots && c.free != []
    ensures ValidCache(Bind(c, key, memory))
  {
    hide NoDup, InUse;
    var after, n := Bind(c, key, memory), |c.free| - 1;
    PopFree(c);
    assert after.free == c.free[..n] && after.slots == c.slots[key := Next(c)];
    forall s: nat | s < |after.cache| ensures s in after.free || InUse(after, s) { BindInUse(c, key, memory, s); }
    forall i | 0 <= i < n ensures after.free[i] < |after.cache| && after.cache[after.free[i]] == Unset {
      assert c.free[..n][i] in c.free[..n];
    }
    forall k | k in after.slots ensures after.slots[k] < |after.cache| && after.slots[k] !in after.free {
      if k != key { assert c.slots[k] !in c.free; }
    }
  }

  lemma BindNew(c: CacheState, key: int, memory: HidlMemory)
    requires ValidCache(c) && key !in c.slots && c.free == []
    ensures ValidCache(Bind(c, key, memory))
  {
    var after := Bind(c, key, memory);
    forall s: nat | s < |after.cache| ensures s in after.free || InUse(after, s) { BindInUse(c, key, memory, s); }
  }

  lemma BindKeeps(c: CacheState, key: int, memory: HidlMemory)
    requires ValidCache(c) && key !in c.slots
    ensures ValidCache(Bind(c, key, memory))
  {
    if c.free == [] { BindNew(c, key, memory); } else { BindFreed(c, key, memory); }
  }

  /** Unbinds a key. */
  function Release(c: CacheState, key: int): CacheState
    requires key in c.slots && c.slots[key] < |c.cache|
  {
    var slot := c.slots[key];
    CacheState(c.slots - {key}, c.cache[slot := Unset], c.free + [slot])
  }

  lemma ReleaseKeeps(c: CacheState, key: int)
    requires ValidCache(c) && key in c.slots
    ensures ValidCache(Release(c, key))
    ensures Extends(Release(c, key), c)
  {
    var after, slot := Release(c, key), c.slots[key];
    NoDupAppend(c.free, slot);
    assert after.slots.Keys == c.slots.Keys - {key};
    assert slot !in c.free;
    forall s: nat | s < |after.cache| ensures s in after.free || InUse(after, s) {
      if s == slot {
        assert after.free[|c.free|] == s;
      } else if s in c.free {
        assert s in after.free;
      } else {
        var k :| k in c.slots && c.slots[k] == s;
        assert k in after.slots && after.slots[k] == s;
      }
    }
  }

  function GetSlot(c: CacheState, key: int, memory: HidlMemory): CacheState {
    if key in c.slots then c else Bind(c, key, memory)
  }

  /** The cache after slots were looked up, or bound, for a list of keys. */
  function GetAll(c: CacheState, keys: seq<int>, memories: seq<HidlMemory>): CacheState
    requires |keys| == |memories|
  {
    if keys == [] then c
    else
      var n := |keys| - 1;
      GetSlot(GetAll(c, keys[..n], memories[..n]), keys[n], memories[n])
  }

  function SlotOf(c: CacheState, key: int): int {
    if key in c.slots then c.slots[key] else -1
  }

  function SlotsFor(c: CacheState, keys: seq<int>): (slots: seq<int>)
    ensures |slots| == |keys|
  {
    seq(|keys|, i requires 0 <= i < |keys| => SlotOf(c, keys[i]))
  }

  /** A key names one memory as long as it is bound. */
  ghost predicate KeysName(c: CacheState, keys: seq<int>, memories: seq<HidlMemory>) {
    && |keys| == |memories|
    && (forall i :: 0 <= i < |keys| && keys[i] in c.slots && c.slots[keys[i]] < |c.cache| ==>
          c.cache[c.slots[keys[i]]] == memories[i])
    && (forall i, j :: 0 <= i < j < |keys| && keys[i] == keys[j] ==> memories[i] == memories[j])
  }

  ghost predicate Serves(c: CacheState, key: int, memory: HidlMemory) {
    key in c.slots && c.slots[key] < |c.cache| && c.cache[c.slots[key]] == memory
  }

  /** Every listed key has a slot, and that slot holds its memory. */
  ghost predicate ServesAll(c: CacheState, keys: seq<int>, memories: seq<HidlMemory>) {
    |keys| == |memories| && forall i :: 0 <= i < |keys| ==> Serves(c, keys[i], memories[i])
  }

  lemma GetSlotKeeps(c: CacheState, key: int, memory: HidlMemory)
    requires ValidCache(c)
    ensures ValidCache(GetSlot(c, key, memory)) && Extends(c, GetSlot(c, key, memory))
    ensures key !in c.slots ==> Serves(GetSlot(c, key, memory), key, memory)
    ensures forall k :: k in GetSlot(c, key, memory).slots <==> k in c.slots || k == key
  {
    if key !in c.slots {
      BindKeeps(c, key, memory);
      BindExtends(c, key, memory);
    }
  }

  /** Looking up slots keeps the cache valid and every bound slot where it is. */
  lemma {:induction false} GetAllKeeps(c: CacheState, keys: seq<int>, memories: seq<HidlMemory>)
    requires ValidCache(c) && |keys| == |memories|
    ensures ValidCache(GetAll(c, keys, memories)) && Extends(c, GetAll(c, keys, memories))
    ensures forall k :: k in GetAll(c, keys, memories).slots <==> k in c.slots || k in keys
  {
    hide ValidCache, Extends, GetSlot;
    if keys != [] {
      var n := |keys| - 1;
      var before := GetAll(c, keys[..n], memories[..n]);
      GetAllKeeps(c, keys[..n], memories[..n]);
      GetSlotKeeps(before, keys[n], memories[n]);
      ExtendsTransitive(c, before, GetAll(c, keys, memories));
      assert keys == keys[..n] + [keys[n]];
    } else {
      ExtendsSame(c);
    }
  }

  lemma ExtendsSame(c: CacheState)
    requires ValidCache(c)
    ensures Extends(c, c)
  {
  }

  /** Afterwards every listed key has a slot, and that slot holds its memory. */
  lemma {:induction false} GetAllServes(c: CacheState, keys: seq<int>, memories: seq<HidlMemory>)
    requires ValidCache(c) && KeysName(c, keys, memories)
    ensures ServesAll(GetAll(c, keys, memories), keys, memories)
  {
    if keys != [] {
      var n := |keys| - 1;
      var before, after := GetAll(c, keys[..n], memories[..n]), GetAll(c, keys, memories);
      KeysNamePrefix(c, keys, memories, n);
      GetAllServes(c, keys[..n], memories[..n]);
      GetAllKeeps(c, keys[..n], memories[..n]);
      GetSlotKeeps(before, keys[n], memories[n]);
      LastServed(c, before, after, keys, memories);
      AllServed(before, after, keys, memories);
    }
  }

  lemma KeysNamePrefix(c: CacheState, keys: seq<int>, memories: seq<HidlMemory>, n: nat)
    requires KeysName(c, keys, memories) && n <= |keys|
    ensures KeysName(c, keys[..n], memories[..n])
  {
  }

  lemma AllServed(before: CacheState, after: CacheState, keys: seq<int>, memories: seq<HidlMemory>)
    requires |keys| == |memories| && keys != [] && Extends(before, after)
    requires ServesAll(before, keys[..|keys|-1], memories[..|keys|-1])
    requires Serves(after, keys[|keys|-1], memories[|keys|-1])
    ensures ServesAll(after, keys, memories)
  {
    forall i | 0 <= i < |keys| - 1 ensures Serves(after, keys[i], memories[i]) {
      assert Serves(before, keys[..|keys|-1][i], memories[..|keys|-1][i]);
    }
  }

  lemma LastServed(c: CacheState, before: CacheState, after: CacheState, keys: seq<int>, memories: seq<HidlMemory>)
    requires keys != [] && KeysName(c, keys, memories) && Extends(c, before) && Extends(before, after)
    requires ServesAll(before, keys[..|keys|-1], memories[..|keys|-1])
    requires forall k :: k in before.slots ==> k in c.slots || k in keys[..|keys|-1]
    requires keys[|keys|-1] !in before.slots ==> Serves(after, keys[|keys|-1], memories[|keys|-1])
    ensures Serves(after, keys[|keys|-1], memories[|keys|-1])
  {
    var n := |keys| - 1;
    if keys[n] in before.slots && keys[n] !in c.slots {
      var i :| 0 <= i < n && keys[..n][i] == keys[n];
      assert Serves(before, keys[..n][i], memories[..n][i]) && memories[i] == memories[n];
    }
  }

  class ExecutionBurstCallback {
    var memoryIdToSlot: map<int, nat>
    var memoryCache: seq<HidlMemory>
    var freeSlots: seq<nat>
    /** Largest number of keys that were bound at the same time. */
    ghost var highWater: nat

    function State(): CacheState
      reads this
    {
      CacheState(memoryIdToSlot, memoryCache, freeSlots)
    }

    /** There is one slot for each key of the time when most keys were bound. */
    ghost predicate Valid()
      reads this
    {
      ValidCache(State()) && highWater == |memoryCache| <= MAX_NUMBER_OF_SLOTS
    }

    constructor ()
      ensures Valid() && State() == EMPTY_CACHE
    {
      memoryIdToSlot, memoryCache, freeSlots, highWater := map[], [], [], 0;
    }

    /** Hands out an empty slot that no key is bound to and that is not free any more: the one that was
      * freed last, or else a new one. All other slots stay what they are. */
    method AllocateSlotLocked() returns (slot: nat)
      requires Valid() && (freeSlots == [] ==> |memoryCache| < MAX_NUMBER_OF_SLOTS)
      modifies this`memoryCache, this`freeSlots
      ensures slot < |memoryCache| <= MAX_NUMBER_OF_SLOTS && memoryCache[slot] == Unset
      ensures !InUse(State(), slot) && slot !in freeSlots
      ensures old(freeSlots) != [] ==> old(freeSlots) == freeSlots + [slot] && memoryCache == old(memoryCache)
      ensures old(freeSlots) == [] ==> freeSlots == [] && slot + 1 == |memoryCache|
      ensures old(freeSlots) == [] ==> memoryCache[..slot] == old(memoryCache)
    {
      if |freeSlots| > 0 {
        LastFreeUnused(State());
        slot := freeSlots[|freeSlots|-1];
        freeSlots := freeSlots[..|freeSlots|-1];
        return;
      }
      slot := |memoryCache|;
      memoryCache := memoryCache + [Unset];
    }

    /** The slot of a key, which gets one if it has none. */
    method GetSlotLocked(memory: HidlMemory, key: int) returns (slot: nat)
      requires Valid() && |GetSlot(State(), key, memory).cache| <= MAX_NUMBER_OF_SLOTS
      modifies this
      ensures Valid() && State() == GetSlot(old(State()), key, memory)
      ensures key in memoryIdToSlot && slot == memoryIdToSlot[key] && slot < MAX_NUMBER_OF_SLOTS
      ensures highWater == if |memoryIdToSlot| > old(highWater) then |memoryIdToSlot| else old(highWater)
    {
      hide ValidCache, Extends, InUse;
      ghost var before := State();
      KeySlotBounded(before, key);
      if key !in memoryIdToSlot {
        BindKeeps(before, key, memory);
        BindExtends(before, key, memory);
        slot := AllocateSlotLocked();
        memoryIdToSlot := memoryIdToSlot[key := slot];
        memoryCache := memoryCache[slot := memory];
        BoundCache(before, key, memory, State());
        BoundCount(before, State(), highWater);
        highWater := if |memoryIdToSlot| > highWater then |memoryIdToSlot| else highWater;
      } else {
        slot := memoryIdToSlot[key];
      }
    }

    /** Slots of the given memories; each stays what it is until its key is freed. */
    method GetSlots(memories: seq<HidlMemory>, keys: seq<int>) returns (slots: seq<int>)
      requires Valid() && |keys| == |memories| && |GetAll(State(), keys, memories).cache| <= MAX_NUMBER_OF_SLOTS
      modifies this
      ensures Valid() && State() == GetAll(old(State()), keys, memories)
      ensures slots == SlotsFor(State(), keys) && |slots| == |keys|
      ensures forall i :: 0 <= i < |keys| ==> keys[i] in memoryIdToSlot && slots[i] == memoryIdToSlot[keys[i]]
    {
      hide ValidCache, GetSlot, SlotsFor;
      ghost var before := State();
      slots := [];
      assert keys[..0] == [] && memories[..0] == [];
      for i := 0 to |memories|
        invariant Valid() && State() == GetAll(before, keys[..i], memories[..i])
        invariant slots == SlotsFor(State(), keys[..i])
      {
        SlotsStep(before, keys, memories, i);
        GetAllGrows(before, keys, memories, i + 1);
        var slot := GetSlotLocked(memories[i], keys[i]);
        slots := slots + [slot];
      }
      assert keys[..|keys|] == keys && memories[..|memories|] == memories;
      GetAllKeeps(before, keys, memories);
      SlotsForAre(State(), keys);
    }

    method FreeMemory(key: int) returns (valid: bool, slot: nat)
      requires Valid()
      modifies this
      ensures Valid() && highWater == old(highWater)
      ensures valid <==> key in old(memoryIdToSlot)
      ensures if valid then slot == old(memoryIdToSlot)[key] && State() == Release(old(State()), key)
              else State() == old(State())
      ensures valid ==> slot < |old(memoryCache)| && memoryCache == old(memoryCache)[slot := Unset]
      ensures valid ==> memoryIdToSlot == old(memoryIdToSlot) - {key} && freeSlots == old(freeSlots) + [slot]
    {
      if key !in memoryIdToSlot { return false, 0; }
      ReleaseKeeps(State(), key);
      slot := memoryIdToSlot[key];
      memoryIdToSlot := memoryIdToSlot - {key};
      memoryCache := memoryCache[slot := Unset];
      freeSlots := freeSlots + [slot];
      valid := true;
    }

    /** Memories of the given slots, if all of them are in use. */
    method GetMemories(slots: seq<int>) returns (status: ErrorStatus, memories: seq<HidlMemory>)
      ensures status == None <==> AllInUse(State(), slots)
      ensures status == None ==> memories == MemoriesOf(State(), slots)
      ensures status != None ==> status == InvalidArgument && memories == []
    {
      memories := seq(|slots|, i requires 0 <= i < |slots| reads this =>
        if 0 <= slots[i] < |memoryCache| then memoryCache[slots[i]] else Unset);
      assert memories == MemoriesOf(State(), slots);
      InUseIffSet(State(), slots);
      for i := 0 to |memories|
        invariant forall k :: 0 <= k < i ==> memories[k] != Unset
      {
        if memories[i] == Unset { return InvalidArgument, []; }
      }
      status := None;
    }
  }

  lemma InUseIffSet(c: CacheState, slots: seq<int>)
    ensures AllInUse(c, slots) <==> forall i :: 0 <= i < |slots| ==> MemoriesOf(c, slots)[i] != Unset
  {
    forall i | 0 <= i < |slots|
      ensures MemoriesOf(c, slots)[i] != Unset <==> 0 <= slots[i] < |c.cache| && c.cache[slots[i]] != Unset
    {
    }
  }

  /** With one more key than before, the largest number of keys is exceeded exactly if the cache grew. */
  lemma BoundCount(before: CacheState, after: CacheState, highWater: nat)
    requires ValidCache(before) && ValidCache(after) && highWater == |before.cache|
    requires |after.free| == if before.free == [] then 0 else |before.free| - 1
    requires |after.cache| == if before.free == [] then |before.cache| + 1 else |before.cache|
    ensures |after.cache| == if |after.slots| > highWater then |after.slots| else highWater
  {
  }

  lemma LastFreeUnused(c: CacheState)
    requires ValidCache(c) && c.free != []
    ensures var slot := c.free[|c.free|-1];
            && slot < |c.cache| && c.cache[slot] == Unset && !InUse(c, slot) && slot !in c.free[..|c.free|-1]
            && forall rest, cache :: !InUse(CacheState(c.slots, cache, rest), slot)
  {
    assert c.free[|c.free|-1] in c.free;
  }

  lemma KeySlotBounded(c: CacheState, key: int)
    requires ValidCache(c)
    ensures key in c.slots ==> c.slots[key] < |c.cache|
    ensures |c.slots| <= |c.cache|
  {
  }

  /** What `GetSlotLocked` makes of the slot that it was handed. */
  lemma BoundCache(before: CacheState, key: int, memory: HidlMemory, after: CacheState)
    requires ValidCache(before) && key !in before.slots && after.slots == before.slots[key := Next(before)]
    requires before.free != [] ==>
               before.free == after.free + [Next(before)] && Next(before) < |before.cache| &&
               after.cache == before.cache[Next(before) := memory]
    requires before.free == [] ==> after.free == [] && after.cache == before.cache + [memory]
    ensures after == Bind(before, key, memory)
  {
  }

  lemma GetSlotGrows(c: CacheState, key: int, memory: HidlMemory)
    ensures |c.cache| <= |GetSlot(c, key, memory).cache|
  {
  }

  /** A cache that is large enough in the end was large enough all the time. */
  lemma {:induction false} GetAllGrows(c: CacheState, keys: seq<int>, memories: seq<HidlMemory>, i: nat)
    requires |keys| == |memories| && i <= |keys|
    ensures |GetAll(c, keys[..i], memories[..i]).cache| <= |GetAll(c, keys, memories).cache|
    decreases |keys|
  {
    hide GetSlot;
    if i == |keys| {
      assert keys[..i] == keys && memories[..i] == memories;
    } else {
      var n := |keys| - 1;
      assert keys[..n][..i] == keys[..i] && memories[..n][..i] == memories[..i];
      GetAllGrows(c, keys[..n], memories[..n], i);
      GetSlotGrows(GetAll(c, keys[..n], memories[..n]), keys[n], memories[n]);
    }
  }

  /** One round of `GetSlots`. */
  lemma SlotsStep(c: CacheState, keys: seq<int>, memories: seq<HidlMemory>, i: nat)
    requires ValidCache(c) && |keys| == |memories| && i < |keys|
    ensures var before, after := GetAll(c, keys[..i], memories[..i]), GetAll(c, keys[..i+1], memories[..i+1]);
            && after == GetSlot(before, keys[i], memories[i]) && keys[i] in after.slots
            && SlotsFor(after, keys[..i+1]) == SlotsFor(before, keys[..i]) + [after.slots[keys[i]]]
  {
    hide ValidCache, GetSlot, SlotsFor;
    var before := GetAll(c, keys[..i], memories[..i]);
    assert keys[..i+1][..i] == keys[..i] && memories[..i+1][..i] == memories[..i];
    assert keys[..i+1] == keys[..i] + [keys[i]];
    GetAllKeeps(c, keys[..i], memories[..i]);
    GetSlotKeeps(before, keys[i], memories[i]);
    SlotsForAppend(before, GetSlot(before, keys[i], memories[i]), keys[..i], keys[i]);
  }

  lemma SlotsForAppend(before: CacheState, after: CacheState, keys: seq<int>, key: int)
    requires Extends(before, after) && key in after.slots && forall k :: k in keys ==> k in before.slots
    ensures SlotsFor(after, keys + [key]) == SlotsFor(before, keys) + [after.slots[key]]
  {
    forall i | 0 <= i < |keys| ensures SlotsFor(after, keys + [key])[i] == SlotsFor(before, keys)[i] {
      assert keys[i] in keys;
    }
  }

  lemma SlotsForAre(c: CacheState, keys: seq<int>)
    requires forall k :: k in keys ==> k in c.slots
    ensures forall i :: 0 <= i < |keys| ==> keys[i] in c.slots && SlotsFor(c, keys)[i] == c.slots[keys[i]]
  {
    forall i | 0 <= i < |keys| ensures keys[i] in c.slots && SlotsFor(c, keys)[i] == c.slots[keys[i]] {
      var k := keys[i];
      assert k in keys && k in c.slots;
    }
  }

  /** Every slot is a slot of the cache and holds a memory. */
  predicate AllInUse(c: CacheState, slots: seq<int>) {
    forall i :: 0 <= i < |slots| ==> 0 <= slots[i] < |c.cache| && c.cache[slots[i]] != Unset
  }

  function MemoriesOf(c: CacheState, slots: seq<int>): (memories: seq<HidlMemory>)
    ensures |memories| == |slots|
  {
    seq(|slots|, i requires 0 <= i < |slots| => if 0 <= slots[i] < |c.cache| then c.cache[slots[i]] else Unset)
  }
}
