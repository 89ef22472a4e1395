/** What the store operations do to every slot and every identifier, said from their arguments and the answers. */
module StoreEffects {
  import opened Types
  import opened RuleCodec
  import opened Storage
  import opened Scheduler

  /** The identifier is stored alike in both. */
  ghost predicate SameCell(a: Cells, b: Cells, id: nat) {
    (id in a <==> id in b) && (id in a ==> a[id] == b[id])
  }

  /** A write is successful exactly if there is something to write, room for it, and ZMS accepts it. */
  lemma WriteSucceedsIff(size: nat, z: ZmsWrite)
    ensures WriteResult(size, z) > 0 <==> size > 0 && z.freeSpace >= size && z.accepts
    ensures WriteResult(size, z) > 0 ==> WriteResult(size, z) == size
  {
  }

  /** Slot k is free and takes that many bytes. */
  predicate Takes(s: Sched, size: nat, zms: nat -> ZmsWrite, k: nat) {
    k < |s.bits| && !s.bits[k] && zms(k).freeSpace >= size && zms(k).accepts
  }

  /** The data goes to the first free slot that takes it, and to no other place. */
  lemma WriteStoresAtFirstFit(s: Sched, data: seq<byte>, zms: nat -> ZmsWrite, k: nat)
    requires data != [] && Takes(s, |data|, zms, k) && forall j: nat :: j < k ==> !Takes(s, |data|, zms, j)
    ensures WriteRule(s, data, zms) == (|data|, Sched(s.bits[k := true], s.cells[RULES_ID_BASE + k := data]))
  {
    var f := FirstFit(s.bits, |data|, zms, 0);
    WriteSucceedsIff(|data|, zms(k));
    if f < |s.bits| {
      WriteSucceedsIff(|data|, zms(f));
      assert Takes(s, |data|, zms, f);
    }
  }

  /** If no free slot takes the data, nothing happens. */
  lemma WriteWithoutFitDoesNothing(s: Sched, data: seq<byte>, zms: nat -> ZmsWrite)
    requires data != [] && forall j: nat :: !Takes(s, |data|, zms, j)
    ensures WriteRule(s, data, zms) == (0, s)
  {
    var f := FirstFit(s.bits, |data|, zms, 0);
    if f < |s.bits| {
      WriteSucceedsIff(|data|, zms(f));
      assert Takes(s, |data|, zms, f);
    }
  }

  /** When a deletion succeeds, what it removes, and that it touches nothing else. */
  lemma DeletionRemovesExactly(s: Sched, slot: nat, zms: int, repaired: bool)
    requires slot < |s.bits|
    ensures var (ret, t) := DeleteRule(s, slot, zms, repaired);
            && (ret == 0 <==> s.bits[slot] && slot <= 4 && zms == 0)
            && (ret == 0 ==> !t.bits[slot] && (if repaired then 2 + slot else slot) !in t.cells)
            && (forall k :: 0 <= k < |s.bits| && k != slot ==> t.bits[k] == s.bits[k])
            && (forall id: nat :: id != (if repaired then 2 + slot else slot) ==> SameCell(s.cells, t.cells, id))
            && (ret != 0 ==> t == s && ret == if s.bits[slot] && slot <= 4 then zms else -1)
  {
  }

  /**
   A clear empties every slot up to the first refused erasure and keeps everything else; its result is that refusal, and
   0 exactly if there was none, and then nothing is left.
   */
  lemma ClearEmptiesIff(s: Sched, zms: nat -> int, j: nat)
    requires j < |s.bits|
    ensures var t := ClearRules(s, zms).1;
            if forall i: nat :: i <= j ==> zms(i) == 0 then !t.bits[j] && RULES_ID_BASE + j !in t.cells
            else t.bits[j] == s.bits[j] && SameCell(s.cells, t.cells, RULES_ID_BASE + j)
  {
    var m := FirstRefused(|s.bits|, zms, 0);
    if m > j {
      assert forall i: nat :: i <= j ==> zms(i) == 0;
    } else {
      assert zms(m) != 0;
    }
  }

  lemma {:induction false} NoneSet(bits: seq<bool>, m: nat)
    requires m <= |bits| && forall i :: 0 <= i < |bits| ==> !bits[i]
    ensures SlotsUpTo(bits, m) == []
  {
    if m > 0 {
      NoneSet(bits, m - 1);
    }
  }

  lemma ClearResult(s: Sched, zms: nat -> int)
    ensures var (ret, t) := ClearRules(s, zms);
            && (forall id: nat :: id < RULES_ID_BASE || id >= RULES_ID_BASE + |s.bits| ==>
                  SameCell(s.cells, t.cells, id))
            && (ret == 0 <==> forall i: nat :: i < |s.bits| ==> zms(i) == 0)
            && (ret == 0 ==> Count(t.bits) == 0)
            && (ret != 0 ==> exists k: nat :: k < |s.bits| && ret == zms(k) && forall i: nat :: i < k ==> zms(i) == 0)
  {
    var (ret, t) := ClearRules(s, zms);
    var m := FirstRefused(|s.bits|, zms, 0);
    if m == |s.bits| {
      NoneSet(t.bits, |t.bits|);
    } else {
      assert ret == zms(m) && zms(m) != 0;
    }
  }

  /** A reading that fails at slot k reports that failure, has loaded the slots before it, and left the rest alone. */
  lemma FailedReadLoadsPrefix(s: Sched, table: seq<Entry>, faults: nat -> int, k: nat)
    requires TableFits(s, table) && Agreement(s) && HoldsRules(s)
    requires k < |s.bits| && s.bits[k] && faults(k) < 0 && forall j :: 0 <= j < k && s.bits[j] ==> faults(j) >= 0
    ensures var c := |SlotsUpTo(s.bits, k)|;
            var (ret, t) := ReadRules(s, table, faults);
            && ret == faults(k) && c < |table|
            && (forall j :: c <= j < |table| ==> t[j] == table[j])
            && (forall j :: 0 <= j < c ==>
                  && t[j].state == Ready && t[j].fsIndex as nat == SlotsUpTo(s.bits, k)[j]
                  && RULES_ID_BASE + t[j].fsIndex in s.cells
                  && |s.cells[RULES_ID_BASE + t[j].fsIndex]| == RULE_SIZE
                  && t[j].rule == Decode(s.cells[RULES_ID_BASE + t[j].fsIndex]))
  {
    hide LoadedEntry, Decode, Encode, HoldsRules, Agreement, Readable, SlotsUpTo;
    var c, slots := |SlotsUpTo(s.bits, k)|, Slots(s.bits);
    StopsAt(s, faults, k);
    SlotReads(s, faults, k);
    forall j | 0 <= j < c
      ensures RULES_ID_BASE + slots[j] in s.cells && |s.cells[RULES_ID_BASE + slots[j]]| == RULE_SIZE
      ensures Loaded(s, table, slots, c)[j] == Entry(Decode(s.cells[RULES_ID_BASE + slots[j]]), Ready, slots[j])
    {
      LoadedOne(s, table, slots, c, j);
    }
  }

  /** Where a reading with a first fault at slot k stops. */
  lemma StopsAt(s: Sched, faults: nat -> int, k: nat)
    requires Agreement(s) && HoldsRules(s)
    requires k < |s.bits| && s.bits[k] && faults(k) < 0 && forall j :: 0 <= j < k && s.bits[j] ==> faults(j) >= 0
    ensures var c, slots := |SlotsUpTo(s.bits, k)|, Slots(s.bits);
            && c < |slots| && slots[c] == k && Readable(s, slots, faults) == c
            && forall j :: 0 <= j < c ==> slots[j] == SlotsUpTo(s.bits, k)[j]
  {
    hide HoldsRules;
    var c, slots := |SlotsUpTo(s.bits, k)|, Slots(s.bits);
    SlotsPrefix(s.bits, k + 1);
    assert SlotsUpTo(s.bits, k + 1) == SlotsUpTo(s.bits, k) + [k];
    var m := Readable(s, slots, faults);
    SlotReads(s, faults, k);
    if m < c {
      SlotReads(s, faults, slots[m]);
    }
  }

  lemma LoadedOne(s: Sched, table: seq<Entry>, slots: seq<nat>, m: nat, j: nat)
    requires TableFits(s, table) && Agreement(s) && HoldsRules(s) && m <= |slots| <= |table| && j < m
    requires forall i :: 0 <= i < |slots| ==> slots[i] < |table| && s.bits[slots[i]]
    ensures RULES_ID_BASE + slots[j] in s.cells && |s.cells[RULES_ID_BASE + slots[j]]| == RULE_SIZE
    ensures Loaded(s, table, slots, m)[j] == Entry(Decode(s.cells[RULES_ID_BASE + slots[j]]), Ready, slots[j])
  {
    hide LoadedEntry, Decode, HoldsRules;
    Imaged(s, slots[j]);
    ImageReads(table[j].rule, s.cells[RULES_ID_BASE + slots[j]], slots[j]);
    assert LoadedEntry(table[j].rule, s.cells[RULES_ID_BASE + slots[j]], slots[j]) ==
           Entry(Decode(s.cells[RULES_ID_BASE + slots[j]]), Ready, slots[j]) by {
      EntryOf(table[j].rule, s.cells[RULES_ID_BASE + slots[j]], slots[j]);
    }
  }

  lemma EntryOf(before: Rule, data: seq<byte>, slot: byte)
    ensures LoadedEntry(before, data, slot) == Entry(LoadedEntry(before, data, slot).rule, Ready, slot)
  {
  }

  lemma Imaged(s: Sched, slot: nat)
    requires Agreement(s) && HoldsRules(s) && slot < |s.bits| && s.bits[slot]
    ensures IsImage(s.cells[RULES_ID_BASE + slot])
  {
  }
}
