/** `SchedulerRules`: the slot allocator, proved against the store functions of `Scheduler`. */
module SchedulerRules {
  import opened Types
  import opened RuleCodec
  import opened Storage
  import opened Scheduler

  class SchedulerRules {
    const fs: Storage
    const map_: array<bool>
    const repaired: bool

    constructor (fs: Storage, slots: nat, repaired: bool)
      requires slots <= 0x100
      ensures this.fs == fs && fresh(map_) && map_.Length == slots && this.repaired == repaired
      ensures forall i :: 0 <= i < slots ==> !map_[i]
    {
      this.fs := fs;
      this.map_ := new bool[slots](_ => false);
      this.repaired := repaired;
    }

    ghost predicate Valid()
      reads this, fs
    {
      map_.Length <= 0x100 && NoEmptyCell(fs.cells)
    }

    ghost function Model(): Sched
      reads this, fs, map_
    {
      Sched(map_[..], fs.cells)
    }

    method Init(answers: nat -> bool)
      requires Valid()
      modifies map_
      ensures Model() == Scheduler.Init(old(Model()), answers)
    {
      var i := 0;
      while i < map_.Length
        invariant i <= map_.Length
        invariant forall k :: 0 <= k < i ==> !map_[k]
      {
        map_[i] := false;
        i := i + 1;
      }
      i := 0;
      while i < map_.Length
        invariant i <= map_.Length
        invariant forall k :: 0 <= k < map_.Length ==>
          map_[k] == (k < i && answers(k) && RULES_ID_BASE + k in fs.cells)
      {
        var empty := fs.IsIdEmpty(RULES_ID_BASE + i, answers(i));
        if !empty {
          map_[i] := true;
        }
        i := i + 1;
      }
      assert map_[..] == Scheduler.Init(old(Model()), answers).bits;
    }

    method WriteRule(data: seq<byte>, zms: nat -> ZmsWrite) returns (ret: int)
      requires Valid()
      modifies fs, map_
      ensures Valid()
      ensures (ret, Model()) == Scheduler.WriteRule(old(Model()), data, zms)
    {
      hide Emptied;
      ghost var s := Model();
      if Count(map_[..]) >= map_.Length {
        AllSet(map_[..]);
        FullKeepsCells(s, data, zms);
        return 0;
      }
      var i := 0;
      NothingEmptied(s, data, zms);
      while i < map_.Length
        invariant i <= map_.Length && Valid()
        invariant Model() == Emptied(s, data, zms, i)
        invariant FirstFit(map_[..], |data|, zms, 0) == FirstFit(map_[..], |data|, zms, i)
      {
        if !map_[i] {
          ret := fs.WriteBuffer(RULES_ID_BASE + i, data, zms(i));
          if ret > 0 {
            map_[i] := true;
            assert map_[..] == s.bits[i := true];
            return;
          }
        }
        EmptiedNext(s, data, zms, i);
        i := i + 1;
      }
      ret := 0;
    }

    /** Reads one slot over the given 16 bytes of memory. */
    method FetchImage(memory: seq<byte>, slot: byte, fault: int) returns (ret: int, image: seq<byte>)
      requires Valid() && |memory| == RULE_SIZE
      ensures ret == ReadResult(fs.cells, RULES_ID_BASE + slot, RULE_SIZE, fault)
      ensures |image| == RULE_SIZE
      ensures ret > 0 ==> RULES_ID_BASE + slot in fs.cells && image == ReadInto(memory, fs.cells[RULES_ID_BASE + slot])
    {
      var buf := new byte[RULE_SIZE](i requires 0 <= i < RULE_SIZE => memory[i]);
      assert buf[..RULE_SIZE] == memory;
      ret := fs.ReadBuffer(RULES_ID_BASE + slot, buf, RULE_SIZE, fault);
      image := buf[..RULE_SIZE];
    }

    method LoadSlot(table: array<Entry>, idx: nat, slot: byte, fault: int) returns (ret: int)
      requires Valid() && idx < table.Length
      modifies table
      ensures ret == ReadResult(fs.cells, RULES_ID_BASE + slot, RULE_SIZE, fault)
      ensures ret <= 0 ==> table[..] == old(table[..])
      ensures ret > 0 ==> RULES_ID_BASE + slot in fs.cells
      ensures ret > 0 ==> table[..] == (old(table[..])
        [idx := LoadedEntry(old(table[idx]).rule, fs.cells[RULES_ID_BASE + slot], slot)])
    {
      ghost var before := table[idx].rule;
      var image;
      ret, image := FetchImage(Encode(table[idx].rule, Padding(0, 0, 0, 0)), slot, fault);
      if ret > 0 {
        ghost var e := Entry(Decode(image), Ready, slot);
        assert e == LoadedEntry(before, fs.cells[RULES_ID_BASE + slot], slot);
        table[idx] := Entry(Decode(image), Ready, slot);
        assert table[..] == old(table[..])[idx := e];
      }
    }

    method ReadRules(table: array<Entry>, faults: nat -> int) returns (ret: int)
      requires Valid() && table.Length == map_.Length
      modifies table
      ensures (ret, table[..]) == Scheduler.ReadRules(Model(), old(table[..]), faults)
    {
      hide LoadedEntry;
      ghost var s := Model();
      ghost var before := table[..];
      ghost var slots := Slots(s.bits);
      if Count(map_[..]) <= 0 {
        return 1;
      }
      ReadFromReads(s, before, faults);
      ghost var goal := Scheduler.ReadRules(s, before, faults);
      var idx, i := 0, 0;
      while i < map_.Length
        invariant i <= map_.Length && idx == |SlotsUpTo(s.bits, i)|
        invariant idx <= |slots| && Model() == s
        invariant ReadFrom(s, table[..], slots, faults, idx) == goal
      {
        NextSlot(s.bits, i);
        if map_[i] {
          ret := LoadSlot(table, idx, i, faults(i));
          if ret > 0 {
            idx := idx + 1;
          } else {
            return;
          }
        }
        i := i + 1;
      }
      ret := 0;
    }

    method DeleteRule(slot: byte, zms: int) returns (ret: int)
      requires Valid() && slot < map_.Length
      modifies fs, map_
      ensures Valid()
      ensures (ret, Model()) == Scheduler.DeleteRule(old(Model()), slot, zms, repaired)
    {
      if map_[slot] {
        var rule := slot + RULES_ID_BASE;
        if rule <= RULES_ID_END {
          ret := fs.DeleteData(if repaired then rule else slot, zms);
          if ret == 0 {
            map_[slot] := false;
            assert map_[..] == old(map_[..])[slot := false];
          }
          return;
        }
      }
      ret := -1;
    }

    method ClearRules(zms: nat -> int) returns (ret: int)
      requires Valid()
      modifies fs, map_
      ensures Valid()
      ensures (ret, Model()) == Scheduler.ClearRules(old(Model()), zms)
    {
      ghost var s := Model();
      var i := 0;
      assert map_[..] == Cleared(s, 0).bits && fs.cells == Cleared(s, 0).cells;
      while i < map_.Length
        invariant i <= map_.Length && Valid()
        invariant FirstRefused(map_.Length, zms, 0) == FirstRefused(map_.Length, zms, i)
        invariant map_[..] == Cleared(s, i).bits && fs.cells == Cleared(s, i).cells
      {
        ret := fs.DeleteData(RULES_ID_BASE + i, zms(i));
        if ret != 0 {
          return;
        }
        map_[i] := false;
        assert fs.cells == Cleared(s, i + 1).cells;
        i := i + 1;
        assert map_[..] == Cleared(s, i).bits;
      }
      ret := 0;
    }

    method GetNumberOfRules() returns (n: byte)
      requires Valid() && map_.Length < 0x100
      ensures n == Count(Model().bits)
    {
      n := Count(map_[..]);
    }
  }

  lemma NothingEmptied(s: Sched, data: seq<byte>, zms: nat -> ZmsWrite)
    ensures Emptied(s, data, zms, 0) == s
  {
    assert Emptied(s, data, zms, 0).cells == s.cells;
  }

  lemma FullKeepsCells(s: Sched, data: seq<byte>, zms: nat -> ZmsWrite)
    requires forall i :: 0 <= i < |s.bits| ==> s.bits[i]
    ensures Emptied(s, data, zms, |s.bits|) == s
    ensures FirstFit(s.bits, |data|, zms, 0) == |s.bits|
  {
    assert Emptied(s, data, zms, |s.bits|).cells == s.cells;
  }

  /** One refused or empty write to slot `i`. */
  lemma EmptiedNext(s: Sched, data: seq<byte>, zms: nat -> ZmsWrite, i: nat)
    requires i < |s.bits|
    ensures var e := Emptied(s, data, zms, i);
            && (!s.bits[i] && WriteResult(|data|, zms(i)) <= 0 ==>
                  Emptied(s, data, zms, i + 1) == e.(cells := Written(e.cells, RULES_ID_BASE + i, data, zms(i))))
            && (s.bits[i] ==> Emptied(s, data, zms, i + 1) == e)
            && (data != [] ==> e == s)
  {
    if data == [] {
      var e := Emptied(s, data, zms, i);
      assert Emptied(s, data, zms, i + 1).cells ==
             if s.bits[i] then e.cells else Written(e.cells, RULES_ID_BASE + i, data, zms(i));
    }
  }

  lemma {:induction false} AllSetUpTo(bits: seq<bool>, m: nat)
    requires m <= |bits| && |SlotsUpTo(bits, m)| >= m
    ensures forall i :: 0 <= i < m ==> bits[i]
  {
    if m > 0 {
      AllSetUpTo(bits, m - 1);
    }
  }

  /** A full count leaves no free slot for a write. */
  lemma AllSet(bits: seq<bool>)
    requires Count(bits) >= |bits|
    ensures forall i :: 0 <= i < |bits| ==> bits[i]
  {
    AllSetUpTo(bits, |bits|);
  }

  /** The remaining work of the reading loop, one slot at a time. */
  ghost function ReadFrom(s: Sched, table: seq<Entry>, slots: seq<nat>, faults: nat -> int, idx: nat): (int, seq<Entry>)
    requires idx <= |slots| <= |table| && forall j :: 0 <= j < |slots| ==> slots[j] < 0x100
    decreases |slots| - idx
  {
    if idx == |slots| then (0, table)
    else if ReadSlot(s, slots[idx], faults) > 0 then
      var entry := LoadedEntry(table[idx].rule, s.cells[RULES_ID_BASE + slots[idx]], slots[idx]);
      ReadFrom(s, table[idx := entry], slots, faults, idx + 1)
    else (ReadSlot(s, slots[idx], faults), table)
  }

  lemma {:induction false} ReadFromLoads(s: Sched, table: seq<Entry>, slots: seq<nat>, faults: nat -> int, idx: nat)
    requires TableFits(s, table) && idx <= |slots| <= |table|
    requires forall j :: 0 <= j < |slots| ==> slots[j] < |table|
    requires idx <= Readable(s, slots, faults)
    ensures var m := Readable(s, slots, faults);
            ReadFrom(s, Loaded(s, table, slots, idx), slots, faults, idx) ==
            (if m == |slots| then 0 else ReadSlot(s, slots[m], faults), Loaded(s, table, slots, m))
    decreases |slots| - idx
  {
    hide LoadedEntry;
    var m := Readable(s, slots, faults);
    if idx < m {
      LoadOneMore(s, table, slots, idx);
      ReadFromLoads(s, table, slots, faults, idx + 1);
    }
  }

  /** The loop computes what `ReadRules` says in closed form. */
  lemma ReadFromReads(s: Sched, table: seq<Entry>, faults: nat -> int)
    requires TableFits(s, table) && Slots(s.bits) != []
    ensures ReadFrom(s, table, Slots(s.bits), faults, 0) == Scheduler.ReadRules(s, table, faults)
  {
    ReadFromLoads(s, table, Slots(s.bits), faults, 0);
    assert Loaded(s, table, Slots(s.bits), 0) == table;
  }

  lemma NextSlot(bits: seq<bool>, i: nat)
    requires i < |bits|
    ensures |SlotsUpTo(bits, i + 1)| == |SlotsUpTo(bits, i)| + (if bits[i] then 1 else 0)
    ensures bits[i] ==> |SlotsUpTo(bits, i)| < |Slots(bits)| && Slots(bits)[|SlotsUpTo(bits, i)|] == i
  {
    SlotsPrefix(bits, i + 1);
  }

  lemma LoadOneMore(s: Sched, table: seq<Entry>, slots: seq<nat>, m: nat)
    requires TableFits(s, table) && m < |slots| <= |table|
    requires forall j :: 0 <= j < |slots| ==> slots[j] < |table|
    requires forall j :: 0 <= j <= m ==> RULES_ID_BASE + slots[j] in s.cells
    ensures Loaded(s, table, slots, m + 1) ==
            Loaded(s, table, slots, m)[m := LoadedEntry(table[m].rule, s.cells[RULES_ID_BASE + slots[m]], slots[m])]
  {
  }
}
