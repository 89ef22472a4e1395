/**
 The rule store as a value: the slot bitmap of `SchedulerRules` over the entries of `Storage`.

 `repaired` selects the identifier that `delete_rule` erases. The code erases the slot number itself
 (`repaired == false`); the evident intent is the identifier it range-checks (`repaired == true`).
 */
module Scheduler {
  import opened Types
  import opened RuleCodec
  import opened Storage

  datatype Sched = Sched(bits: seq<bool>, cells: Cells)

  // ---- bitmap ----

  /** The set slots below `m`, in increasing order. */
  function SlotsUpTo(bits: seq<bool>, m: nat): (slots: seq<nat>)
    requires m <= |bits|
    ensures forall j :: 0 <= j < |slots| ==> slots[j] < m && bits[slots[j]]
    ensures |slots| <= m
  {
    if m == 0 then [] else SlotsUpTo(bits, m - 1) + (if bits[m - 1] then [m - 1] else [])
  }

  function Slots(bits: seq<bool>): (slots: seq<nat>)
    ensures forall j :: 0 <= j < |slots| ==> slots[j] < |bits| && bits[slots[j]]
    ensures |slots| <= |bits|
  {
    SlotsUpTo(bits, |bits|)
  }

  /** `get_number_of_rules`. */
  function Count(bits: seq<bool>): nat { |Slots(bits)| }

  lemma {:induction false} SlotsIncrease(bits: seq<bool>, m: nat)
    requires m <= |bits|
    ensures forall i, j :: 0 <= i < j < |SlotsUpTo(bits, m)| ==> SlotsUpTo(bits, m)[i] < SlotsUpTo(bits, m)[j]
    ensures forall k :: 0 <= k < m && bits[k] ==> k in SlotsUpTo(bits, m)
  {
    if m > 0 {
      SlotsIncrease(bits, m - 1);
      var prev := SlotsUpTo(bits, m - 1);
      forall k | 0 <= k < m && bits[k] ensures k in SlotsUpTo(bits, m) {
        if k < m - 1 {
          var j :| 0 <= j < |prev| && prev[j] == k;
          assert SlotsUpTo(bits, m)[j] == k;
        } else {
          assert SlotsUpTo(bits, m)[|prev|] == k;
        }
      }
    }
  }

  lemma {:induction false} SlotsPrefix(bits: seq<bool>, m: nat)
    requires m <= |bits|
    ensures SlotsUpTo(bits, m) <= Slots(bits)
    decreases |bits| - m
  {
    if m < |bits| {
      SlotsPrefix(bits, m + 1);
      assert SlotsUpTo(bits, m) <= SlotsUpTo(bits, m + 1);
    }
  }

  // ---- operations ----

  /** `init`: the bitmap is rebuilt from the lengths of the stored entries. */
  function Init(s: Sched, answers: nat -> bool): Sched {
    s.(bits := seq(|s.bits|, i requires 0 <= i => answers(i) && RULES_ID_BASE + i in s.cells))
  }

  /** The first clear slot, from `i` on, at which the storage accepts the data. */
  function FirstFit(bits: seq<bool>, size: nat, zms: nat -> ZmsWrite, i: nat): (k: nat)
    requires i <= |bits|
    ensures i <= k <= |bits|
    ensures k < |bits| ==> !bits[k] && WriteResult(size, zms(k)) > 0
    ensures forall j :: i <= j < k ==> bits[j] || WriteResult(size, zms(j)) <= 0
    decreases |bits| - i
  {
    if i == |bits| then i
    else if !bits[i] && WriteResult(size, zms(i)) > 0 then i
    else FirstFit(bits, size, zms, i + 1)
  }

  /** Nothing written to the free slots below `m` erases what is stored there; other data changes nothing. */
  function Emptied(s: Sched, data: seq<byte>, zms: nat -> ZmsWrite, m: nat): (t: Sched)
    requires m <= |s.bits|
    ensures t.bits == s.bits && (data != [] ==> t == s)
  {
    if data != [] then s
    else s.(cells := map id | id in s.cells && !(RULES_ID_BASE <= id < RULES_ID_BASE + m
                                && !s.bits[id - RULES_ID_BASE] && zms(id - RULES_ID_BASE).Takes(0)) :: s.cells[id])
  }

  function WriteRule(s: Sched, data: seq<byte>, zms: nat -> ZmsWrite): (int, Sched) {
    var k := FirstFit(s.bits, |data|, zms, 0);
    if k == |s.bits| then (0, Emptied(s, data, zms, |s.bits|))
    else (WriteResult(|data|, zms(k)), Sched(s.bits[k := true], s.cells[RULES_ID_BASE + k := data]))
  }

  function DeletedId(slot: nat, repaired: bool): nat {
    if repaired then RULES_ID_BASE + slot else slot
  }

  function DeleteRule(s: Sched, slot: nat, zms: int, repaired: bool): (int, Sched)
    requires slot < |s.bits|
  {
    if s.bits[slot] && RULES_ID_BASE + slot <= RULES_ID_END then
      if zms == 0 then (0, Sched(s.bits[slot := false], s.cells - {DeletedId(slot, repaired)})) else (zms, s)
    else (-1, s)
  }

  /** The first slot, from `i` on, whose erasure the storage refuses. */
  function FirstRefused(n: nat, zms: nat -> int, i: nat): (m: nat)
    requires i <= n
    ensures i <= m <= n
    ensures m < n ==> zms(m) != 0
    ensures forall j :: i <= j < m ==> zms(j) == 0
    decreases n - i
  {
    if i == n || zms(i) != 0 then i else FirstRefused(n, zms, i + 1)
  }

  /** The state after slots below `m` were erased. */
  function Cleared(s: Sched, m: nat): Sched {
    Sched(seq(|s.bits|, i requires 0 <= i < |s.bits| => i >= m && s.bits[i]),
          map id | id in s.cells && !(RULES_ID_BASE <= id < RULES_ID_BASE + m) :: s.cells[id])
  }

  function ClearRules(s: Sched, zms: nat -> int): (int, Sched) {
    var m := FirstRefused(|s.bits|, zms, 0);
    (if m == |s.bits| then 0 else zms(m), Cleared(s, m))
  }

  function ReadSlot(s: Sched, slot: nat, faults: nat -> int): int {
    ReadResult(s.cells, RULES_ID_BASE + slot, RULE_SIZE, faults(slot))
  }

  /** How many of the slots are read before one fails. */
  function Readable(s: Sched, slots: seq<nat>, faults: nat -> int): (m: nat)
    ensures m <= |slots|
    ensures forall j :: 0 <= j < m ==> ReadSlot(s, slots[j], faults) > 0
    ensures m < |slots| ==> ReadSlot(s, slots[m], faults) <= 0
  {
    if slots == [] || ReadSlot(s, slots[0], faults) <= 0 then 0 else 1 + Readable(s, slots[1..], faults)
  }

  /** One table entry after its slot was read over the rule it held before. */
  function LoadedEntry(before: Rule, data: seq<byte>, slot: byte): Entry {
    Entry(Decode(ReadInto(Encode(before, Padding(0, 0, 0, 0)), data)), Ready, slot)
  }

  predicate TableFits(s: Sched, table: seq<Entry>) {
    |table| == |s.bits| <= 0x100
  }

  /** The table once its first `m` entries were read from the given slots. */
  function Loaded(s: Sched, table: seq<Entry>, slots: seq<nat>, m: nat): (t: seq<Entry>)
    requires TableFits(s, table) && m <= |slots| <= |table|
    requires forall j :: 0 <= j < |slots| ==> slots[j] < |table|
    requires forall j :: 0 <= j < m ==> RULES_ID_BASE + slots[j] in s.cells
    ensures |t| == |table|
  {
    seq(|table|, j requires 0 <= j < |table| =>
      if j < m then LoadedEntry(table[j].rule, s.cells[RULES_ID_BASE + slots[j]], slots[j]) else table[j])
  }

  function ReadRules(s: Sched, table: seq<Entry>, faults: nat -> int): (r: (int, seq<Entry>))
    requires TableFits(s, table)
    ensures |r.1| == |table|
  {
    var slots := Slots(s.bits);
    if slots == [] then (1, table)
    else
      var m := Readable(s, slots, faults);
      (if m == |slots| then 0 else ReadSlot(s, slots[m], faults), Loaded(s, table, slots, m))
  }

  // ---- agreement of bitmap and store ----

  ghost predicate Agreement(s: Sched) {
    forall i :: 0 <= i < |s.bits| ==> (s.bits[i] <==> RULES_ID_BASE + i in s.cells)
  }

  ghost predicate SameCredentials(a: Cells, b: Cells) {
    && (SSID_ID in a <==> SSID_ID in b) && (SSID_ID in a ==> a[SSID_ID] == b[SSID_ID])
    && (PASSWORD_ID in a <==> PASSWORD_ID in b) && (PASSWORD_ID in a ==> a[PASSWORD_ID] == b[PASSWORD_ID])
  }

  /** After `init` bitmap and store agree exactly when every length query of a stored rule was answered. */
  lemma InitAgreesIff(s: Sched, answers: nat -> bool)
    ensures Agreement(Init(s, answers)) <==>
            forall i :: 0 <= i < |s.bits| && RULES_ID_BASE + i in s.cells ==> answers(i)
    ensures Init(s, answers).cells == s.cells
  {
    var t := Init(s, answers);
    assert forall i :: 0 <= i < |s.bits| ==> t.bits[i] == (answers(i) && RULES_ID_BASE + i in s.cells);
  }

  /** Nothing is erased, or what is erased is the slot whose bit is cleared: known before the call. */
  predicate ErasesItsSlot(bits: seq<bool>, slot: nat, zms: int, repaired: bool) {
    repaired || slot >= |bits| || !bits[slot] || RULES_ID_BASE + slot > RULES_ID_END || zms != 0
  }

  /** As written a deletion keeps the agreement exactly if the slot is free, out of range, or its erasure fails. */
  lemma DeleteKeepsAgreementIff(s: Sched, slot: nat, zms: int, repaired: bool)
    requires Agreement(s) && slot < |s.bits|
    ensures Agreement(DeleteRule(s, slot, zms, repaired).1) <==>
            repaired || !s.bits[slot] || RULES_ID_BASE + slot > RULES_ID_END || zms != 0
  {
    var t := DeleteRule(s, slot, zms, repaired).1;
    if !ErasesItsSlot(s.bits, slot, zms, repaired) {
      assert !t.bits[slot] && RULES_ID_BASE + slot in t.cells;
    }
  }

  /** A deletion, as written, erases a Wi-Fi credential exactly when it succeeds on the slot of that number. */
  lemma DeleteKeepsCredentialsIff(s: Sched, slot: nat, zms: int, repaired: bool)
    requires slot < |s.bits|
    ensures SameCredentials(s.cells, DeleteRule(s, slot, zms, repaired).1.cells) <==>
            || repaired || !s.bits[slot] || RULES_ID_BASE + slot > RULES_ID_END || zms != 0
            || slot > PASSWORD_ID || slot !in s.cells
  {
  }

  datatype Op =
    | InitOp(answers: nat -> bool)
    | WriteOp(data: seq<byte>, writes: nat -> ZmsWrite)
    | DeleteOp(slot: nat, erase: int)
    | ClearOp(erases: nat -> int)

  function Apply(s: Sched, op: Op, repaired: bool): (t: Sched)
    ensures |t.bits| == |s.bits|
  {
    match op
    case InitOp(answers) => Init(s, answers)
    case WriteOp(data, writes) => WriteRule(s, data, writes).1
    case DeleteOp(slot, erase) => if slot < |s.bits| then DeleteRule(s, slot, erase, repaired).1 else s
    case ClearOp(erases) => ClearRules(s, erases).1
  }

  function ApplyAll(s: Sched, ops: seq<Op>, repaired: bool): (t: Sched)
    ensures |t.bits| == |s.bits|
  {
    if ops == [] then s else Apply(ApplyAll(s, ops[..|ops| - 1], repaired), ops[|ops| - 1], repaired)
  }

  /** Every length query of a stored rule is answered. */
  ghost predicate Answered(s: Sched, answers: nat -> bool) {
    forall i :: 0 <= i < |s.bits| && RULES_ID_BASE + i in s.cells ==> answers(i)
  }

  /** What the bitmap, the arguments and the answers of the storage must be for a call to be harmless. */
  ghost predicate Harmless(s: Sched, op: Op, repaired: bool) {
    match op
    case InitOp(answers) => Answered(s, answers)
    case DeleteOp(slot, erase) => ErasesItsSlot(s.bits, slot, erase, repaired)
    case WriteOp(_, _) => true
    case ClearOp(_) => true
  }

  ghost predicate AllHarmless(s: Sched, ops: seq<Op>, repaired: bool) {
    forall k :: 0 <= k < |ops| ==> Harmless(ApplyAll(s, ops[..k], repaired), ops[k], repaired)
  }

  /** A call keeps the agreement exactly if it is harmless, and then leaves the credentials alone. */
  lemma StepKeepsAgreementIff(s: Sched, op: Op, repaired: bool)
    requires Agreement(s)
    ensures Agreement(Apply(s, op, repaired)) <==> Harmless(s, op, repaired)
    ensures Harmless(s, op, repaired) ==> SameCredentials(s.cells, Apply(s, op, repaired).cells)
  {
    match op
    case InitOp(answers) => InitAgreesIff(s, answers);
    case DeleteOp(slot, erase) =>
      if slot < |s.bits| {
        DeleteKeepsAgreementIff(s, slot, erase, repaired);
      }
    case _ =>
  }

  lemma AllHarmlessFront(s: Sched, ops: seq<Op>, repaired: bool)
    requires ops != []
    ensures AllHarmless(s, ops, repaired) <==>
            && AllHarmless(s, ops[..|ops| - 1], repaired)
            && Harmless(ApplyAll(s, ops[..|ops| - 1], repaired), ops[|ops| - 1], repaired)
  {
    hide ApplyAll, Harmless;
    var front := ops[..|ops| - 1];
    assert forall k :: 0 <= k < |front| ==> front[..k] == ops[..k] && front[k] == ops[k];
  }

  /**
   For every sequence of calls after `init`, whatever the storage refuses: bit i is set iff slot i is stored,
   the credential entries are untouched, and running `init` again would rebuild the same bitmap.
   */
  lemma {:induction false} AgreementOverRuns(boot: Sched, answers: nat -> bool, ops: seq<Op>, repaired: bool)
    requires Answered(boot, answers) && AllHarmless(Init(boot, answers), ops, repaired)
    ensures var s := ApplyAll(Init(boot, answers), ops, repaired);
            && Agreement(s)
            && SameCredentials(boot.cells, s.cells)
            && Init(s, _ => true) == s
  {
    hide Apply, Harmless;
    var s := ApplyAll(Init(boot, answers), ops, repaired);
    if ops == [] {
      InitAgreesIff(boot, answers);
    } else {
      AllHarmlessFront(Init(boot, answers), ops, repaired);
      AgreementOverRuns(boot, answers, ops[..|ops| - 1], repaired);
      StepKeepsAgreementIff(ApplyAll(Init(boot, answers), ops[..|ops| - 1], repaired), ops[|ops| - 1], repaired);
    }
    assert Init(s, _ => true).bits == s.bits;
  }

  /** The agreement holds after `init` and after every call exactly if `init` and every call were harmless. */
  lemma {:induction false} AgreementThroughoutIff(boot: Sched, answers: nat -> bool, ops: seq<Op>, repaired: bool)
    ensures (forall k :: 0 <= k <= |ops| ==> Agreement(ApplyAll(Init(boot, answers), ops[..k], repaired))) <==>
            Answered(boot, answers) && AllHarmless(Init(boot, answers), ops, repaired)
  {
    hide Apply, Harmless, ApplyAll, Agreement;
    var s0 := Init(boot, answers);
    assert ApplyAll(s0, [], repaired) == s0 by { NoCalls(s0, repaired); }
    InitAgreesIff(boot, answers);
    assert ops[..0] == [] && ops[..|ops|] == ops;
    if ops != [] {
      var n, front := |ops| - 1, ops[..|ops| - 1];
      assert forall k :: 0 <= k <= n ==> front[..k] == ops[..k];
      AgreementThroughoutIff(boot, answers, front, repaired);
      AllHarmlessFront(s0, ops, repaired);
      if Agreement(ApplyAll(s0, front, repaired)) {
        StepKeepsAgreementIff(ApplyAll(s0, front, repaired), ops[n], repaired);
        LastCall(s0, ops, repaired);
      }
    }
  }

  lemma NoCalls(s: Sched, repaired: bool)
    ensures ApplyAll(s, [], repaired) == s
  {
  }

  lemma LastCall(s: Sched, ops: seq<Op>, repaired: bool)
    requires ops != []
    ensures ApplyAll(s, ops, repaired) == Apply(ApplyAll(s, ops[..|ops| - 1], repaired), ops[|ops| - 1], repaired)
  {
  }

  lemma {:induction false} CountGrows(bits: seq<bool>, k: nat, m: nat)
    requires k < |bits| && !bits[k] && m <= |bits|
    ensures |SlotsUpTo(bits[k := true], m)| == |SlotsUpTo(bits, m)| + (if k < m then 1 else 0)
  {
    if m > 0 {
      CountGrows(bits, k, m - 1);
    }
  }

  /** A write succeeds iff some free slot accepts it; then one rule is added and no stored entry is overwritten. */
  lemma WriteAddsOneRule(s: Sched, data: seq<byte>, zms: nat -> ZmsWrite)
    requires Agreement(s)
    ensures var (ret, t) := WriteRule(s, data, zms);
            && (ret > 0 <==> exists k :: 0 <= k < |s.bits| && !s.bits[k] && WriteResult(|data|, zms(k)) > 0)
            && (ret > 0 ==> Count(t.bits) == Count(s.bits) + 1)
            && (forall id :: id in s.cells ==> id in t.cells && t.cells[id] == s.cells[id])
            && (ret <= 0 ==> t == s)
  {
    var k := FirstFit(s.bits, |data|, zms, 0);
    assert Emptied(s, data, zms, |s.bits|).cells == s.cells;
    if k < |s.bits| {
      assert !s.bits[k] && WriteResult(|data|, zms(k)) > 0;
      CountGrows(s.bits, k, |s.bits|);
    }
  }

  // ---- listing ----

  /** Every stored rule is the image of a rule; `write_rule` is only ever given one. */
  ghost predicate HoldsRules(s: Sched) {
    forall id :: id in s.cells && RULES_ID_BASE <= id < RULES_ID_BASE + |s.bits| ==> IsImage(s.cells[id])
  }

  ghost predicate IsImage(data: seq<byte>) {
    exists r: Rule, pad: Padding :: data == Encode(r, pad)
  }

  /** `table[..n]` lists exactly the stored rules, in increasing slot order, all Ready and rightly indexed. */
  ghost predicate Lists(s: Sched, table: seq<Entry>, n: nat) {
    && n == Count(s.bits) <= |table|
    && (forall i, j :: 0 <= i < j < n ==> table[i].fsIndex < table[j].fsIndex)
    && (forall j :: 0 <= j < n ==>
          && table[j].state == Ready
          && table[j].fsIndex < |s.bits| && s.bits[table[j].fsIndex]
          && RULES_ID_BASE + table[j].fsIndex in s.cells
          && |s.cells[RULES_ID_BASE + table[j].fsIndex]| == RULE_SIZE
          && table[j].rule == Decode(s.cells[RULES_ID_BASE + table[j].fsIndex]))
    && (forall k :: 0 <= k < |s.bits| && s.bits[k] ==> exists j :: 0 <= j < n && table[j].fsIndex == k)
  }

  /** As long as only rule images are written, only rule images are stored. */
  lemma {:induction false} HoldsRulesOverRuns(s: Sched, ops: seq<Op>, repaired: bool)
    requires HoldsRules(s)
    requires forall k :: 0 <= k < |ops| && ops[k].WriteOp? ==> IsImage(ops[k].data)
    ensures HoldsRules(ApplyAll(s, ops, repaired))
  {
    if ops != [] {
      var front, last := ops[..|ops| - 1], ops[|ops| - 1];
      HoldsRulesOverRuns(s, front, repaired);
    }
  }

  lemma ImageReads(before: Rule, data: seq<byte>, slot: byte)
    requires IsImage(data)
    ensures |data| == RULE_SIZE && LoadedEntry(before, data, slot).rule == Decode(data)
  {
    var r: Rule, pad: Padding :| data == Encode(r, pad);
    StoredRuleSurvivesRead(r, pad, Encode(before, Padding(0, 0, 0, 0)));
    DecodeEncode(r, pad);
  }

  lemma SlotReads(s: Sched, faults: nat -> int, slot: nat)
    requires Agreement(s) && HoldsRules(s) && slot < |s.bits| && s.bits[slot]
    ensures |s.cells[RULES_ID_BASE + slot]| == RULE_SIZE
    ensures ReadSlot(s, slot, faults) == if faults(slot) < 0 then faults(slot) else RULE_SIZE
  {
    assert IsImage(s.cells[RULES_ID_BASE + slot]);
  }

  lemma SlotsCover(bits: seq<bool>, k: nat) returns (j: nat)
    requires k < |bits| && bits[k]
    ensures j < |Slots(bits)| && Slots(bits)[j] == k
  {
    SlotsIncrease(bits, |bits|);
    j :| 0 <= j < |Slots(bits)| && Slots(bits)[j] == k;
  }

  /** No stored rule fails to be read. */
  ghost predicate NoFault(bits: seq<bool>, faults: nat -> int) {
    forall k :: 0 <= k < |bits| && bits[k] ==> faults(k) >= 0
  }

  lemma NoFaultOnSlots(bits: seq<bool>, faults: nat -> int)
    ensures NoFault(bits, faults) <==> forall j :: 0 <= j < |Slots(bits)| ==> faults(Slots(bits)[j]) >= 0
  {
    var slots := Slots(bits);
    if forall j :: 0 <= j < |slots| ==> faults(slots[j]) >= 0 {
      forall k | 0 <= k < |bits| && bits[k] ensures faults(k) >= 0 {
        var j := SlotsCover(bits, k);
        assert faults(slots[j]) >= 0;
      }
    }
  }

  lemma ReadStatus(s: Sched, table: seq<Entry>, faults: nat -> int)
    requires TableFits(s, table) && Agreement(s) && HoldsRules(s)
    ensures ReadRules(s, table, faults).0 == 0 <==> Count(s.bits) > 0 && NoFault(s.bits, faults)
    ensures ReadRules(s, table, faults).0 == 0 ==> Readable(s, Slots(s.bits), faults) == Count(s.bits)
  {
    var slots := Slots(s.bits);
    NoFaultOnSlots(s.bits, faults);
    var m := Readable(s, slots, faults);
    if m < |slots| {
      SlotReads(s, faults, slots[m]);
      assert faults(slots[m]) < 0;
    } else {
      forall j | 0 <= j < |slots| ensures faults(slots[j]) >= 0 {
        SlotReads(s, faults, slots[j]);
      }
    }
  }

  /** The entries a complete reading leaves in front of the table. */
  lemma LoadedEntries(s: Sched, table: seq<Entry>, j: nat)
    requires TableFits(s, table) && Agreement(s) && HoldsRules(s) && j < Count(s.bits)
    ensures var slot := Slots(s.bits)[j];
            && |s.cells[RULES_ID_BASE + slot]| == RULE_SIZE
            && Loaded(s, table, Slots(s.bits), Count(s.bits))[j] ==
               Entry(Decode(s.cells[RULES_ID_BASE + slot]), Ready, slot)
  {
    var slot := Slots(s.bits)[j];
    assert IsImage(s.cells[RULES_ID_BASE + slot]);
    ImageReads(table[j].rule, s.cells[RULES_ID_BASE + slot], slot);
  }

  /** `read_rules` returns 0 exactly when something is stored and no read failed, and then the table is the store. */
  lemma ReadListsStore(s: Sched, table: seq<Entry>, faults: nat -> int)
    requires TableFits(s, table) && Agreement(s) && HoldsRules(s)
    ensures var (ret, t) := ReadRules(s, table, faults);
            && (ret == 0 <==> Count(s.bits) > 0 && NoFault(s.bits, faults))
            && (ret == 0 ==> Lists(s, t, Count(s.bits)))
            && (ret == 0 ==> t[Count(s.bits)..] == table[Count(s.bits)..])
  {
    hide LoadedEntry, Lists, SlotsUpTo, HoldsRules, Readable;
    ReadStatus(s, table, faults);
    if ReadRules(s, table, faults).0 == 0 {
      LoadedLists(s, table);
    }
  }

  /** `table[..n]` holds the given slots in order. */
  ghost predicate Follows(table: seq<Entry>, slots: seq<nat>, n: nat) {
    n == |slots| <= |table| && forall j :: 0 <= j < n ==> table[j].fsIndex as nat == slots[j]
  }

  lemma LoadedLists(s: Sched, table: seq<Entry>)
    requires TableFits(s, table) && Agreement(s) && HoldsRules(s)
    ensures Lists(s, Loaded(s, table, Slots(s.bits), Count(s.bits)), Count(s.bits))
  {
    hide LoadedEntry, Decode, SlotsUpTo, HoldsRules;
    var n := Count(s.bits);
    var t := Loaded(s, table, Slots(s.bits), n);
    LoadedContent(s, table);
    LoadedInOrder(s.bits, t);
    LoadedCovers(s.bits, t);
  }

  lemma LoadedContent(s: Sched, table: seq<Entry>)
    requires TableFits(s, table) && Agreement(s) && HoldsRules(s)
    ensures var n, t := Count(s.bits), Loaded(s, table, Slots(s.bits), Count(s.bits));
            && Follows(t, Slots(s.bits), n)
            && forall j :: 0 <= j < n ==>
                 && t[j].state == Ready && RULES_ID_BASE + t[j].fsIndex in s.cells
                 && |s.cells[RULES_ID_BASE + t[j].fsIndex]| == RULE_SIZE
                 && t[j].rule == Decode(s.cells[RULES_ID_BASE + t[j].fsIndex])
  {
    hide LoadedEntry, Decode, SlotsUpTo, HoldsRules, Loaded;
    var n, t := Count(s.bits), Loaded(s, table, Slots(s.bits), Count(s.bits));
    forall j | 0 <= j < n
      ensures t[j].state == Ready && t[j].fsIndex as nat == Slots(s.bits)[j]
      ensures RULES_ID_BASE + t[j].fsIndex in s.cells && |s.cells[RULES_ID_BASE + t[j].fsIndex]| == RULE_SIZE
      ensures t[j].rule == Decode(s.cells[RULES_ID_BASE + t[j].fsIndex])
    {
      LoadedEntries(s, table, j);
    }
  }

  lemma LoadedInOrder(bits: seq<bool>, table: seq<Entry>)
    requires Follows(table, Slots(bits), Count(bits))
    ensures forall i, j :: 0 <= i < j < Count(bits) ==> table[i].fsIndex < table[j].fsIndex
  {
    hide SlotsUpTo;
    SlotsIncrease(bits, |bits|);
  }

  lemma LoadedCovers(bits: seq<bool>, table: seq<Entry>)
    requires Follows(table, Slots(bits), Count(bits))
    ensures forall k :: 0 <= k < |bits| && bits[k] ==> exists j :: 0 <= j < Count(bits) && table[j].fsIndex as nat == k
  {
    hide SlotsUpTo;
    forall k | 0 <= k < |bits| && bits[k] ensures exists j :: 0 <= j < Count(bits) && table[j].fsIndex as nat == k {
      var j := SlotsCover(bits, k);
      assert table[j].fsIndex as nat == k;
    }
  }

  /** Whatever was called before, reading a store of rule images without faults lists exactly what is stored. */
  lemma ReadAfterRunLists(boot: Sched, answers: nat -> bool, ops: seq<Op>, repaired: bool,
                          table: seq<Entry>, faults: nat -> int)
    requires Answered(boot, answers) && AllHarmless(Init(boot, answers), ops, repaired)
    requires HoldsRules(boot) && forall k :: 0 <= k < |ops| && ops[k].WriteOp? ==> IsImage(ops[k].data)
    requires TableFits(boot, table)
    ensures var s := ApplyAll(Init(boot, answers), ops, repaired);
            var (ret, t) := ReadRules(s, table, faults);
            && (ret == 0 <==> Count(s.bits) > 0 && NoFault(s.bits, faults))
            && (ret == 0 ==> Lists(s, t, Count(s.bits)))
  {
    hide Lists, Count, ReadRules, Agreement, AllHarmless;
    AgreementOverRuns(boot, answers, ops, repaired);
    HoldsRulesOverRuns(Init(boot, answers), ops, repaired);
    ReadListsStore(ApplyAll(Init(boot, answers), ops, repaired), table, faults);
  }

  lemma ReadsAllIff(s: Sched, table: seq<Entry>, faults: nat -> int)
    requires TableFits(s, table) && HoldsRules(s) && NoFault(s.bits, faults)
    ensures ReadRules(s, table, faults).0 == 0 <==>
            Count(s.bits) > 0 && forall k :: 0 <= k < |s.bits| && s.bits[k] ==> RULES_ID_BASE + k in s.cells
  {
    hide SlotsUpTo, Loaded;
    var slots := Slots(s.bits);
    var m := Readable(s, slots, faults);
    if m < |slots| {
      assert RULES_ID_BASE + slots[m] in s.cells ==> IsImage(s.cells[RULES_ID_BASE + slots[m]]);
    } else {
      forall k | 0 <= k < |s.bits| && s.bits[k] ensures RULES_ID_BASE + k in s.cells {
        var j := SlotsCover(s.bits, k);
        assert ReadSlot(s, slots[j], faults) > 0;
      }
    }
  }

  /**
   After a successful deletion a fault-free reading succeeds exactly if a rule is left and, as written, the rule two
   slots below was not stored: its entry is the one that was erased.
   */
  lemma ReadsAfterDeleteIff(s: Sched, slot: nat, repaired: bool, table: seq<Entry>, faults: nat -> int)
    requires TableFits(s, table) && Agreement(s) && HoldsRules(s)
    requires slot < |s.bits| && s.bits[slot] && RULES_ID_BASE + slot <= RULES_ID_END
    requires forall k :: faults(k) >= 0
    ensures var t := DeleteRule(s, slot, 0, repaired).1;
            ReadRules(t, table, faults).0 == 0 <==>
              Count(t.bits) > 0 && (repaired || slot < RULES_ID_BASE || !s.bits[slot - RULES_ID_BASE])
  {
    hide SlotsUpTo, ReadRules;
    var t := DeleteRule(s, slot, 0, repaired).1;
    assert HoldsRules(t);
    ReadsAllIff(t, table, faults);
    if !repaired && slot >= RULES_ID_BASE {
      var k := slot - RULES_ID_BASE;
      assert RULES_ID_BASE + k !in t.cells && t.bits[k] == s.bits[k];
    }
  }

  /** A rule that `write_rule` accepted is in the next listing, field by field. */
  lemma WrittenRuleIsListed(
    s: Sched, r: Rule, pad: Padding, zms: nat -> ZmsWrite, table: seq<Entry>, faults: nat -> int)
    requires Agreement(s) && HoldsRules(s) && TableFits(s, table)
    requires WriteRule(s, Encode(r, pad), zms).0 > 0
    ensures var t := WriteRule(s, Encode(r, pad), zms).1;
            NoFault(t.bits, faults) ==>
              && ReadRules(t, table, faults).0 == 0
              && exists j :: 0 <= j < Count(t.bits) && ReadRules(t, table, faults).1[j].rule == r
  {
    hide Decode, Encode, ReadRules, SlotsUpTo;
    var t := WriteRule(s, Encode(r, pad), zms).1;
    var k := FirstFit(s.bits, RULE_SIZE, zms, 0);
    if NoFault(t.bits, faults) {
      assert IsImage(Encode(r, pad));
      assert HoldsRules(t);
      var j := SlotsCover(t.bits, k);
      ReadListsStore(t, table, faults);
      ListedAt(t, ReadRules(t, table, faults).1, k);
      DecodeEncode(r, pad);
    }
  }

  lemma ListedAt(s: Sched, table: seq<Entry>, k: nat)
    requires Lists(s, table, Count(s.bits)) && k < |s.bits| && s.bits[k]
    ensures exists j :: 0 <= j < Count(s.bits) && RULES_ID_BASE + k in s.cells
              && |s.cells[RULES_ID_BASE + k]| == RULE_SIZE && table[j].rule == Decode(s.cells[RULES_ID_BASE + k])
  {
    hide Decode;
    var j :| 0 <= j < Count(s.bits) && table[j].fsIndex == k;
    assert table[j].rule == Decode(s.cells[RULES_ID_BASE + k]);
  }
}
