/** hal_can_core.c: which filter slot has which of the hardware's filter banks. */
module CanFilters {
  import opened Sequences

  datatype Ret = OK | BUSY | PARAM | HARDWARE

  /** Slots and banks, and which slot has which bank; -1 is no bank. */
  datatype Slots = Slots(banks: seq<nat>, used: seq<bool>, bankUsed: seq<bool>, bankOf: seq<int>) {
    /** Used slots have banks, different ones, and every used bank has its slot. */
    predicate Inv() {
      && |used| == |bankOf| == |banks| && (forall i | 0 <= i < |banks| :: banks[i] < |bankUsed|)
      && (forall s | 0 <= s < |used| :: if used[s] then HasBank(s) else bankOf[s] == -1)
      && (forall s, t | 0 <= s < t < |used| && used[s] && used[t] :: bankOf[s] != bankOf[t])
      && forall b | 0 <= b < |bankUsed| && bankUsed[b] :: exists s :: 0 <= s < |used| && used[s] && bankOf[s] == b
    }

    predicate HasBank(s: int)
      requires 0 <= s < |bankOf|
    {
      0 <= bankOf[s] < |bankUsed| && bankUsed[bankOf[s]] && bankOf[s] in banks
    }

    predicate AllSlotsUsed() {
      forall s | 0 <= s < |used| :: used[s]
    }

    predicate AllBanksUsed()
      requires forall i | 0 <= i < |banks| :: banks[i] < |bankUsed|
    {
      forall i | 0 <= i < |banks| :: bankUsed[banks[i]]
    }

    function With(slot: nat, bank: nat): Slots
      requires slot < |used| && slot < |bankOf| && bank < |bankUsed|
    {
      Slots(banks, used[slot := true], bankUsed[bank := true], bankOf[slot := bank])
    }

    function Without(slot: nat): Slots
      requires slot < |used| && slot < |bankOf| && HasBank(slot)
    {
      Slots(banks, used[slot := false], bankUsed[bankOf[slot] := false], bankOf[slot := -1])
    }

    /** The banks of the used ones among the first k slots. */
    function BanksOf(k: nat): (r: set<int>)
      requires k <= |used| && |used| == |bankOf|
      ensures forall s | 0 <= s < k && used[s] :: bankOf[s] in r
    {
      if k == 0 then {}
      else if used[k - 1] then BanksOf(k - 1) + {bankOf[k - 1]}
      else BanksOf(k - 1)
    }
  }

  lemma {:induction false} FewBanks(m: Slots, k: nat)
    requires k <= |m.used| && |m.used| == |m.bankOf|
    ensures |m.BanksOf(k)| <= k
    ensures (exists s :: 0 <= s < k && !m.used[s]) ==> |m.BanksOf(k)| < k
  {
    if k == 0 {
    } else {
      FewBanks(m, k - 1);
    }
  }

  function SetOf(banks: seq<nat>): (r: set<int>)
    ensures forall b :: b in r <==> 0 <= b && b in banks
  {
    if banks == [] then {} else SetOf(banks[1..]) + {banks[0]}
  }

  lemma {:induction false} DistinctCount(banks: seq<nat>)
    requires NoRepeats(banks)
    ensures |SetOf(banks)| == |banks|
  {
    if banks == [] {
    } else {
      DistinctCount(banks[1..]);
      assert banks[0] !in banks[1..];
    }
  }

  lemma Subset(a: set<int>, b: set<int>)
    requires a <= b
    ensures |a| <= |b|
  {
    var rest := b - a;
    assert b == a + rest;
  }

  /** If the banks listed are distinct, a free slot means that there is a free bank. */
  lemma BankForSlot(m: Slots)
    requires m.Inv()
    ensures NoRepeats(m.banks) && m.AllBanksUsed() ==> m.AllSlotsUsed()
  {
    if NoRepeats(m.banks) && m.AllBanksUsed() {
      forall b | b in SetOf(m.banks)
        ensures b in m.BanksOf(|m.used|)
      {
        assert m.bankUsed[b];
      }
      Subset(SetOf(m.banks), m.BanksOf(|m.used|));
      DistinctCount(m.banks);
      FewBanks(m, |m.used|);
    }
  }

  class FilterManager {
    const banks: seq<nat>
    var used: seq<bool>
    var bankUsed: seq<bool>
    var bankOf: seq<int>
    /** isActived of the filter in each slot. */
    var active: seq<bool>

    function State(): Slots
      reads this
    {
      Slots(banks, used, bankUsed, bankOf)
    }

    predicate Valid()
      reads this
    {
      State().Inv() && active == used
    }

    /** _can_filter_resmgr_init, from the banks the hardware reports. */
    constructor (banks: seq<nat>)
      requires banks != []
      ensures Valid() && this.banks == banks && |used| == |banks|
      ensures forall s | 0 <= s < |used| :: !used[s] && bankOf[s] == -1
      ensures forall b | 0 <= b < |bankUsed| :: !bankUsed[b]
    {
      var max := 0;
      var i := 0;
      while i < |banks|
        invariant 0 <= i <= |banks| && forall j | 0 <= j < i :: banks[j] <= max
      {
        if banks[i] > max {
          max := banks[i];
        }
        i := i + 1;
      }
      this.banks := banks;
      used, active := seq(|banks|, k => false), seq(|banks|, k => false);
      bankUsed, bankOf := seq(max + 1, k => false), seq(|banks|, k => -1);
    }

    /** _can_find_slot_by_hwbank: the exact inverse of the bank of a slot. */
    method FindSlot(bank: int) returns (slot: int)
      requires Valid()
      ensures -1 <= slot < |used|
      ensures forall s | 0 <= s < |used| :: s == slot <==> used[s] && bankOf[s] == bank
    {
      slot := 0;
      while slot < |used|
        invariant 0 <= slot <= |used|
        invariant forall s | 0 <= s < slot :: !(used[s] && bankOf[s] == bank)
      {
        if used[slot] {
          if bankOf[slot] == bank {
            return;
          }
        }
        slot := slot + 1;
      }
      slot := -1;
    }

    method FirstFreeSlot() returns (slot: nat)
      requires Valid()
      ensures slot <= |used| && (slot < |used| ==> !used[slot]) && forall s | 0 <= s < slot :: used[s]
      ensures slot == |used| <==> State().AllSlotsUsed()
    {
      slot := 0;
      while slot < |used| && used[slot]
        invariant slot <= |used| && forall s | 0 <= s < slot :: used[s]
      {
        slot := slot + 1;
      }
    }

    method FirstFreeBank() returns (i: nat)
      requires Valid()
      ensures i <= |banks| && (i < |banks| ==> !bankUsed[banks[i]]) && forall j | 0 <= j < i :: bankUsed[banks[j]]
      ensures i == |banks| <==> State().AllBanksUsed()
    {
      i := 0;
      while i < |banks| && bankUsed[banks[i]]
        invariant i <= |banks| && forall j | 0 <= j < i :: bankUsed[banks[j]]
      {
        i := i + 1;
      }
    }

    /** _can_reserve_slot: the lowest free slot gets the first free bank of the list. With
        distinct banks it is refused only when no slot is free. */
    method Reserve() returns (ret: Ret, slot: nat, bank: nat)
      requires Valid()
      modifies `used, `bankUsed, `bankOf
      ensures State().Inv() && (ret == OK || (ret == BUSY && unchanged(this)))
      ensures ret == BUSY <==> (forall s | 0 <= s < |used| :: old(used[s]))
                               || forall i | 0 <= i < |banks| :: old(bankUsed[banks[i]])
      ensures NoRepeats(banks) ==> (ret == BUSY <==> forall s | 0 <= s < |used| :: old(used[s]))
      ensures ret == OK ==> slot < |old(used)| && !old(used)[slot] && forall s | 0 <= s < slot :: old(used[s])
      ensures ret == OK ==> exists i ::
        && 0 <= i < |banks| && banks[i] == bank && !old(bankUsed[banks[i]])
        && forall j | 0 <= j < i :: old(bankUsed[banks[j]])
      ensures ret == OK ==> used == old(used)[slot := true] && bankOf == old(bankOf)[slot := bank]
      ensures ret == OK ==> bank < |old(bankUsed)| && bankUsed == old(bankUsed)[bank := true]
      ensures ret == OK ==> State() == old(State()).With(slot, bank)
    {
      ret, bank := BUSY, 0;
      slot := FirstFreeSlot();
      if slot < |used| {
        var i := FirstFreeBank();
        BankForSlot(State());
        if i < |banks| {
          ret, bank := OK, banks[i];
          Joined(State(), slot, bank);
          used, bankUsed, bankOf := used[slot := true], bankUsed[bank := true], bankOf[slot := bank];
        }
      }
    }

    /** _can_release_slot */
    method Release(slot: nat)
      requires State().Inv() && slot < |used| && used[slot]
      modifies `used, `bankUsed, `bankOf
      ensures State().Inv() && State() == old(State()).Without(slot)
      ensures used == old(used)[slot := false] && bankOf == old(bankOf)[slot := -1]
      ensures bankUsed == old(bankUsed[bankOf[slot] := false])
    {
      Parted(State(), slot);
      var bank := bankOf[slot];
      if bank >= 0 && bank < |bankUsed| {
        bankUsed := bankUsed[bank := false];
      }
      used, bankOf := used[slot := false], bankOf[slot := -1];
    }

    /** CAN_CMD_FILTER_ALLOC. When the hardware refuses, everything is as it was. */
    method Alloc(hardwareOk: bool) returns (ret: Ret, handle: nat)
      requires Valid()
      modifies this
      ensures Valid() && (ret != OK ==> State() == old(State()))
      ensures ret == BUSY <==> (forall s | 0 <= s < |used| :: old(used[s]))
                               || forall i | 0 <= i < |banks| :: old(bankUsed[banks[i]])
      ensures ret == OK ==> handle < |used| && !old(used)[handle] && forall s | 0 <= s < handle :: old(used[s])
      ensures ret == OK ==> exists i ::
        && 0 <= i < |banks| && !old(bankUsed[banks[i]]) && (forall j | 0 <= j < i :: old(bankUsed[banks[j]]))
        && bankOf == old(bankOf)[handle := banks[i]] && bankUsed == old(bankUsed)[banks[i] := true]
      ensures ret == OK ==> used == old(used)[handle := true]
      ensures ret == HARDWARE <==> !hardwareOk && ret != BUSY
      ensures ret != PARAM
    {
      var bank;
      ret, handle, bank := Reserve();
      if ret == OK {
        if !hardwareOk {
          Release(handle);
          ret := HARDWARE;
        } else {
          active := active[handle := true];
        }
      }
    }

    /** CAN_CMD_FILTER_FREE, for a filter with `pending` unread messages. */
    method Free(handle: nat, pending: nat, hardwareOk: bool) returns (ret: Ret)
      requires Valid()
      modifies this
      ensures Valid() && (ret != OK ==> State() == old(State()))
      ensures ret == PARAM <==> handle >= |old(used)|
      ensures ret == BUSY <==> handle < |old(used)| && (!old(used)[handle] || pending > 0)
      ensures ret == HARDWARE <==> handle < |old(used)| && old(used)[handle] && pending == 0 && !hardwareOk
      ensures ret == OK ==> used == old(used)[handle := false] && bankOf == old(bankOf)[handle := -1]
      ensures ret == OK ==> bankUsed == old(bankUsed[bankOf[handle] := false])
    {
      if handle >= |used| {
        return PARAM;
      }
      if !active[handle] || pending > 0 {
        return BUSY;
      }
      if bankOf[handle] < 0 {
        assert false;
      }
      if !hardwareOk {
        return HARDWARE;
      }
      active := active[handle := false];
      Release(handle);
      ret := OK;
    }
  }

  /** Where the banks listed are not distinct, slots can be left for which there is no
      bank: with one bank listed twice the second allocation is refused, although the
      second slot is free. */
  method SharedBank() returns (ret: Ret, slotFree: bool)
    ensures ret == BUSY && slotFree
  {
    var m := new FilterManager([4, 4]);
    assert !m.used[0] && !m.bankUsed[m.banks[0]];
    var first, handle := m.Alloc(true);
    assert m.bankOf[handle] == 4 && !m.used[1 - handle];
    ret, handle := m.Alloc(true);
    var slot := m.FirstFreeSlot();
    slotFree := slot < |m.used|;
  }

  lemma Joined(m: Slots, slot: nat, bank: nat)
    requires m.Inv() && slot < |m.used| && !m.used[slot] && bank in m.banks && !m.bankUsed[bank]
    ensures m.With(slot, bank).Inv()
  {
    var n := m.With(slot, bank);
    forall b | 0 <= b < |n.bankUsed| && n.bankUsed[b]
      ensures exists s :: 0 <= s < |n.used| && n.used[s] && n.bankOf[s] == b
    {
      if b == bank {
        assert n.used[slot] && n.bankOf[slot] == b;
      } else {
        var s :| 0 <= s < |m.used| && m.used[s] && m.bankOf[s] == b;
        assert n.used[s] && n.bankOf[s] == b;
      }
    }
  }

  lemma Parted(m: Slots, slot: nat)
    requires m.Inv() && slot < |m.used| && m.used[slot]
    ensures m.HasBank(slot) && m.Without(slot).Inv()
  {
    var n := m.Without(slot);
    forall s | 0 <= s < |n.used| && n.used[s]
      ensures n.HasBank(s)
    {
      assert m.used[s] && m.HasBank(s) && m.bankOf[s] != m.bankOf[slot];
    }
    forall b | 0 <= b < |n.bankUsed| && n.bankUsed[b]
      ensures exists s :: 0 <= s < |n.used| && n.used[s] && n.bankOf[s] == b
    {
      var s :| 0 <= s < |m.used| && m.used[s] && m.bankOf[s] == b;
      assert n.used[s] && n.bankOf[s] == b;
    }
  }
}
