/** Which root file system to boot: the status register that counts retries of two slots, the
    variables that hold their status, and what a series of failing boots comes to. */
module Rootfs {
  /** The register as the launcher's macros see it. */
  const SR_RF_MAGIC_MASK: bv32 := 0x0000FFFF
  const SR_RF_MAGIC: bv32 := 0xFACE
  const RF_CURRENT_SLOT_MASK: bv32 := 0x00030000
  const RF_RETRY_COUNT_B_MASK: bv32 := 0x000C0000
  const RF_RETRY_COUNT_A_MASK: bv32 := 0x00300000

  function MagicGet(reg: bv32): bv32 { reg & SR_RF_MAGIC_MASK }
  function MagicSet(reg: bv32): bv32 { (reg & !SR_RF_MAGIC_MASK) | SR_RF_MAGIC }
  function SlotGet(reg: bv32): bv32 { (reg & RF_CURRENT_SLOT_MASK) >> 16 }
  function SlotSet(slot: bv32, reg: bv32): bv32 { (reg & !RF_CURRENT_SLOT_MASK) | ((slot & 3) << 16) }
  function CountBGet(reg: bv32): bv32 { (reg & RF_RETRY_COUNT_B_MASK) >> 18 }
  function CountBSet(count: bv32, reg: bv32): bv32 { (reg & !RF_RETRY_COUNT_B_MASK) | ((count & 3) << 18) }
  function CountAGet(reg: bv32): bv32 { (reg & RF_RETRY_COUNT_A_MASK) >> 20 }
  function CountASet(count: bv32, reg: bv32): bv32 { (reg & !RF_RETRY_COUNT_A_MASK) | ((count & 3) << 20) }

  // ---------- a setter changes its own field only ----------

  lemma {:induction false} SlotSetMagic(slot: bv32, reg: bv32)
    ensures MagicGet(SlotSet(slot, reg)) == MagicGet(reg)
  {
  }

  lemma {:induction false} SlotSetSlot(slot: bv32, reg: bv32)
    ensures SlotGet(SlotSet(slot, reg)) == slot & 3
  {
  }

  lemma {:induction false} SlotSetCountA(slot: bv32, reg: bv32)
    ensures CountAGet(SlotSet(slot, reg)) == CountAGet(reg)
  {
  }

  lemma {:induction false} SlotSetCountB(slot: bv32, reg: bv32)
    ensures CountBGet(SlotSet(slot, reg)) == CountBGet(reg)
  {
  }

  lemma {:induction false} SlotSetGets(slot: bv32, reg: bv32)
    ensures SlotGet(SlotSet(slot, reg)) == slot & 3
    ensures MagicGet(SlotSet(slot, reg)) == MagicGet(reg)
    ensures CountAGet(SlotSet(slot, reg)) == CountAGet(reg)
    ensures CountBGet(SlotSet(slot, reg)) == CountBGet(reg)
  {
    hide *;
    SlotSetMagic(slot, reg);
    SlotSetSlot(slot, reg);
    SlotSetCountA(slot, reg);
    SlotSetCountB(slot, reg);
  }

  lemma {:induction false} CountASetMagic(count: bv32, reg: bv32)
    ensures MagicGet(CountASet(count, reg)) == MagicGet(reg)
  {
  }

  lemma {:induction false} CountASetSlot(count: bv32, reg: bv32)
    ensures SlotGet(CountASet(count, reg)) == SlotGet(reg)
  {
  }

  lemma {:induction false} CountASetCountA(count: bv32, reg: bv32)
    ensures CountAGet(CountASet(count, reg)) == count & 3
  {
  }

  lemma {:induction false} CountASetCountB(count: bv32, reg: bv32)
    ensures CountBGet(CountASet(count, reg)) == CountBGet(reg)
  {
  }

  lemma {:induction false} CountASetGets(count: bv32, reg: bv32)
    ensures CountAGet(CountASet(count, reg)) == count & 3
    ensures MagicGet(CountASet(count, reg)) == MagicGet(reg)
    ensures SlotGet(CountASet(count, reg)) == SlotGet(reg)
    ensures CountBGet(CountASet(count, reg)) == CountBGet(reg)
  {
    hide *;
    CountASetMagic(count, reg);
    CountASetSlot(count, reg);
    CountASetCountA(count, reg);
    CountASetCountB(count, reg);
  }

  lemma {:induction false} CountBSetMagic(count: bv32, reg: bv32)
    ensures MagicGet(CountBSet(count, reg)) == MagicGet(reg)
  {
  }

  lemma {:induction false} CountBSetSlot(count: bv32, reg: bv32)
    ensures SlotGet(CountBSet(count, reg)) == SlotGet(reg)
  {
  }

  lemma {:induction false} CountBSetCountA(count: bv32, reg: bv32)
    ensures CountAGet(CountBSet(count, reg)) == CountAGet(reg)
  {
  }

  lemma {:induction false} CountBSetCountB(count: bv32, reg: bv32)
    ensures CountBGet(CountBSet(count, reg)) == count & 3
  {
  }

  lemma {:induction false} CountBSetGets(count: bv32, reg: bv32)
    ensures CountBGet(CountBSet(count, reg)) == count & 3
    ensures MagicGet(CountBSet(count, reg)) == MagicGet(reg)
    ensures SlotGet(CountBSet(count, reg)) == SlotGet(reg)
    ensures CountAGet(CountBSet(count, reg)) == CountAGet(reg)
  {
    hide *;
    CountBSetMagic(count, reg);
    CountBSetSlot(count, reg);
    CountBSetCountA(count, reg);
    CountBSetCountB(count, reg);
  }

  lemma {:induction false} MagicSetMagic(reg: bv32)
    ensures MagicGet(MagicSet(reg)) == SR_RF_MAGIC
  {
  }

  lemma {:induction false} MagicSetSlot(reg: bv32)
    ensures SlotGet(MagicSet(reg)) == SlotGet(reg)
  {
  }

  lemma {:induction false} MagicSetCountA(reg: bv32)
    ensures CountAGet(MagicSet(reg)) == CountAGet(reg)
  {
  }

  lemma {:induction false} MagicSetCountB(reg: bv32)
    ensures CountBGet(MagicSet(reg)) == CountBGet(reg)
  {
  }

  lemma {:induction false} MagicSetGets(reg: bv32)
    ensures MagicGet(MagicSet(reg)) == SR_RF_MAGIC
    ensures SlotGet(MagicSet(reg)) == SlotGet(reg)
    ensures CountAGet(MagicSet(reg)) == CountAGet(reg)
    ensures CountBGet(MagicSet(reg)) == CountBGet(reg)
  {
    hide *;
    MagicSetMagic(reg);
    MagicSetSlot(reg);
    MagicSetCountA(reg);
    MagicSetCountB(reg);
  }

  // ---------- where the fields are ----------

  lemma {:induction false} MagicLayout(reg: bv32)
    ensures MagicGet(reg) == reg & 0xFFFF
  {
  }

  lemma {:induction false} SlotLayout(reg: bv32)
    ensures SlotGet(reg) == (reg >> 16) & 3
  {
  }

  lemma {:induction false} CountBLayout(reg: bv32)
    ensures CountBGet(reg) == (reg >> 18) & 3
  {
  }

  lemma {:induction false} CountALayout(reg: bv32)
    ensures CountAGet(reg) == (reg >> 20) & 3
  {
  }

  /** The magic is bits 0 to 15, the slot 16 and 17, the count of slot B 18 and 19 and that of slot A
      20 and 21. */
  lemma {:induction false} RegisterLayout(reg: bv32)
    ensures MagicGet(reg) == reg & 0xFFFF && SlotGet(reg) == (reg >> 16) & 3
    ensures CountBGet(reg) == (reg >> 18) & 3 && CountAGet(reg) == (reg >> 20) & 3
  {
    hide *;
    MagicLayout(reg);
    SlotLayout(reg);
    CountBLayout(reg);
    CountALayout(reg);
  }

  // ---------- one boot ----------

  const NVIDIA_OS_STATUS_UNBOOTABLE: bv32 := 0xFF
  const NVIDIA_OS_REDUNDANCY_BOOT_ONLY: bv32 := 0
  const NVIDIA_OS_REDUNDANCY_BOOT_ROOTFS: bv32 := 1
  const NVIDIA_L4T_BOOTMODE_RECOVERY: bv32 := 3
  const ROOTFS_SLOT_A: bv32 := 0
  const ROOTFS_SLOT_B: bv32 := 1

  const RF_STATUS_A: nat := 0
  const RF_STATUS_B: nat := 1
  const RF_REDUNDANCY: nat := 2
  const RF_RETRY_MAX: nat := 3
  const RF_FW_NEXT: nat := 4
  const RF_BC_STATUS: nat := 5
  const RF_VARIABLE_INDEX_MAX: nat := 6

  /** What lasts from boot to boot: the variables, 0 for one that is absent, and the register. */
  datatype Store = Store(vars: seq<bv32>, reg: bv32)

  datatype Outcome = Recovery | Boots(slot: bv32) | Resets(chain: bv32)

  predicate Complete(s: Store) {
    |s.vars| == RF_VARIABLE_INDEX_MAX
  }

  predicate Unbootable(s: Store, slot: bv32)
    requires Complete(s)
  {
    s.vars[if slot == ROOTFS_SLOT_A then RF_STATUS_A else RF_STATUS_B] == NVIDIA_OS_STATUS_UNBOOTABLE
  }

  function MarkUnbootable(s: Store, slot: bv32): (r: Store)
    requires Complete(s)
    ensures Complete(r)
  {
    s.(vars := s.vars[(if slot == ROOTFS_SLOT_A then RF_STATUS_A else RF_STATUS_B) := NVIDIA_OS_STATUS_UNBOOTABLE])
  }

  /** InitializeRootfsStatusReg: a register without the magic is filled in afresh. */
  function InitReg(s: Store, chain: bv32): bv32
    requires Complete(s)
  {
    if MagicGet(s.reg) == SR_RF_MAGIC then s.reg
    else
      CountBSet(if Unbootable(s, ROOTFS_SLOT_B) then 0 else s.vars[RF_RETRY_MAX],
                CountASet(if Unbootable(s, ROOTFS_SLOT_A) then 0 else s.vars[RF_RETRY_MAX],
                          SlotSet(chain, MagicSet(0))))
  }

  predicate IsValidRootfs(s: Store)
    requires Complete(s)
  {
    && !(s.vars[RF_REDUNDANCY] == NVIDIA_OS_REDUNDANCY_BOOT_ONLY && Unbootable(s, ROOTFS_SLOT_A))
    && !(s.vars[RF_REDUNDANCY] == NVIDIA_OS_REDUNDANCY_BOOT_ROOTFS
         && Unbootable(s, ROOTFS_SLOT_A) && Unbootable(s, ROOTFS_SLOT_B))
  }

  /** SyncSrRfAndmRootfsInfo towards the register. */
  function ToReg(slot: bv32, a: bv32, b: bv32, reg: bv32): bv32 {
    CountBSet(b, CountASet(a, SlotSet(slot, reg)))
  }

  function CountOf(slot: bv32, reg: bv32): bv32 {
    if slot == ROOTFS_SLOT_A then CountAGet(reg) else CountBGet(reg)
  }

  /** The register when a slot is booted: its count one lower. */
  function Spend(slot: bv32, reg: bv32): bv32 {
    var a, b := CountAGet(reg), CountBGet(reg);
    if slot == ROOTFS_SLOT_A then ToReg(slot, a - 1, b, reg) else ToReg(slot, a, b - 1, reg)
  }

  /** The register when recovery is chosen: the magic is gone, the fields are not. */
  function ForRecovery(slot: bv32, reg: bv32): bv32 {
    ToReg(slot, CountAGet(reg), CountBGet(reg), 0)
  }

  function Other(slot: bv32): bv32 {
    if slot == 0 then 1 else 0
  }

  /** ValidateRootfsStatus on a boot chain that exists, when the boot mode is not recovery yet. */
  function Boot(s: Store, chain: bv32): (r: (Store, Outcome))
    requires Complete(s)
    ensures Complete(r.0)
  {
    var reg := InitReg(s, chain);
    if !IsValidRootfs(s) then (s.(reg := 0), Recovery)
    else if s.vars[RF_REDUNDANCY] == NVIDIA_OS_REDUNDANCY_BOOT_ONLY then
      if CountAGet(reg) != 0 then (s.(reg := Spend(ROOTFS_SLOT_A, reg)), Boots(ROOTFS_SLOT_A))
      else (MarkUnbootable(s, ROOTFS_SLOT_A).(reg := ForRecovery(ROOTFS_SLOT_A, reg)), Recovery)
    else if s.vars[RF_REDUNDANCY] == NVIDIA_OS_REDUNDANCY_BOOT_ROOTFS then
      if CountOf(chain, reg) != 0 then (s.(reg := Spend(chain, reg)), Boots(chain))
      else if CountOf(Other(chain), reg) != 0 then
        var t := MarkUnbootable(s, chain);
        (Store(t.vars[RF_FW_NEXT := Other(chain)][RF_BC_STATUS := 0], 0), Resets(Other(chain)))
      else (MarkUnbootable(MarkUnbootable(s, chain), Other(chain)).(reg := ForRecovery(chain, reg)), Recovery)
    else (s.(reg := ToReg(chain, CountAGet(reg), CountBGet(reg), reg)), Boots(chain))
  }

  // ---------- a series of failing boots ----------

  /** The chain of the next boot, when the firmware does as it is told and nothing else changes. */
  function NextChain(chain: bv32, o: Outcome): bv32 {
    match o
    case Resets(c) => c
    case _ => chain
  }

  /** The store and the chain after n boots, none of which the system survives to repair. */
  function After(s: Store, chain: bv32, n: nat): (r: (Store, bv32))
    requires Complete(s)
    ensures Complete(r.0)
  {
    if n == 0 then (s, chain)
    else
      var (t, c) := After(s, chain, n - 1);
      (Boot(t, c).0, NextChain(c, Boot(t, c).1))
  }

  /** The outcome of boot number n, counted from zero. */
  function OutcomeOf(s: Store, chain: bv32, n: nat): Outcome
    requires Complete(s)
  {
    Boot(After(s, chain, n).0, After(s, chain, n).1).1
  }

  predicate Chain(chain: bv32) {
    chain == ROOTFS_SLOT_A || chain == ROOTFS_SLOT_B
  }

  predicate Redundancy01(s: Store)
    requires Complete(s)
  {
    s.vars[RF_REDUNDANCY] == NVIDIA_OS_REDUNDANCY_BOOT_ONLY || s.vars[RF_REDUNDANCY] == NVIDIA_OS_REDUNDANCY_BOOT_ROOTFS
  }

  /** A two-bit field as a number. */
  function Num(b: bv32): (n: nat)
    ensures n <= 3 && (n == 0 <==> b == 0)
  {
    if b == 0 then 0 else if b == 1 then 1 else if b == 2 then 2 else 3
  }

  /** The retries a fresh register gives a slot. */
  function Retries(s: Store): nat
    requires Complete(s)
  {
    Num(s.vars[RF_RETRY_MAX] & 3)
  }

  /** The retries a slot has left, whether the register is filled in already or not. */
  function Left(s: Store, slot: bv32): nat
    requires Complete(s)
  {
    if MagicGet(s.reg) == SR_RF_MAGIC then Num(CountOf(slot, s.reg))
    else if Unbootable(s, slot) then 0 else Retries(s)
  }

  /** The retries of a slot in a register filled in afresh. */
  function Fresh(s: Store, slot: bv32): nat
    requires Complete(s)
  {
    if Unbootable(s, slot) then 0 else Retries(s)
  }

  /** How many more boots do not end in recovery. */
  function Budget(s: Store, chain: bv32): nat
    requires Complete(s)
  {
    if !IsValidRootfs(s) then 0
    else if s.vars[RF_REDUNDANCY] == NVIDIA_OS_REDUNDANCY_BOOT_ONLY then Left(s, ROOTFS_SLOT_A)
    else Left(s, chain) + if Left(s, Other(chain)) > 0 then 1 + Fresh(s, Other(chain)) else 0
  }

  /** In a register filled in, a slot whose status is unbootable has no retries. */
  predicate Tidy(s: Store)
    requires Complete(s)
  {
    MagicGet(s.reg) == SR_RF_MAGIC ==>
      (Unbootable(s, ROOTFS_SLOT_A) ==> CountAGet(s.reg) == 0)
        && (Unbootable(s, ROOTFS_SLOT_B) ==> CountBGet(s.reg) == 0)
  }

  // ---------- what one boot does to the budget ----------

  lemma {:induction false} MagicOfFresh()
    ensures MagicGet(0) != SR_RF_MAGIC && CountAGet(0) == 0 && CountBGet(0) == 0
  {
  }

  lemma {:induction false} TwoBits(b: bv32)
    ensures b & 3 == 0 || b & 3 == 1 || b & 3 == 2 || b & 3 == 3
  {
  }

  lemma {:induction false} CountAIsTwoBits(reg: bv32)
    ensures CountAGet(reg) & 3 == CountAGet(reg)
  {
  }

  lemma {:induction false} CountBIsTwoBits(reg: bv32)
    ensures CountBGet(reg) & 3 == CountBGet(reg)
  {
  }

  lemma {:induction false} OneLess(b: bv32)
    requires b & 3 == b && b != 0
    ensures (b - 1) & 3 == b - 1 && Num(b - 1) == Num(b) - 1
  {
    TwoBits(b);
  }

  lemma {:induction false} ToRegGets(slot: bv32, a: bv32, b: bv32, reg: bv32)
    ensures MagicGet(ToReg(slot, a, b, reg)) == MagicGet(reg)
    ensures CountAGet(ToReg(slot, a, b, reg)) == a & 3 && CountBGet(ToReg(slot, a, b, reg)) == b & 3
  {
    hide MagicGet, SlotGet, CountAGet, CountBGet, SlotSet, CountASet, CountBSet;
    SlotSetGets(slot, reg);
    CountASetGets(a, SlotSet(slot, reg));
    CountBSetGets(b, CountASet(a, SlotSet(slot, reg)));
  }

  lemma {:induction false} SpendGets(slot: bv32, reg: bv32)
    requires CountOf(slot, reg) != 0
    ensures MagicGet(Spend(slot, reg)) == MagicGet(reg)
    ensures Num(CountOf(slot, Spend(slot, reg))) == Num(CountOf(slot, reg)) - 1
    ensures slot == ROOTFS_SLOT_A ==> CountBGet(Spend(slot, reg)) == CountBGet(reg)
    ensures slot != ROOTFS_SLOT_A ==> CountAGet(Spend(slot, reg)) == CountAGet(reg)
  {
    CountAIsTwoBits(reg);
    CountBIsTwoBits(reg);
    hide MagicGet, SlotGet, CountAGet, CountBGet, ToReg;
    OneLess(CountOf(slot, reg));
    ToRegGets(slot, CountAGet(reg) - 1, CountBGet(reg), reg);
    ToRegGets(slot, CountAGet(reg), CountBGet(reg) - 1, reg);
  }

  lemma {:induction false} ForRecoveryGets(slot: bv32, reg: bv32)
    ensures MagicGet(ForRecovery(slot, reg)) != SR_RF_MAGIC
  {
    MagicOfFresh();
    hide MagicGet, CountAGet, CountBGet, ToReg;
    ToRegGets(slot, CountAGet(reg), CountBGet(reg), 0);
  }

  lemma {:induction false} FreshRegGets(chain: bv32, a: bv32, b: bv32)
    ensures var r := CountBSet(b, CountASet(a, SlotSet(chain, MagicSet(0))));
      MagicGet(r) == SR_RF_MAGIC && CountAGet(r) == a & 3 && CountBGet(r) == b & 3
  {
    hide *;
    var r := SlotSet(chain, MagicSet(0));
    MagicSetGets(0);
    SlotSetGets(chain, MagicSet(0));
    CountASetGets(a, r);
    CountBSetGets(b, CountASet(a, r));
  }

  lemma {:induction false} NumOfChoice(none: bool, max: bv32)
    ensures Num((if none then 0 else max) & 3) == if none then 0 else Num(max & 3)
  {
  }

  lemma {:induction false} InitRegIs(s: Store, chain: bv32)
    requires Complete(s)
    ensures MagicGet(s.reg) == SR_RF_MAGIC ==> InitReg(s, chain) == s.reg
    ensures var a, b := if Unbootable(s, ROOTFS_SLOT_A) then 0
      else s.vars[RF_RETRY_MAX], if Unbootable(s, ROOTFS_SLOT_B) then 0 else s.vars[RF_RETRY_MAX];
      MagicGet(s.reg) != SR_RF_MAGIC ==> InitReg(s, chain) == CountBSet(b, CountASet(a, SlotSet(chain, MagicSet(0))))
  {
    hide MagicGet, SlotSet, CountASet, CountBSet, MagicSet, Unbootable;
  }

  lemma {:induction false} LeftIs(s: Store, slot: bv32)
    requires Complete(s)
    ensures Left(s, slot) ==
      if MagicGet(s.reg) == SR_RF_MAGIC then Num(CountOf(slot, s.reg))
      else if Unbootable(s, slot) then 0 else Num(s.vars[RF_RETRY_MAX] & 3)
  {
    hide MagicGet, Unbootable, Num, CountOf;
  }

  /** The register boots are counted in has the magic, and each slot's retries. */
  lemma {:induction false} InitRegGets(s: Store, chain: bv32)
    requires Complete(s)
    ensures MagicGet(InitReg(s, chain)) == SR_RF_MAGIC
    ensures Num(CountAGet(InitReg(s, chain))) == Left(s, ROOTFS_SLOT_A)
    ensures Num(CountBGet(InitReg(s, chain))) == Left(s, ROOTFS_SLOT_B)
  {
    hide MagicGet, CountAGet, CountBGet, SlotSet, CountASet, CountBSet, MagicSet, Unbootable, Num, InitReg, Left;
    InitRegIs(s, chain);
    LeftIs(s, ROOTFS_SLOT_A);
    LeftIs(s, ROOTFS_SLOT_B);
    var none, nonf, max := Unbootable(s, ROOTFS_SLOT_A), Unbootable(s, ROOTFS_SLOT_B), s.vars[RF_RETRY_MAX];
    NumOfChoice(none, max);
    NumOfChoice(nonf, max);
    FreshRegGets(chain, if none then 0 else max, if nonf then 0 else max);
  }

  lemma {:induction false} NumOfZero()
    ensures Num(0 & 3) == 0 && Num(0) == 0
  {
  }

  /** What a boot is to do to a store: the outcome, the budget, and the invariants. */
  ghost predicate Spends(s: Store, chain: bv32, t: Store, o: Outcome)
    requires Complete(s) && Complete(t)
  {
    && (o == Recovery <==> Budget(s, chain) == 0)
    && Budget(t, NextChain(chain, o)) == (if o == Recovery then 0 else Budget(s, chain) - 1)
    && Redundancy01(t) && Chain(NextChain(chain, o)) && Retries(t) == Retries(s)
    && (Tidy(s) ==> Tidy(t) && !SelectsUnbootable(s, o))
  }

  /** A slot is booted, or switched to, whose status is unbootable. */
  predicate SelectsUnbootable(s: Store, o: Outcome)
    requires Complete(s)
  {
    (o.Boots? && Unbootable(s, o.slot)) || (o.Resets? && Unbootable(s, o.chain))
  }

  ghost predicate Ready(s: Store, chain: bv32) {
    Complete(s) && Chain(chain) && Redundancy01(s)
  }

  // ---------- what one boot chooses and writes ----------

  /** Which slot is booted, from any store: the chain's own while it has retries, else the other by a
      reset while that has, else recovery; slot A only without redundancy; and the chain's own at a
      level the code does not know. */
  lemma {:induction false} BootChooses(s: Store, chain: bv32)
    requires Complete(s) && Chain(chain)
    ensures Boot(s, chain).1 ==
      if s.vars[RF_REDUNDANCY] == 0 then
        if !Unbootable(s, 0) && Left(s, 0) > 0 then Boots(0) else Recovery
      else if s.vars[RF_REDUNDANCY] == 1 then
        if Unbootable(s, 0) && Unbootable(s, 1) then Recovery
        else if Left(s, chain) > 0 then Boots(chain)
        else if Left(s, 1 - chain) > 0 then Resets(1 - chain)
        else Recovery
      else Boots(chain)
  {
    InitRegGets(s, chain);
    CountsAreLeft(s, chain);
    OtherIs(chain);
    hide InitReg, MagicGet, CountAGet, CountBGet, Left, Spend, ForRecovery, ToReg, Num, MarkUnbootable;
  }

  lemma {:induction false} OtherIs(chain: bv32)
    requires Chain(chain)
    ensures Other(chain) == 1 - chain
  {
  }

  /** What is written: a boot counts down the retries of its slot and notes the slot; a switch marks
      the slot it leaves, names the other to the firmware, deletes the status of the boot chain and
      clears the register; recovery marks what has run out and takes the magic away. */
  lemma {:induction false} BootWrites(s: Store, chain: bv32)
    requires Complete(s) && Chain(chain)
    ensures var (t, o) := Boot(s, chain);
      && (o.Boots? ==>
            && t.vars == s.vars && MagicGet(t.reg) == 0xFACE && SlotGet(t.reg) == o.slot
            && forall slot :: Chain(slot) ==>
                 Left(t, slot) == Left(s, slot) - if slot == o.slot && Redundancy01(s) then 1 else 0)
      && (o.Resets? ==>
            && t.reg == 0
            && t.vars == s.vars[(if chain == 0 then RF_STATUS_A else RF_STATUS_B) := 0xFF][RF_FW_NEXT := 1 - chain]
                               [RF_BC_STATUS := 0])
      && (o.Recovery? ==>
            && MagicGet(t.reg) != 0xFACE
            && t.vars == if !IsValidRootfs(s) then s.vars
                         else if s.vars[RF_REDUNDANCY] == 0 then s.vars[RF_STATUS_A := 0xFF]
                         else s.vars[RF_STATUS_A := 0xFF][RF_STATUS_B := 0xFF])
  {
    var (t, o) := Boot(s, chain);
    var reg := InitReg(s, chain);
    OtherIs(chain);
    MagicOfFresh();
    InitRegGets(s, chain);
    CountsAreLeft(s, chain);
    if o.Boots? {
      BootRegister(s, chain);
    } else {
      ForRecoveryGets(chain, reg);
      ForRecoveryGets(ROOTFS_SLOT_A, reg);
    }
    hide InitReg, MagicGet, SlotGet, CountAGet, CountBGet, Left, Spend, ForRecovery, ToReg, Num, Unbootable,
      IsValidRootfs;
  }

  /** A boot that spent, or did not, one retry of its slot. */
  ghost predicate Counted(s: Store, t: Store, slot: bv32)
    requires Complete(s) && Complete(t)
  {
    && Chain(slot) && t.vars == s.vars && MagicGet(t.reg) == 0xFACE && SlotGet(t.reg) == slot
    && forall x :: Chain(x) ==> Left(t, x) == Left(s, x) - if x == slot && Redundancy01(s) then 1 else 0
  }

  lemma {:induction false} BootRegister(s: Store, chain: bv32)
    requires Complete(s) && Chain(chain) && Boot(s, chain).1.Boots?
    ensures Counted(s, Boot(s, chain).0, Boot(s, chain).1.slot)
  {
    var (t, o) := Boot(s, chain);
    var reg := InitReg(s, chain);
    hide InitReg, Spend, MagicGet, CountAGet, CountBGet, ToReg, IsValidRootfs, Counted, ForRecovery, MarkUnbootable;
    if Redundancy01(s) {
      SpentRegister(s, chain, o.slot);
    } else {
      KeptRegister(s, chain);
    }
  }

  lemma {:induction false} SpentRegister(s: Store, chain: bv32, slot: bv32)
    requires Complete(s) && Chain(slot) && CountOf(slot, InitReg(s, chain)) != 0 && Redundancy01(s)
    ensures Counted(s, s.(reg := Spend(slot, InitReg(s, chain))), slot)
  {
    var reg := InitReg(s, chain);
    var t := s.(reg := Spend(slot, reg));
    InitRegGets(s, chain);
    SpendGets(slot, reg);
    SpendSlotField(slot, reg);
    LeftIs(t, ROOTFS_SLOT_A);
    LeftIs(t, ROOTFS_SLOT_B);
    hide InitReg, Left, Spend, MagicGet, SlotGet, CountAGet, CountBGet, Num;
  }

  lemma {:induction false} KeptRegister(s: Store, chain: bv32)
    requires Complete(s) && Chain(chain) && !Redundancy01(s)
    ensures var reg := InitReg(s, chain);
      Counted(s, s.(reg := ToReg(chain, CountAGet(reg), CountBGet(reg), reg)), chain)
  {
    var reg := InitReg(s, chain);
    var t := s.(reg := ToReg(chain, CountAGet(reg), CountBGet(reg), reg));
    InitRegGets(s, chain);
    ToRegGets(chain, CountAGet(reg), CountBGet(reg), reg);
    ToRegSlot(chain, CountAGet(reg), CountBGet(reg), reg);
    CountAIsTwoBits(reg);
    CountBIsTwoBits(reg);
    LeftIs(t, ROOTFS_SLOT_A);
    LeftIs(t, ROOTFS_SLOT_B);
    hide InitReg, Left, ToReg, MagicGet, SlotGet, CountAGet, CountBGet, Num;
  }

  lemma {:induction false} SpendSlotField(slot: bv32, reg: bv32)
    requires Chain(slot)
    ensures SlotGet(Spend(slot, reg)) == slot
  {
    hide SlotGet, ToReg, CountAGet, CountBGet;
    ToRegSlot(slot, CountAGet(reg) - 1, CountBGet(reg), reg);
    ToRegSlot(slot, CountAGet(reg), CountBGet(reg) - 1, reg);
  }

  lemma {:induction false} ToRegSlot(slot: bv32, a: bv32, b: bv32, reg: bv32)
    requires Chain(slot)
    ensures SlotGet(ToReg(slot, a, b, reg)) == slot
  {
    SlotBits(slot);
    hide MagicGet, SlotGet, CountAGet, CountBGet, SlotSet, CountASet, CountBSet;
    SlotSetGets(slot, reg);
    CountASetGets(a, SlotSet(slot, reg));
    CountBSetGets(b, CountASet(a, SlotSet(slot, reg)));
  }

  lemma {:induction false} SlotBits(slot: bv32)
    requires Chain(slot)
    ensures slot & 3 == slot
  {
  }

  lemma {:induction false} SpendInvalid(s: Store, chain: bv32)
    requires Ready(s, chain) && !IsValidRootfs(s)
    ensures Spends(s, chain, s.(reg := 0), Recovery)
  {
    MagicOfFresh();
    hide MagicGet, CountAGet, CountBGet, Num;
  }

  /** Counts in a register that is filled in, seen from the store it came from. */
  lemma {:induction false} TidyReg(s: Store, chain: bv32)
    requires Ready(s, chain)
    ensures var reg := InitReg(s, chain);
      && MagicGet(reg) == SR_RF_MAGIC
      && (Tidy(s) && Unbootable(s, ROOTFS_SLOT_A) ==> CountAGet(reg) == 0)
      && (Tidy(s) && Unbootable(s, ROOTFS_SLOT_B) ==> CountBGet(reg) == 0)
      && Left(s, ROOTFS_SLOT_A) == Num(CountAGet(reg)) && Left(s, ROOTFS_SLOT_B) == Num(CountBGet(reg))
      && (forall t: Store :: Complete(t) && t.reg == reg ==>
            Left(t, ROOTFS_SLOT_A) == Num(CountAGet(reg)) && Left(t, ROOTFS_SLOT_B) == Num(CountBGet(reg)))
  {
    InitRegGets(s, chain);
    hide MagicGet, CountAGet, CountBGet, InitReg;
  }

  /** Booting a slot that has retries. */
  lemma {:induction false} SpendSlot(s: Store, chain: bv32, slot: bv32)
    requires Ready(s, chain) && IsValidRootfs(s) && CountOf(slot, InitReg(s, chain)) != 0
    requires slot == if s.vars[RF_REDUNDANCY] == NVIDIA_OS_REDUNDANCY_BOOT_ONLY then ROOTFS_SLOT_A else chain
    ensures Spends(s, chain, s.(reg := Spend(slot, InitReg(s, chain))), Boots(slot))
  {
    TidyReg(s, chain);
    SpendGets(slot, InitReg(s, chain));
    hide MagicGet, CountAGet, CountBGet, InitReg, Spend, Num;
  }

  /** The last slot has no retries either. */
  lemma {:induction false} SpendNothing(s: Store, chain: bv32)
    requires Ready(s, chain) && IsValidRootfs(s)
    requires CountOf(chain, InitReg(s, chain)) == 0 == CountOf(Other(chain), InitReg(s, chain))
    requires s.vars[RF_REDUNDANCY] != NVIDIA_OS_REDUNDANCY_BOOT_ONLY
    ensures Spends(s, chain,
                   MarkUnbootable(MarkUnbootable(s, chain), Other(chain)).(reg :=
                       ForRecovery(chain, InitReg(s, chain))), Recovery)
  {
    TidyReg(s, chain);
    NumOfZero();
    ForRecoveryGets(chain, InitReg(s, chain));
    hide MagicGet, CountAGet, CountBGet, InitReg, ForRecovery, Num;
  }

  lemma {:induction false} SpendNothingA(s: Store, chain: bv32)
    requires Ready(s, chain) && IsValidRootfs(s) && CountAGet(InitReg(s, chain)) == 0
    requires s.vars[RF_REDUNDANCY] == NVIDIA_OS_REDUNDANCY_BOOT_ONLY
    ensures Spends(s, chain, MarkUnbootable(s, ROOTFS_SLOT_A).(reg := ForRecovery(ROOTFS_SLOT_A, InitReg(s, chain))),
                   Recovery)
  {
    TidyReg(s, chain);
    NumOfZero();
    ForRecoveryGets(ROOTFS_SLOT_A, InitReg(s, chain));
    hide MagicGet, CountAGet, CountBGet, InitReg, ForRecovery, Num;
  }

  /** Switching to the other slot, which starts again with all its retries. */
  lemma {:induction false} SpendSwitch(s: Store, chain: bv32)
    requires Ready(s, chain) && IsValidRootfs(s)
    requires CountOf(chain, InitReg(s, chain)) == 0 != CountOf(Other(chain), InitReg(s, chain))
    requires s.vars[RF_REDUNDANCY] != NVIDIA_OS_REDUNDANCY_BOOT_ONLY
    ensures Spends(s, chain, Store(MarkUnbootable(s, chain).vars[RF_FW_NEXT := Other(chain)][RF_BC_STATUS := 0], 0),
                   Resets(Other(chain)))
  {
    TidyReg(s, chain);
    NumOfZero();
    MagicOfFresh();
    hide MagicGet, CountAGet, CountBGet, InitReg, Num;
  }

  /** A boot ends in recovery exactly when the budget is spent, and otherwise takes one off it. From
      a register in which unbootable slots have no retries it leaves such a register, and boots or
      switches to no slot whose status is unbootable. */
  lemma {:induction false} BootSpends(s: Store, chain: bv32)
    requires Ready(s, chain)
    ensures Spends(s, chain, Boot(s, chain).0, Boot(s, chain).1)
  {
    var reg := InitReg(s, chain);
    hide Spends, Spend, ForRecovery, InitReg, MagicGet, CountAGet, CountBGet, IsValidRootfs, MarkUnbootable;
    if !IsValidRootfs(s) {
      SpendInvalid(s, chain);
    } else if s.vars[RF_REDUNDANCY] == NVIDIA_OS_REDUNDANCY_BOOT_ONLY {
      if CountAGet(reg) != 0 {
        SpendSlot(s, chain, ROOTFS_SLOT_A);
      } else {
        SpendNothingA(s, chain);
      }
    } else if CountOf(chain, reg) != 0 {
      SpendSlot(s, chain, chain);
    } else if CountOf(Other(chain), reg) != 0 {
      SpendSwitch(s, chain);
    } else {
      SpendNothing(s, chain);
    }
  }

  // ---------- recovery is reached, and stays ----------

  lemma {:induction false} AfterKeeps(s: Store, chain: bv32, n: nat)
    requires Ready(s, chain)
    ensures var (t, c) := After(s, chain, n);
      && Ready(t, c) && Retries(t) == Retries(s) && (Tidy(s) ==> Tidy(t))
      && Budget(t, c) == (if n < Budget(s, chain) then Budget(s, chain) - n else 0)
  {
    hide Boot, Budget, Tidy, Redundancy01, Retries, Unbootable;
    if n > 0 {
      AfterKeeps(s, chain, n - 1);
      var (t, c) := After(s, chain, n - 1);
      BootSpends(t, c);
      SpendsMeans(t, c, Boot(t, c).0, Boot(t, c).1);
    }
  }

  lemma {:induction false} SpendsMeans(s: Store, chain: bv32, t: Store, o: Outcome)
    requires Complete(s) && Complete(t) && Spends(s, chain, t, o)
    ensures Ready(t, NextChain(chain, o)) && Retries(t) == Retries(s)
    ensures Tidy(s) ==> Tidy(t) && !SelectsUnbootable(s, o)
    ensures o == Recovery <==> Budget(s, chain) == 0
    ensures Budget(t, NextChain(chain, o)) == (if o == Recovery then 0 else Budget(s, chain) - 1)
  {
    hide Budget, Tidy, Redundancy01, Retries, Unbootable;
  }

  /** Boot number n, counted from zero, ends in recovery exactly when n has reached the budget:
      from then on every boot does, and none before. */
  lemma {:induction false} RecoveryFromThenOn(s: Store, chain: bv32, n: nat)
    requires Ready(s, chain)
    ensures OutcomeOf(s, chain, n) == Recovery <==> n >= Budget(s, chain)
  {
    hide Boot, Budget, Tidy, Redundancy01, Retries, Unbootable;
    AfterKeeps(s, chain, n);
    var (t, c) := After(s, chain, n);
    BootSpends(t, c);
    hide After;
    SpendsMeans(t, c, Boot(t, c).0, Boot(t, c).1);
  }

  /** From a cleared register, with r retries for a slot, the boots numbered 2r + 1 and up all end
      in recovery: it is chosen within 2r + 2 boots, and stays chosen. */
  lemma {:induction false} RecoveryWithin(s: Store, chain: bv32, n: nat)
    requires Complete(s) && Chain(chain) && Redundancy01(s) && MagicGet(s.reg) != SR_RF_MAGIC
    requires n >= 2 * Retries(s) + 1
    ensures OutcomeOf(s, chain, n) == Recovery
  {
    assert Ready(s, chain) && Budget(s, chain) <= 2 * Retries(s) + 1 by {
      hide MagicGet, CountAGet, CountBGet, Num;
    }
    hide *;
    RecoveryFromThenOn(s, chain, n);
  }

  /** From a register in which unbootable slots have no retries, such as a cleared one, no slot is
      booted or switched to over the whole series whose status is unbootable then. */
  lemma {:induction false} NoUnbootableSlot(s: Store, chain: bv32, n: nat)
    requires Ready(s, chain) && Tidy(s)
    ensures !SelectsUnbootable(After(s, chain, n).0, OutcomeOf(s, chain, n))
  {
    hide Boot, Budget, Tidy, Redundancy01, Retries, Unbootable, SelectsUnbootable;
    AfterKeeps(s, chain, n);
    var (t, c) := After(s, chain, n);
    BootSpends(t, c);
    SpendsMeans(t, c, Boot(t, c).0, Boot(t, c).1);
  }

  /** One boot, from any store, selects a slot whose status is unbootable exactly when the register
      has retries for it that it should not have, the other slot is not unbootable too, and it is
      its turn; or when the redundancy level is none the code knows and the chain's own slot is. */
  lemma {:induction false} UnbootableSelected(s: Store, chain: bv32)
    requires Complete(s) && Chain(chain)
    ensures SelectsUnbootable(s, Boot(s, chain).1) <==>
      if s.vars[RF_REDUNDANCY] == NVIDIA_OS_REDUNDANCY_BOOT_ONLY then false
      else if s.vars[RF_REDUNDANCY] == NVIDIA_OS_REDUNDANCY_BOOT_ROOTFS then
        var other := Other(chain);
        || (Left(s, chain) > 0 && Unbootable(s, chain) && !Unbootable(s, other))
        || (Left(s, chain) == 0 && Left(s, other) > 0 && Unbootable(s, other) && !Unbootable(s, chain))
      else Unbootable(s, chain)
  {
    InitRegGets(s, chain);
    CountsAreLeft(s, chain);
    hide InitReg, MagicGet, CountAGet, CountBGet, Left, Spend, ForRecovery, ToReg, Num, MarkUnbootable;
  }

  lemma {:induction false} CountsAreLeft(s: Store, chain: bv32)
    requires Complete(s)
    ensures CountAGet(InitReg(s, chain)) == 0 <==> Left(s, ROOTFS_SLOT_A) == 0
    ensures CountBGet(InitReg(s, chain)) == 0 <==> Left(s, ROOTFS_SLOT_B) == 0
  {
    InitRegGets(s, chain);
    hide InitReg, MagicGet, CountAGet, CountBGet, Left;
  }

  // ---------- the launcher's code ----------

  datatype RfVariable = RfVariable(value: bv32, updateFlag: bool)

  datatype Status = Success | InvalidParameter

  /** mRootfsInfo, with the variables and the register it is read from and written to. */
  class RootfsInfo {
    const rootfsVar: array<RfVariable>
    var retryCountSlotA: bv32
    var retryCountSlotB: bv32
    var currentSlot: bv32
    var variables: seq<bv32>
    var register: bv32

    ghost predicate Valid()
      reads this
    {
      rootfsVar.Length == RF_VARIABLE_INDEX_MAX && |variables| == RF_VARIABLE_INDEX_MAX
    }

    ghost function Stored(): Store
      reads this`variables, this`register
    {
      Store(variables, register)
    }

    /** The values of mRootfsInfo.RootfsVar. */
    ghost function Values(): seq<bv32>
      reads this, rootfsVar
    {
      seq(rootfsVar.Length, i requires 0 <= i < rootfsVar.Length reads rootfsVar => rootfsVar[i].value)
    }

    ghost predicate NoUpdates()
      reads this, rootfsVar
    {
      forall i :: 0 <= i < rootfsVar.Length ==> !rootfsVar[i].updateFlag
    }

    method ReadVariables()
      requires Valid() && NoUpdates()
      modifies rootfsVar
      ensures Values() == variables && NoUpdates()
    {
      var i := 0;
      while i < RF_VARIABLE_INDEX_MAX
        invariant i <= RF_VARIABLE_INDEX_MAX && NoUpdates()
        invariant forall j :: 0 <= j < i ==> rootfsVar[j].value == variables[j]
      {
        rootfsVar[i] := rootfsVar[i].(value := variables[i]);
        i := i + 1;
      }
    }

    method SetStatusTomRootfsInfo(slot: bv32, status: bv32) returns (result: Status)
      requires Valid()
      modifies rootfsVar
      ensures result == if slot > ROOTFS_SLOT_B then InvalidParameter else Success
      ensures rootfsVar[..] ==
        if result == Success then old(rootfsVar[..])[StatusOf(slot) := RfVariable(status, true)] else old(rootfsVar[..])
    {
      if slot > ROOTFS_SLOT_B {
        return InvalidParameter;
      }
      result := Success;
      var k := StatusOf(slot);
      rootfsVar[k] := RfVariable(status, true);
    }

    /** Writes back the variables flagged. */
    method CheckAndUpdateVariable()
      requires Valid()
      modifies this`variables
      ensures variables == Updated(old(variables), rootfsVar[..])
    {
      var i := 0;
      while i < RF_VARIABLE_INDEX_MAX
        invariant i <= RF_VARIABLE_INDEX_MAX == |variables|
        invariant forall j :: 0 <= j < RF_VARIABLE_INDEX_MAX ==>
          variables[j] == if j < i && rootfsVar[j].updateFlag then rootfsVar[j].value else old(variables[j])
      {
        if rootfsVar[i].updateFlag {
          variables := variables[i := rootfsVar[i].value];
        }
        i := i + 1;
      }
    }

    method InitializeRootfsStatusReg(slot: bv32) returns (reg: bv32)
      requires Valid() && Values() == variables
      modifies this`register
      ensures reg == register == InitReg(old(Stored()), slot)
    {
      hide MagicGet, MagicSet, SlotSet, CountASet, CountBSet;
      reg := register;
      if MagicGet(reg) == SR_RF_MAGIC {
        return;
      }
      assert forall i :: 0 <= i < RF_VARIABLE_INDEX_MAX ==> rootfsVar[i].value == variables[i] by {
        assert forall i :: 0 <= i < RF_VARIABLE_INDEX_MAX ==> rootfsVar[i].value == Values()[i];
      }
      reg := 0;
      reg := MagicSet(reg);
      reg := SlotSet(slot, reg);
      var max := rootfsVar[RF_RETRY_MAX].value;
      reg := CountASet(if rootfsVar[RF_STATUS_A].value == NVIDIA_OS_STATUS_UNBOOTABLE then 0 else max, reg);
      reg := CountBSet(if rootfsVar[RF_STATUS_B].value == NVIDIA_OS_STATUS_UNBOOTABLE then 0 else max, reg);
      register := reg;
    }

    method SyncFromReg(reg: bv32)
      modifies this`currentSlot, this`retryCountSlotA, this`retryCountSlotB
      ensures currentSlot == SlotGet(reg) && retryCountSlotA == CountAGet(reg) && retryCountSlotB == CountBGet(reg)
    {
      currentSlot := SlotGet(reg);
      retryCountSlotA := CountAGet(reg);
      retryCountSlotB := CountBGet(reg);
    }

    method IsRootfsSlotBootable(slot: bv32) returns (bootable: bool)
      ensures bootable ==
        (slot <= ROOTFS_SLOT_B && (if slot == ROOTFS_SLOT_A then retryCountSlotA else retryCountSlotB) != 0)
    {
      if slot > ROOTFS_SLOT_B {
        return false;
      }
      bootable := (if slot == ROOTFS_SLOT_A then retryCountSlotA else retryCountSlotB) != 0;
    }

    /** Refuses a slot there is not, and one without retries. */
    method DecreaseRootfsRetryCount(slot: bv32) returns (result: Status)
      modifies this`retryCountSlotA, this`retryCountSlotB
      ensures result == if slot <= ROOTFS_SLOT_B
        && old(if slot == ROOTFS_SLOT_A then retryCountSlotA else retryCountSlotB) != 0
                        then Success else InvalidParameter
      ensures retryCountSlotA ==
        if result == Success && slot == ROOTFS_SLOT_A then old(retryCountSlotA) - 1 else old(retryCountSlotA)
      ensures retryCountSlotB ==
        if result == Success && slot != ROOTFS_SLOT_A then old(retryCountSlotB) - 1 else old(retryCountSlotB)
    {
      if slot > ROOTFS_SLOT_B {
        return InvalidParameter;
      }
      if slot == ROOTFS_SLOT_A {
        if retryCountSlotA == 0 {
          return InvalidParameter;
        }
        retryCountSlotA := retryCountSlotA - 1;
      } else {
        if retryCountSlotB == 0 {
          return InvalidParameter;
        }
        retryCountSlotB := retryCountSlotB - 1;
      }
      return Success;
    }

    /** The choice for one boot, with the flags of the variables clear as they are when the
        launcher starts. reset tells that the system is reset to switch the boot chain. */
    method ValidateRootfsStatus(bootMode: bv32, bootChain: bv32)
      returns (status: Status, mode: bv32, chain: bv32, reset: bool)
      requires Valid() && NoUpdates()
      modifies this`register, this`currentSlot, this`retryCountSlotA, this`retryCountSlotB, this`variables, rootfsVar
      ensures bootMode == NVIDIA_L4T_BOOTMODE_RECOVERY ==>
        status == Success && mode == bootMode && !reset && Stored() == old(Stored())
      ensures bootMode != NVIDIA_L4T_BOOTMODE_RECOVERY && !Chain(bootChain) ==>
        status == InvalidParameter && mode == bootMode && !reset && Stored() == old(Stored())
      ensures bootMode != NVIDIA_L4T_BOOTMODE_RECOVERY && Chain(bootChain) ==>
        && status == Success && Complete(old(Stored()))
        && var (s, o) := Boot(old(Stored()), bootChain);
        && Stored() == s
        && (mode == NVIDIA_L4T_BOOTMODE_RECOVERY <==> o == Recovery) && (o != Recovery ==> mode == bootMode)
        && (reset <==> o.Resets?)
        && (o.Boots? ==> chain == o.slot) && (o.Resets? ==> chain == o.chain)
    {
      status, mode, chain, reset := Success, bootMode, bootChain, false;
      if bootMode == NVIDIA_L4T_BOOTMODE_RECOVERY {
        return;
      }
      if bootChain > ROOTFS_SLOT_B {
        status := InvalidParameter;
        return;
      }
      ghost var was := Stored();
      ReadVariables();
      var reg := InitializeRootfsStatusReg(bootChain);
      SyncFromReg(reg);
      currentSlot := bootChain;
      ValuesAre();
      assert Complete(was) && Chain(bootChain) && was.vars == variables;
      assert Unflagged(rootfsVar[..], was.vars);
      hide *;
      mode, chain, reset := ChooseAndCommit(bootMode, reg, was);
    }

    /** What follows once mRootfsInfo is filled in. was is the store the boot started with. */
    method ChooseAndCommit(bootMode: bv32, initial: bv32, ghost was: Store)
      returns (mode: bv32, chain: bv32, reset: bool)
      requires Valid() && Chain(currentSlot) && bootMode != NVIDIA_L4T_BOOTMODE_RECOVERY
      requires Complete(was) && was.vars == variables && Unflagged(rootfsVar[..], was.vars)
      requires initial == InitReg(was, currentSlot)
      requires retryCountSlotA == CountAGet(initial) && retryCountSlotB == CountBGet(initial)
      modifies this`register, this`currentSlot, this`retryCountSlotA, this`retryCountSlotB, this`variables, rootfsVar
      ensures var (s, o) := Boot(was, old(currentSlot));
        && Stored() == s
        && (mode == NVIDIA_L4T_BOOTMODE_RECOVERY <==> o == Recovery) && (o != Recovery ==> mode == bootMode)
        && (reset <==> o.Resets?)
        && (o.Boots? ==> chain == o.slot) && (o.Resets? ==> chain == o.chain)
    {
      BootInvalid(was, currentSlot);
      StoredIs();
      ghost var start := currentSlot;
      hide *;
      mode, chain, reset := bootMode, currentSlot, false;
      var valid := HasValidRootfs(was);
      if !valid {
        mode := NVIDIA_L4T_BOOTMODE_RECOVERY;
        register := 0;
        StoredIs();
        return;
      }
      var reg;
      mode, reg := Choose(mode, initial, was);
      chain := currentSlot;
      ghost var slot, a, b := currentSlot, retryCountSlotA, retryCountSlotB;
      AgreedMeans(was, start, bootMode, mode, slot, a, b, reg, rootfsVar[..]);
      reset := Commit(reg);
      StoredIs();
    }

    lemma {:induction false} StoredIs()
      ensures Stored() == Store(variables, register)
    {
    }

    lemma {:induction false} ValuesAre()
      requires Valid() && Values() == variables
      ensures forall i :: 0 <= i < RF_VARIABLE_INDEX_MAX ==> rootfsVar[i].value == variables[i]
    {
      assert forall i :: 0 <= i < RF_VARIABLE_INDEX_MAX ==> rootfsVar[i].value == Values()[i];
    }

    method HasValidRootfs(ghost was: Store) returns (valid: bool)
      requires Valid() && Complete(was) && Unflagged(rootfsVar[..], was.vars)
      ensures valid == IsValidRootfs(was)
    {
      assert forall i :: 0 <= i < RF_VARIABLE_INDEX_MAX ==> rootfsVar[i] == rootfsVar[..][i];
      valid := true;
      if rootfsVar[RF_REDUNDANCY].value == NVIDIA_OS_REDUNDANCY_BOOT_ONLY
        && rootfsVar[RF_STATUS_A].value == NVIDIA_OS_STATUS_UNBOOTABLE {
        valid := false;
      }
      if rootfsVar[RF_REDUNDANCY].value == NVIDIA_OS_REDUNDANCY_BOOT_ROOTFS
        && rootfsVar[RF_STATUS_A].value == NVIDIA_OS_STATUS_UNBOOTABLE
         && rootfsVar[RF_STATUS_B].value == NVIDIA_OS_STATUS_UNBOOTABLE {
        valid := false;
      }
    }

    /** Writes register and variables, and asks for a reset when the chain is to change. */
    method Commit(reg: bv32) returns (reset: bool)
      requires Valid()
      modifies this`register, this`variables
      ensures reset == rootfsVar[RF_FW_NEXT].updateFlag
      ensures register == if reset then 0 else ToReg(currentSlot, retryCountSlotA, retryCountSlotB, reg)
      ensures var vs := Updated(old(variables), rootfsVar[..]); variables == if reset then vs[RF_BC_STATUS := 0] else vs
    {
      hide SlotSet, CountASet, CountBSet;
      var r := SlotSet(currentSlot, reg);
      r := CountASet(retryCountSlotA, r);
      r := CountBSet(retryCountSlotB, r);
      register := r;
      CheckAndUpdateVariable();
      reset := rootfsVar[RF_FW_NEXT].updateFlag;
      if reset {
        register := 0;
        variables := variables[RF_BC_STATUS := 0];
      }
    }

    /** The switch over the redundancy level. was is the store the boot started with. */
    method Choose(mode: bv32, reg: bv32, ghost was: Store) returns (mode': bv32, reg': bv32)
      requires Valid() && Chain(currentSlot) && mode != NVIDIA_L4T_BOOTMODE_RECOVERY
      requires Complete(was) && Unflagged(rootfsVar[..], was.vars) && IsValidRootfs(was)
      requires reg == InitReg(was, currentSlot)
      requires retryCountSlotA == CountAGet(reg) && retryCountSlotB == CountBGet(reg)
      modifies this`currentSlot, this`retryCountSlotA, this`retryCountSlotB, rootfsVar
      ensures Agreed(was, old(currentSlot), mode, mode', currentSlot, retryCountSlotA, retryCountSlotB, reg',
                     rootfsVar[..])
    {
      assert rootfsVar.Length == RF_VARIABLE_INDEX_MAX == |was.vars|;
      UnflaggedMeans(rootfsVar[..], was.vars);
      hide *;
      if rootfsVar[RF_REDUNDANCY].value == NVIDIA_OS_REDUNDANCY_BOOT_ONLY {
        mode', reg' := ChooseA(mode, reg, was);
      } else if rootfsVar[RF_REDUNDANCY].value == NVIDIA_OS_REDUNDANCY_BOOT_ROOTFS {
        mode', reg' := ChooseChain(mode, reg, was);
      } else {
        mode', reg' := mode, reg;
        AgreeOther(was, currentSlot, mode, rootfsVar[..]);
      }
    }

    /** Without a second root file system: slot A while it has retries, and else recovery. */
    method ChooseA(mode: bv32, reg: bv32, ghost was: Store) returns (mode': bv32, reg': bv32)
      requires Valid() && mode != NVIDIA_L4T_BOOTMODE_RECOVERY
      requires Complete(was) && Unflagged(rootfsVar[..], was.vars) && IsValidRootfs(was)
      requires was.vars[RF_REDUNDANCY] == NVIDIA_OS_REDUNDANCY_BOOT_ONLY
      requires reg == InitReg(was, currentSlot)
      requires retryCountSlotA == CountAGet(reg) && retryCountSlotB == CountBGet(reg)
      modifies this`currentSlot, this`retryCountSlotA, this`retryCountSlotB, rootfsVar
      ensures Agreed(was, old(currentSlot), mode, mode', currentSlot, retryCountSlotA, retryCountSlotB, reg',
                     rootfsVar[..])
    {
      assert |was.vars| == RF_VARIABLE_INDEX_MAX;
      ghost var chain, info := currentSlot, rootfsVar[..];
      CountOfIs(ROOTFS_SLOT_A, reg);
      assert StatusOf(ROOTFS_SLOT_A) == RF_STATUS_A;
      hide *;
      var result;
      mode', reg' := mode, reg;
      currentSlot := ROOTFS_SLOT_A;
      var bootable := IsRootfsSlotBootable(currentSlot);
      if bootable {
        AgreeSpend(was, chain, mode, ROOTFS_SLOT_A, info);
        result := DecreaseRootfsRetryCount(currentSlot);
      } else {
        AgreeNothingA(was, chain, mode, info);
        mode' := NVIDIA_L4T_BOOTMODE_RECOVERY;
        result := SetStatusTomRootfsInfo(currentSlot, NVIDIA_OS_STATUS_UNBOOTABLE);
        reg' := 0;
      }
    }

    /** With two root file systems: the current slot while it has retries. */
    method ChooseChain(mode: bv32, reg: bv32, ghost was: Store) returns (mode': bv32, reg': bv32)
      requires Valid() && Chain(currentSlot) && mode != NVIDIA_L4T_BOOTMODE_RECOVERY
      requires Complete(was) && Unflagged(rootfsVar[..], was.vars) && IsValidRootfs(was)
      requires was.vars[RF_REDUNDANCY] == NVIDIA_OS_REDUNDANCY_BOOT_ROOTFS
      requires reg == InitReg(was, currentSlot)
      requires retryCountSlotA == CountAGet(reg) && retryCountSlotB == CountBGet(reg)
      modifies this`currentSlot, this`retryCountSlotA, this`retryCountSlotB, rootfsVar
      ensures Agreed(was, old(currentSlot), mode, mode', currentSlot, retryCountSlotA, retryCountSlotB, reg',
                     rootfsVar[..])
    {
      assert |was.vars| == RF_VARIABLE_INDEX_MAX;
      ghost var chain, info := currentSlot, rootfsVar[..];
      CountOfIs(chain, reg);
      CountOfIs(Other(chain), reg);
      assert chain <= ROOTFS_SLOT_B;
      hide *;
      var result;
      mode', reg' := mode, reg;
      var bootable := IsRootfsSlotBootable(currentSlot);
      if bootable {
        AgreeSpend(was, chain, mode, chain, info);
        result := DecreaseRootfsRetryCount(currentSlot);
      } else {
        mode', reg' := CheckNonCurrent(mode, reg);
        if CountOf(Other(chain), reg) != 0 {
          AgreeSwitch(was, chain, mode, info, retryCountSlotA, retryCountSlotB);
        } else {
          AgreeNothing(was, chain, mode, info);
        }
      }
    }

    /** The current slot has no retries left: the other one, if it has, and else recovery. */
    method CheckNonCurrent(mode: bv32, reg: bv32) returns (mode': bv32, reg': bv32)
      requires Valid() && Chain(currentSlot)
      modifies this`currentSlot, this`retryCountSlotA, this`retryCountSlotB, rootfsVar
      ensures var cur, other := old(currentSlot), Other(old(currentSlot));
        var info := old(rootfsVar[..])[StatusOf(cur) := RfVariable(NVIDIA_OS_STATUS_UNBOOTABLE, true)];
        if (if other == ROOTFS_SLOT_A then old(retryCountSlotA) else old(retryCountSlotB)) != 0
        then mode' == mode && reg' == reg && currentSlot == other
          && rootfsVar[..] == info[RF_FW_NEXT := RfVariable(other, true)]
        else mode' == NVIDIA_L4T_BOOTMODE_RECOVERY && reg' == 0 && currentSlot == cur
             && retryCountSlotA == old(retryCountSlotA) && retryCountSlotB == old(retryCountSlotB)
             && rootfsVar[..] == info[StatusOf(other) := RfVariable(NVIDIA_OS_STATUS_UNBOOTABLE, true)]
    {
      mode', reg' := mode, reg;
      var result := SetStatusTomRootfsInfo(currentSlot, NVIDIA_OS_STATUS_UNBOOTABLE);
      var nonCurrent := Other(currentSlot);
      var bootable := IsRootfsSlotBootable(nonCurrent);
      if bootable {
        currentSlot := nonCurrent;
        result := DecreaseRootfsRetryCount(nonCurrent);
        rootfsVar[RF_FW_NEXT] := RfVariable(nonCurrent, true);
      } else {
        mode' := NVIDIA_L4T_BOOTMODE_RECOVERY;
        result := SetStatusTomRootfsInfo(nonCurrent, NVIDIA_OS_STATUS_UNBOOTABLE);
        reg' := 0;
      }
    }
  }

  function StatusOf(slot: bv32): (k: nat)
    ensures k < RF_VARIABLE_INDEX_MAX
  {
    if slot == ROOTFS_SLOT_A then RF_STATUS_A else RF_STATUS_B
  }

  predicate Unflagged(info: seq<RfVariable>, vars: seq<bv32>) {
    |info| == |vars| == RF_VARIABLE_INDEX_MAX && forall i :: 0 <= i < |vars| ==> info[i] == RfVariable(vars[i], false)
  }

  lemma {:induction false} UnflaggedMeans(info: seq<RfVariable>, vars: seq<bv32>)
    requires Unflagged(info, vars)
    ensures |info| == RF_VARIABLE_INDEX_MAX && |vars| == RF_VARIABLE_INDEX_MAX
    ensures info[RF_REDUNDANCY].value == vars[RF_REDUNDANCY]
  {
  }

  lemma {:induction false} CountOfIs(slot: bv32, reg: bv32)
    ensures CountOf(slot, reg) == if slot == ROOTFS_SLOT_A then CountAGet(reg) else CountBGet(reg)
  {
  }

  /** What has been chosen, once it is written back, is what Boot says. */
  ghost predicate Agreed(was: Store, chain: bv32, mode: bv32, mode': bv32, cur: bv32, a: bv32, b: bv32, reg: bv32,
                         info: seq<RfVariable>) {
    && Complete(was) && |info| == RF_VARIABLE_INDEX_MAX
    && var (t, o) := Boot(was, chain);
    && (mode' == NVIDIA_L4T_BOOTMODE_RECOVERY <==> o == Recovery) && (o != Recovery ==> mode' == mode)
    && info[RF_FW_NEXT].updateFlag == o.Resets?
    && t.reg == (if o.Resets? then 0 else ToReg(cur, a, b, reg))
    && t.vars == (var vs := Updated(was.vars, info); if o.Resets? then vs[RF_BC_STATUS := 0] else vs)
    && (o.Boots? ==> cur == o.slot) && (o.Resets? ==> cur == o.chain)
  }

  lemma {:induction false} AgreedMeans(was: Store, chain: bv32, mode: bv32, mode': bv32, cur: bv32, a: bv32, b: bv32,
                                       reg: bv32, info: seq<RfVariable>)
    requires Agreed(was, chain, mode, mode', cur, a, b, reg, info)
    ensures |was.vars| == |info| == RF_VARIABLE_INDEX_MAX
    ensures var (t, o) := Boot(was, chain);
      && (mode' == NVIDIA_L4T_BOOTMODE_RECOVERY <==> o == Recovery) && (o != Recovery ==> mode' == mode)
      && info[RF_FW_NEXT].updateFlag == o.Resets?
      && t == Store(var vs := Updated(was.vars, info); if o.Resets? then vs[RF_BC_STATUS := 0] else vs,
                    if o.Resets? then 0 else ToReg(cur, a, b, reg))
      && (o.Boots? ==> cur == o.slot) && (o.Resets? ==> cur == o.chain)
  {
    hide Boot, Updated, ToReg;
  }

  lemma {:induction false} AgreeSpend(was: Store, chain: bv32, mode: bv32, slot: bv32, info: seq<RfVariable>)
    requires Complete(was) && Unflagged(info, was.vars) && IsValidRootfs(was) && mode != NVIDIA_L4T_BOOTMODE_RECOVERY
    requires (was.vars[RF_REDUNDANCY] == NVIDIA_OS_REDUNDANCY_BOOT_ONLY && slot == ROOTFS_SLOT_A)
          || (was.vars[RF_REDUNDANCY] == NVIDIA_OS_REDUNDANCY_BOOT_ROOTFS && slot == chain)
    ensures var reg := InitReg(was, chain);
      var a, b := CountAGet(reg), CountBGet(reg);
      CountOf(slot, reg) != 0 ==>
        Agreed(was, chain, mode, mode, slot, if slot == ROOTFS_SLOT_A then a - 1
               else a, if slot == ROOTFS_SLOT_A then b else b - 1, reg, info)
  {
    hide InitReg, CountAGet, CountBGet, ToReg, IsValidRootfs;
    assert Updated(was.vars, info) == was.vars;
  }

  lemma {:induction false} AgreeNothingA(was: Store, chain: bv32, mode: bv32, info: seq<RfVariable>)
    requires Complete(was) && Unflagged(info, was.vars) && IsValidRootfs(was)
    requires was.vars[RF_REDUNDANCY] == NVIDIA_OS_REDUNDANCY_BOOT_ONLY
    ensures var reg := InitReg(was, chain);
      CountAGet(reg) == 0 ==>
        Agreed(was, chain, mode, NVIDIA_L4T_BOOTMODE_RECOVERY, ROOTFS_SLOT_A, CountAGet(reg), CountBGet(reg), 0,
               info[RF_STATUS_A := RfVariable(NVIDIA_OS_STATUS_UNBOOTABLE, true)])
  {
    hide InitReg, CountAGet, CountBGet, ToReg, IsValidRootfs;
    assert Updated(was.vars, info[RF_STATUS_A := RfVariable(NVIDIA_OS_STATUS_UNBOOTABLE, true)]) ==
      MarkUnbootable(was, ROOTFS_SLOT_A).vars;
  }

  lemma {:induction false} AgreeSwitch(was: Store, chain: bv32, mode: bv32, info: seq<RfVariable>, a: bv32, b: bv32)
    requires Complete(was) && Unflagged(info, was.vars)
    requires IsValidRootfs(was) && Chain(chain) && mode != NVIDIA_L4T_BOOTMODE_RECOVERY
    requires was.vars[RF_REDUNDANCY] == NVIDIA_OS_REDUNDANCY_BOOT_ROOTFS
    ensures var reg := InitReg(was, chain);
      CountOf(chain, reg) == 0 != CountOf(Other(chain), reg) ==>
        Agreed(was, chain, mode, mode, Other(chain), a, b, reg,
          info[StatusOf(chain) := RfVariable(NVIDIA_OS_STATUS_UNBOOTABLE, true)][RF_FW_NEXT :=
              RfVariable(Other(chain), true)])
  {
    hide InitReg, CountAGet, CountBGet, ToReg, IsValidRootfs;
    var i := info[StatusOf(chain) := RfVariable(NVIDIA_OS_STATUS_UNBOOTABLE, true)][RF_FW_NEXT :=
        RfVariable(Other(chain), true)];
    assert Updated(was.vars, i) == MarkUnbootable(was, chain).vars[RF_FW_NEXT := Other(chain)];
  }

  lemma {:induction false} AgreeNothing(was: Store, chain: bv32, mode: bv32, info: seq<RfVariable>)
    requires Complete(was) && Unflagged(info, was.vars) && IsValidRootfs(was) && Chain(chain)
    requires was.vars[RF_REDUNDANCY] == NVIDIA_OS_REDUNDANCY_BOOT_ROOTFS
    ensures var reg := InitReg(was, chain);
      CountOf(chain, reg) == 0 == CountOf(Other(chain), reg) ==>
        Agreed(was, chain, mode, NVIDIA_L4T_BOOTMODE_RECOVERY, chain, CountAGet(reg), CountBGet(reg), 0,
          info[StatusOf(chain) := RfVariable(NVIDIA_OS_STATUS_UNBOOTABLE, true)][StatusOf(Other(chain)) :=
              RfVariable(NVIDIA_OS_STATUS_UNBOOTABLE, true)])
  {
    hide InitReg, CountAGet, CountBGet, ToReg, IsValidRootfs;
    var i := info[StatusOf(chain) := RfVariable(NVIDIA_OS_STATUS_UNBOOTABLE, true)][StatusOf(Other(chain)) :=
        RfVariable(NVIDIA_OS_STATUS_UNBOOTABLE, true)];
    assert Updated(was.vars, i) == MarkUnbootable(MarkUnbootable(was, chain), Other(chain)).vars;
  }

  lemma {:induction false} AgreeOther(was: Store, chain: bv32, mode: bv32, info: seq<RfVariable>)
    requires Complete(was) && Unflagged(info, was.vars) && IsValidRootfs(was) && mode != NVIDIA_L4T_BOOTMODE_RECOVERY
    requires was.vars[RF_REDUNDANCY] != NVIDIA_OS_REDUNDANCY_BOOT_ONLY
    requires was.vars[RF_REDUNDANCY] != NVIDIA_OS_REDUNDANCY_BOOT_ROOTFS
    ensures var reg := InitReg(was, chain);
      Agreed(was, chain, mode, mode, chain, CountAGet(reg), CountBGet(reg), reg, info)
  {
    hide InitReg, CountAGet, CountBGet, ToReg, IsValidRootfs;
    assert Updated(was.vars, info) == was.vars;
  }

  /** The variables with those flagged overwritten. */
  function Updated(vars: seq<bv32>, info: seq<RfVariable>): (r: seq<bv32>)
    requires |vars| == |info|
    ensures |r| == |vars| && forall i :: 0 <= i < |vars| ==>
      r[i] == if info[i].updateFlag then info[i].value else vars[i]
  {
    seq(|vars|, i requires 0 <= i < |vars| => if info[i].updateFlag then info[i].value else vars[i])
  }

  lemma {:induction false} BootInvalid(s: Store, chain: bv32)
    requires Complete(s)
    ensures !IsValidRootfs(s) ==> Boot(s, chain) == (s.(reg := 0), Recovery)
  {
    hide IsValidRootfs, InitReg;
  }
}
