/**
 The hardware's side of the page tables: the entry format of arch/riscv64/kernel/pte.h bit by bit, and
 the address translation of section 4.3.2 of the RISC-V Privileged Architecture (version 20211203),
 which agrees with the kernel's own lookups.
 */
module Sv39 {
  import opened Common
  import opened PageTable

  const VM_V: bv8 := 0x01
  const VM_R: bv8 := 0x02
  const VM_W: bv8 := 0x04
  const VM_X: bv8 := 0x08

  // ------------------------------------------------------------------ entry format

  /** `to_pte` with 4 KiB base pages */
  function ToPte(p: bv64, f: bv64): bv64 {
    ((p >> 12) << 10) | f
  }

  function PteFlags(x: bv64): bv64 {
    x & 0xff
  }

  function PtePaddr(x: bv64): bv64 {
    (x >> 10) << 12
  }

  predicate IsActive(x: bv64) {
    PteFlags(x) & 1 != 0
  }

  predicate IsLeaf(x: bv64) {
    IsActive(x) && PteFlags(x) & 0xfe != 0
  }

  predicate IsBranch(x: bv64) {
    IsActive(x) && PteFlags(x) & 0xfe == 0
  }

  const GRAVESTONE: bv64 := 0x20

  predicate IsUnused(x: bv64) {
    x == GRAVESTONE || x == 0
  }

  /** A physical address of a base page, within the 56 bits of Sv39. */
  predicate IsPage(p: bv64) {
    p & 0xfff == 0 && p >> 56 == 0
  }

  /** An entry as the kernel writes it: no reserved and no software bits. */
  predicate IsPlain(x: bv64) {
    x & 0x300 == 0 && x >> 54 == 0
  }

  /** Address and flags go in and come out again, so that entries differ when either does. */
  lemma PteRoundTrip(p: bv64, f: bv64)
    requires IsPage(p) && f & 0xff == f
    ensures IsPlain(ToPte(p, f)) && PtePaddr(ToPte(p, f)) == p && PteFlags(ToPte(p, f)) == f
  {
  }

  lemma PteRebuilt(x: bv64)
    requires IsPlain(x)
    ensures IsPage(PtePaddr(x)) && ToPte(PtePaddr(x), PteFlags(x)) == x
  {
  }

  /**
   The kinds of entries are told apart by their flags: a table has the valid bit alone, a page has another
   bit beside it, and neither looks like an empty entry or a gravestone.
   */
  lemma PteKinds(p: bv64, f: bv64)
    requires IsPage(p) && f & 0xff == f && f & 1 == 1
    ensures IsBranch(ToPte(p, f)) <==> f == 1
    ensures IsLeaf(ToPte(p, f)) <==> f != 1
    ensures !IsUnused(ToPte(p, f)) && !IsActive(GRAVESTONE) && !IsActive(0)
  {
  }

  // ------------------------------------------------------------- words and entries

  /** A word of a page table that the kernel writes: nothing, a gravestone, or an active entry. */
  predicate Written(x: bv64) {
    IsUnused(x) || (IsPlain(x) && IsActive(x))
  }

  function Number(b: bv64): nat {
    b as nat
  }

  /** What the kernel's macros make of a word. */
  function Decode(x: bv64): Entry {
    if x == 0 then Null
    else if x == GRAVESTONE then Grave
    else if IsBranch(x) then Branch(Number(PtePaddr(x) >> 12))
    else Leaf(Number(PtePaddr(x) >> 12), PteFlags(x) as bv8)
  }

  /** The fields the hardware reads: bits 53 to 10 and bits 7 to 0. */
  function Ppn(x: bv64): nat {
    Number((x >> 10) & 0xfff_ffff_ffff)
  }

  function Flags(x: bv64): bv8 {
    (x & 0xff) as bv8
  }

  /** Kernel and hardware read the same page and the same flags in every word that is written. */
  lemma DecodeAgrees(x: bv64)
    requires Written(x)
    ensures match Decode(x)
            case Null => Flags(x) & VM_V == 0
            case Grave => Flags(x) & VM_V == 0
            case Branch(t) => t == Ppn(x) && Flags(x) == VM_V
            case Leaf(page, flags) => page == Ppn(x) && flags == Flags(x) && flags & VM_V != 0
  {
    hide Number;
    if !IsUnused(x) {
      SameBits(x);
    }
  }

  lemma SameBits(x: bv64)
    requires IsPlain(x) && IsActive(x)
    ensures PtePaddr(x) >> 12 == (x >> 10) & 0xfff_ffff_ffff
    ensures Flags(x) & VM_V != 0 && (IsBranch(x) <==> Flags(x) == VM_V)
  {
  }

  /**
   What `to_pte` writes is read as a table if only the valid flag is given, and otherwise as a page, with address and
   flags.
   */
  lemma DecodeToPte(p: bv64, f: bv64)
    requires IsPage(p) && f & 0xff == f && f & 1 == 1
    ensures Written(ToPte(p, f))
    ensures Decode(ToPte(p, f)) == if f == 1 then Branch(Number(p >> 12)) else Leaf(Number(p >> 12), f as bv8)
  {
    hide Number;
    PteRoundTrip(p, f);
    PteKinds(p, f);
  }

  /** The memory the hardware walks: tables of words, by physical page. */
  type Words = map<nat, seq<bv64>>

  /** The same memory as the kernel's entries. */
  ghost function Decoded(hw: Words): Tables {
    map t | t in hw :: DecodedTable(hw[t])
  }

  ghost function DecodedTable(words: seq<bv64>): (t: Table)
    ensures |t| == |words| && forall i :: 0 <= i < |t| ==> t[i] == Decode(words[i])
  {
    seq(|words|, i requires 0 <= i < |words| => Decode(words[i]))
  }

  ghost predicate AllWritten(hw: Words) {
    forall t, i :: t in hw && 0 <= i < |hw[t]| ==> Written(hw[t][i])
  }

  lemma WrittenAt(hw: Words, t: nat, i: nat)
    requires AllWritten(hw) && t in hw && i < |hw[t]|
    ensures Written(hw[t][i])
  {
  }

  // --------------------------------------------------------------------- the walk

  datatype Translation = Fault | Hw(page: nat, order: nat, flags: bv8)

  /**
   The fields VPN[2], VPN[1] and VPN[0] of a virtual address: bits 26 to 18, 17 to 9 and 8 to 0 of its page number.
   */
  function VpnField(v: Vpn, level: nat): nat
    requires level <= 2
  {
    if level == 0 then v % 512 else if level == 1 then v / 512 % 512 else v / 262144 % 512
  }

  /** Base pages in a page, megapage or gigapage. */
  function HwPages(level: nat): (n: nat)
    requires level <= 2
    ensures n > 0
  {
    if level == 0 then 1 else if level == 1 then 512 else 262144
  }

  /**
   `vm_to_index` takes the field of that level, the fields make up the page number, and a page of the kernel's order `o`
   is as large as the hardware's of level `o`.
   */
  lemma IndexIsField(v: Vpn, o: nat)
    requires o <= 2
    ensures Index(v, o) == VpnField(v, o) && Span(o) == HwPages(o)
    ensures v == VpnField(v, 2) * 262144 + VpnField(v, 1) * 512 + VpnField(v, 0)
  {
    FieldsMakeUp(v);
  }

  lemma FieldsMakeUp(v: Vpn)
    ensures v == v / 262144 % 512 * 262144 + v / 512 % 512 * 512 + v % 512
  {
    var q := v / 512;
    assert v / 262144 == q / 512 < 512;
    assert q == q / 512 * 512 + q % 512;
  }

  /** Steps 2 to 8 of the translation of `v`, from the table at page `t`, at level `o`, on the words in memory. */
  ghost function Walk(hw: Words, t: nat, v: Vpn, o: nat): Translation
    requires o <= 2
    decreases o
  {
    if t !in hw || |hw[t]| != 512 then Fault else
    var pte := hw[t][VpnField(v, o)];
    var ppn, f := Ppn(pte), Flags(pte);
    if f & 0x01 == 0 || (f & 0x02 == 0 && f & 0x04 != 0) then Fault
    else if f & 0x02 != 0 || f & 0x08 != 0 then
      if ppn % HwPages(o) != 0 then Fault else Hw(ppn - ppn % HwPages(o) + v % HwPages(o), o, f)
    else if o == 0 then Fault
    else Walk(hw, ppn, v, o - 1)
  }

  /** An entry the hardware accepts as a page of order `o`: readable or executable, no write without read, aligned. */
  ghost predicate Translatable(h: Hit) {
    && h.flags & VM_V != 0 && (h.flags & VM_R != 0 || h.flags & VM_X != 0)
    && (h.flags & VM_W != 0 ==> h.flags & VM_R != 0) && h.page % Span(h.order) == 0
  }

  /**
   For entries with R or X set, the hardware translates exactly the addresses the kernel finds in
   well-formed entries, to the same page, and faults on all others.
   */
  lemma {:induction false} WalkAgrees(hw: Words, w: Owners, t: nat, v: Vpn, o: nat)
    requires AllWritten(hw) && Formed(Decoded(hw), w) && t in hw && Serves(w, t, v, o) && o <= 2
    requires var h := Lookup(Decoded(hw), t, v, o); h.Some? ==> h.value.flags & VM_R != 0 || h.value.flags & VM_X != 0
    ensures var h := Lookup(Decoded(hw), t, v, o);
            Walk(hw, t, v, o) == if h.Some? && Translatable(h.value) then Hw(h.value.page + v % Span(h.value.order),
                h.value.order, h.value.flags) else Fault
    decreases o
  {
    hide Formed, Decode, Ppn, Flags, Written, AllWritten, Number, Serves;
    var m := Decoded(hw);
    Full(m, w, t);
    IndexIsField(v, o);
    var pte := hw[t][Index(v, o)];
    WrittenAt(hw, t, Index(v, o));
    assert m[t][Index(v, o)] == Decode(pte);
    DecodeAgrees(pte);
    match m[t][Index(v, o)]
    case Null =>
    case Grave =>
    case Leaf(page, flags) =>
    case Branch(u) =>
      StepDown(m, w, t, v, o);
      WalkAgrees(hw, w, u, v, o - 1);
  }

  /** `satp` holds the top level table: the whole translation of section 4.3.2. */
  lemma TranslationAgrees(hw: Words, w: Owners, root: nat, v: Vpn)
    requires AllWritten(hw) && Formed(Decoded(hw), w) && root in hw && IsRoot(w, root)
    requires var h := Find(Decoded(hw), root, v); h.Some? ==> h.value.flags & VM_R != 0 || h.value.flags & VM_X != 0
    ensures var h := Find(Decoded(hw), root, v);
            Walk(hw, root, v, 2) == if h.Some?
                && Translatable(h.value) then Hw(h.value.page + v % Span(h.value.order), h.value.order, h.value.flags)
                else Fault
  {
    hide Walk, Formed;
    RootServes(w, root, v);
    WalkAgrees(hw, w, root, v, 2);
  }
}
