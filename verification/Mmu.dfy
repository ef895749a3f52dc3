/** Page-table words and layout constants (32-bit paging, two levels). */
module Mmu {
  const NENTRIES := 1024            // words in a page directory or page table
  const PDX_UTOP := 955             // PDX(UTOP), UTOP == 0xEEC00000
  const PDX_UVPT := 957             // PDX(UVPT), UVPT == 0xEF400000
  const PGSIZE := 4096
  const UTOP := 4005560320          // 0xEEC00000
  const UTOP_VPN := 977920          // PGNUM(UTOP) == PDX_UTOP * NENTRIES
  const UXSTACK_VPN := 977919       // PGNUM(UXSTACKTOP - PGSIZE)
  const PFTEMP_VPN := 2047          // PGNUM(PFTEMP), PFTEMP == UTEMP + PTSIZE - PGSIZE
  const UTEMP_VPN := 1024           // PGNUM(UTEMP)
  const MAXREF := 65536             // pp_ref is a uint16_t

  /** The low 12 bits of a page-table word, one field per bit from PTE_P (0x001) up to the three
      PTE_AVAIL bits; fork uses the highest of those, 0x800, as PTE_COW. */
  datatype Flags = Flags(p: bool, w: bool, u: bool, pwt: bool, pcd: bool, a: bool, d: bool, ps: bool, g: bool,
                         av0: bool, av1: bool, cow: bool)
  {
    /** `(this & perm) == perm` */
    predicate Includes(perm: Flags) {
      && (perm.p ==> p) && (perm.w ==> w) && (perm.u ==> u) && (perm.pwt ==> pwt) && (perm.pcd ==> pcd)
      && (perm.a ==> a) && (perm.d ==> d) && (perm.ps ==> ps) && (perm.g ==> g)
      && (perm.av0 ==> av0) && (perm.av1 ==> av1) && (perm.cow ==> cow)
    }

    /** `(perm & (PTE_U | PTE_P)) == (PTE_U | PTE_P)` and no bit outside PTE_SYSCALL. */
    predicate ForSyscall() { p && u && !pwt && !pcd && !a && !d && !ps && !g }
  }

  const NOFLAGS := Flags(false, false, false, false, false, false, false, false, false, false, false, false)
  const PTE_P := NOFLAGS.(p := true)
  const PTE_U_P := PTE_P.(u := true)
  const PTE_U_W_P := PTE_U_P.(w := true)

  /** A 32-bit word of a page: PTE_ADDR in `frame` (a page number), the low 12 bits in `flags`. */
  datatype Word = Word(frame: nat, flags: Flags)
  type Page = p: seq<Word> | |p| == NENTRIES witness seq(NENTRIES, _ => Word(0, NOFLAGS))

  const NOTHING := Word(0, NOFLAGS)
  function Blank(): Page { seq(NENTRIES, _ => NOTHING) }

  const ZEROPAGE: Page := Blank()

  predicate Present(w: Word) { w.flags.p }

  function Pdx(vpn: nat): (i: nat)
    ensures i < NENTRIES
  {
    vpn / NENTRIES % NENTRIES
  }

  function Ptx(vpn: nat): (j: nat)
    ensures j < NENTRIES
  {
    vpn % NENTRIES
  }

  /** PGADDR(pdx, ptx, 0) as a page number. */
  function Vpn(pdx: nat, ptx: nat): nat { pdx * NENTRIES + ptx }

  /** PGNUM(va) */
  function PageNum(va: nat): nat { va / PGSIZE }

  predicate UserPage(va: nat) { va < UTOP && va % PGSIZE == 0 }

  lemma UserPageNum(va: nat)
    requires UserPage(va)
    ensures PageNum(va) < UTOP_VPN
  {
  }

  lemma SplitVpn(vpn: nat)
    requires vpn < UTOP_VPN
    ensures Pdx(vpn) < PDX_UTOP && vpn == Vpn(Pdx(vpn), Ptx(vpn))
  {
  }

  lemma JoinVpn(i: nat, j: nat)
    requires i < PDX_UTOP && j < NENTRIES
    ensures Vpn(i, j) < UTOP_VPN && Pdx(Vpn(i, j)) == i && Ptx(Vpn(i, j)) == j
  {
  }

  // ---------------------------------------------------------------- the low 12 bits as a number

  function Bit(b: bool): nat { if b then 1 else 0 }

  /** The bits from PTE_P up. */
  function BitsOf(f: Flags): (r: seq<nat>)
    ensures |r| == 12
  {
    [Bit(f.p), Bit(f.w), Bit(f.u), Bit(f.pwt), Bit(f.pcd), Bit(f.a), Bit(f.d), Bit(f.ps), Bit(f.g), Bit(f.av0),
     Bit(f.av1), Bit(f.cow)]
  }

  /** The value of the low 12 bits of a word. */
  function LowValue(f: Flags): nat {
    Bit(f.p) + 2 * Bit(f.w) + 4 * Bit(f.u) + 8 * Bit(f.pwt) + 16 * Bit(f.pcd) + 32 * Bit(f.a) + 64 * Bit(f.d)
    + 128 * Bit(f.ps) + 256 * Bit(f.g) + 512 * Bit(f.av0) + 1024 * Bit(f.av1) + 2048 * Bit(f.cow)
  }

  lemma LowValueIs(f: Flags)
    ensures var b := BitsOf(f);
            LowValue(f) == b[0] + 2 * b[1] + 4 * b[2] + 8 * b[3] + 16 * b[4] + 32 * b[5] + 64 * b[6] + 128 * b[7]
                           + 256 * b[8] + 512 * b[9] + 1024 * b[10] + 2048 * b[11]
  {
    hide Bit;
  }

  /** perm is fit for a system call: PTE_U and PTE_P set, and nothing but PTE_W and the three PTE_AVAIL bits
      besides, so that perm & ~PTE_SYSCALL, 0xE07, is zero. */
  lemma ForSyscallIs(perm: Flags)
    ensures perm.ForSyscall() <==>
              LowValue(perm) == 5 + 2 * Bit(perm.w) + 512 * Bit(perm.av0) + 1024 * Bit(perm.av1) + 2048 * Bit(perm.cow)
  {
  }

  function Fields(f: Flags): (r: seq<bool>)
    ensures |r| == 12
  {
    [f.p, f.w, f.u, f.pwt, f.pcd, f.a, f.d, f.ps, f.g, f.av0, f.av1, f.cow]
  }

  lemma FieldsAre(f: Flags)
    ensures var r := Fields(f);
            && r[0] == f.p && r[1] == f.w && r[2] == f.u && r[3] == f.pwt && r[4] == f.pcd && r[5] == f.a && r[6] == f.d
            && r[7] == f.ps && r[8] == f.g && r[9] == f.av0 && r[10] == f.av1 && r[11] == f.cow
  {
    LowFields(f);
    HighFields(f);
    hide Fields;
  }

  lemma LowFields(f: Flags)
    ensures var r := Fields(f);
            r[0] == f.p && r[1] == f.w && r[2] == f.u && r[3] == f.pwt && r[4] == f.pcd && r[5] == f.a
  {
  }

  lemma HighFields(f: Flags)
    ensures var r := Fields(f);
            r[6] == f.d && r[7] == f.ps && r[8] == f.g && r[9] == f.av0 && r[10] == f.av1 && r[11] == f.cow
  {
  }

  /** (f & perm) == perm: bit by bit. */
  lemma IncludesIs(f: Flags, perm: Flags)
    ensures f.Includes(perm) <==> forall k :: 0 <= k < 12 && Fields(perm)[k] ==> Fields(f)[k]
  {
    FieldsAre(f);
    FieldsAre(perm);
    hide Fields;
    if f.Includes(perm) {
      forall k | 0 <= k < 12 && Fields(perm)[k] ensures Fields(f)[k] {
        IncludesField(f, perm, k);
      }
    }
  }

  lemma IncludesField(f: Flags, perm: Flags, k: nat)
    requires f.Includes(perm) && k < 12 && Fields(perm)[k]
    ensures Fields(f)[k]
  {
    FieldsAre(f);
    FieldsAre(perm);
    hide Fields;
    if k < 6 {
      assert k == 0 || k == 1 || k == 2 || k == 3 || k == 4 || k == 5;
    }
  }
}
