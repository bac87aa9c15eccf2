/**
User-level page faults: user_mem_check of kern/pmap.c, the frame that page_fault_handler of
kern/trap.c pushes on the user exception stack, and the return through that frame. Nested
faults form a stack of frames inside the exception page.
*/
module FaultStack {
  import opened Layout
  import opened Options

  const MEMSIZE := 0x1_0000_0000
  const UXBOTTOM: nat := UXSTACKTOP - PGSIZE
  /** sizeof(struct UTrapframe) */
  const FRAME: nat := 52

  type Byte = b: int | 0 <= b < 256
  type Word = w: int | 0 <= w < 0x1_0000_0000

  // ---------------------------------------------------------------- user_mem_check

  /** The bits PTE_P, PTE_U and PTE_W of a page's entry. */
  datatype Flags = Flags(p: bool, u: bool, w: bool)

  type Pages = map<nat, Flags>

  /** What the loop body asks of one page. */
  predicate PageOk(pages: Pages, page: nat, write: bool) {
    page < ULIM / PGSIZE && page in pages && pages[page].p && pages[page].u && (write ==> pages[page].w)
  }

  /** ROUNDUP of a 32-bit sum. */
  function Bound(va: Word, len: Word): nat {
    ((va + len) % MEMSIZE + PGSIZE - 1) / PGSIZE * PGSIZE % MEMSIZE
  }

  /** The pages that hold some byte of [va, va + len). */
  predicate Touches(va: int, len: int, page: int) {
    len > 0 && page * PGSIZE < va + len && (page + 1) * PGSIZE > va
  }

  ghost predicate RangeOk(pages: Pages, va: int, len: int, write: bool) {
    forall page: nat :: Touches(va, len, page) ==> PageOk(pages, page, write)
  }

  /** The test as the loop makes it: every page from va's up to the bound. */
  ghost predicate CheckPasses(pages: Pages, va: Word, len: Word, write: bool) {
    forall page: nat :: va / PGSIZE <= page && va < Bound(va, len) && page * PGSIZE < Bound(va, len) ==>
      PageOk(pages, page, write)
  }

  /** What user_mem_check leaves in user_mem_check_addr: va itself or the start of the first page
      that fails. */
  ghost predicate FirstBad(pages: Pages, va: Word, len: Word, write: bool, bad: nat) {
    var page := bad / PGSIZE;
    && va <= bad < Bound(va, len) && (bad == va || (bad == page * PGSIZE && page > va / PGSIZE))
    && !PageOk(pages, page, write) && forall p: nat :: va / PGSIZE <= p < page ==> PageOk(pages, p, write)
  }

  /** user_mem_check: None for its 0, otherwise the erroneous address. */
  method UserMemCheck(pages: Pages, va: Word, len: Word, write: bool) returns (bad: Option<nat>)
    ensures bad.None? <==> CheckPasses(pages, va, len, write)
    ensures bad.Some? ==> FirstBad(pages, va, len, write, bad.value)
  {
    var bound := Bound(va, len);
    var index: nat := va;
    ghost var page: nat := va / PGSIZE;
    while index < bound
      invariant (index == va && page == va / PGSIZE)
        || (index == page * PGSIZE <= bound && page > va / PGSIZE && va < bound)
      invariant forall p: nat :: va / PGSIZE <= p < page ==> PageOk(pages, p, write)
      decreases bound - index
    {
      PageOf(index, page, va);
      assert !PageOk(pages, page, write) ==> !CheckPasses(pages, va, len, write);
      if index >= ULIM {
        return Some(index);
      }
      var pte := index / PGSIZE;
      if pte !in pages || !pages[pte].p || !pages[pte].u || (write && !pages[pte].w) {
        return Some(index);
      }
      index := index / PGSIZE * PGSIZE;
      index := index + PGSIZE;
      page := page + 1;
    }
    bad := None;
  }

  lemma PageOf(index: nat, page: nat, va: nat)
    requires (index == va && page == va / PGSIZE) || index == page * PGSIZE
    ensures index / PGSIZE == page && page * PGSIZE <= index
  {}

  lemma BoundNoWrap(va: Word, len: Word, page: nat)
    requires 0 < len && va + len <= MEMSIZE - PGSIZE
    ensures va / PGSIZE <= page && va < Bound(va, len) && page * PGSIZE < Bound(va, len) <==> Touches(va, len, page)
  {}

  /** Above that the bound is at most the end of va's own page. */
  lemma BoundWrap(va: Word, len: Word, page: nat)
    requires va + len > MEMSIZE - PGSIZE
    ensures len > 0 ==> Touches(va, len, 0xfffff)
    ensures va / PGSIZE <= page && va < Bound(va, len) && page * PGSIZE < Bound(va, len)
      <==> va < Bound(va, len) && page == va / PGSIZE
  {}

  /** With no bytes the bound is va rounded up: the loop looks at va's page unless va starts it. */
  lemma BoundEmpty(va: Word, page: nat)
    ensures va / PGSIZE <= page && va < Bound(va, 0) && page * PGSIZE < Bound(va, 0)
      <==> va % PGSIZE != 0 && va <= MEMSIZE - PGSIZE && page == va / PGSIZE
  {}

  /** When user_mem_check is right about no bytes, and when about some. */
  predicate AnswersRight(pages: Pages, va: Word, len: Word, write: bool) {
    if len == 0 then va % PGSIZE == 0 || va > MEMSIZE - PGSIZE || PageOk(pages, va / PGSIZE, write)
    else va + len <= MEMSIZE - PGSIZE || (va < Bound(va, len) && !PageOk(pages, va / PGSIZE, write))
  }

  /** user_mem_check gives the right answer for no bytes exactly when va starts a page, or lies in
      the last one, or its page passes; and for some bytes exactly when va + len stays out of the
      last page, or the wrapped bound still lies above va, in va's page, and that page fails. In the
      other cases an empty range is refused, or the bound has wrapped and a range that reaches above
      ULIM passes. */
  lemma MemCheckExact(pages: Pages, va: Word, len: Word, write: bool)
    ensures (CheckPasses(pages, va, len, write) <==> RangeOk(pages, va, len, write))
      <==> AnswersRight(pages, va, len, write)
  {
    if len == 0 {
      forall page: nat
        ensures va / PGSIZE <= page && va < Bound(va, 0) && page * PGSIZE < Bound(va, 0)
          <==> va % PGSIZE != 0 && va <= MEMSIZE - PGSIZE && page == va / PGSIZE
      {
        BoundEmpty(va, page);
      }
    } else if va + len <= MEMSIZE - PGSIZE {
      forall page: nat
        ensures va / PGSIZE <= page && va < Bound(va, len) && page * PGSIZE < Bound(va, len) <==> Touches(va, len, page)
      {
        BoundNoWrap(va, len, page);
      }
    } else {
      forall page: nat
        ensures va / PGSIZE <= page && va < Bound(va, len) && page * PGSIZE < Bound(va, len)
          <==> va < Bound(va, len) && page == va / PGSIZE
      {
        BoundWrap(va, len, page);
      }
      assert Touches(va, len, 0xfffff) by { BoundWrap(va, len, 0); }
      assert !PageOk(pages, 0xfffff, write);
    }
  }

  /** No bytes at an address inside a page, with nothing mapped: refused. */
  lemma EmptyRangeRefused(write: bool)
    ensures !CheckPasses(map[], 0x1001, 0, write) && RangeOk(map[], 0x1001, 0, write)
  {
    BoundEmpty(0x1001, 1);
    assert !PageOk(map[], 1, write);
  }

  /** The last byte but 4095, with nothing mapped: the bound wraps to 0 and no page is looked at. */
  lemma MemCheckWraps(write: bool)
    ensures CheckPasses(map[], 0xffff_f000, 1, write) && !RangeOk(map[], 0xffff_f000, 1, write)
  {
    assert Bound(0xffff_f000, 1) == 0;
    assert Touches(0xffff_f000, 1, 0xfffff) && !PageOk(map[], 0xfffff, write);
  }

  // ---------------------------------------------------------------- memory

  /** Byte-addressed memory. */
  type Mem = m: seq<Byte> | |m| == MEMSIZE witness seq(MEMSIZE, (i: nat) => 0 as Byte)

  /** Little-endian words. */
  function Store32(m: Mem, a: nat, w: Word): Mem
    requires a + 4 <= MEMSIZE
  {
    m[a := w % 256][a + 1 := w / 256 % 256][a + 2 := w / 256 / 256 % 256][a + 3 := w / 256 / 256 / 256]
  }

  function Load32(m: Mem, a: nat): Word
    requires a + 4 <= MEMSIZE
  {
    (m[a] as int) + 256 * (m[a + 1] as int) + 65536 * (m[a + 2] as int) + 16777216 * (m[a + 3] as int)
  }

  lemma SplitJoin(w: Word)
    ensures w % 256 + 256 * (w / 256 % 256) + 65536 * (w / 256 / 256 % 256) + 16777216 * (w / 256 / 256 / 256) == w
  {
    var q1 := w / 256;
    var q2 := q1 / 256;
    assert w == 256 * q1 + w % 256 && q1 == 256 * q2 + q1 % 256 && q2 == 256 * (q2 / 256) + q2 % 256;
  }

  lemma LoadStored(m: Mem, a: nat, w: Word)
    requires a + 4 <= MEMSIZE
    ensures Load32(Store32(m, a, w), a) == w
    ensures forall x :: 0 <= x < MEMSIZE && (x < a || x >= a + 4) ==> Store32(m, a, w)[x] == m[x]
  {
    SplitJoin(w);
  }

  /** Memory agrees on [lo, hi). */
  ghost predicate Agree(m: Mem, n: Mem, lo: int, hi: int) {
    forall x :: 0 <= x < MEMSIZE && lo <= x < hi ==> n[x] == m[x]
  }

  lemma LoadAgree(m: Mem, n: Mem, a: nat, lo: int, hi: int)
    requires Agree(m, n, lo, hi) && lo <= a && a + 4 <= hi && a + 4 <= MEMSIZE
    ensures Load32(n, a) == Load32(m, a)
  {}

  // ---------------------------------------------------------------- pushing a frame

  datatype Regs = Regs(edi: Word, esi: Word, ebp: Word, oesp: Word, ebx: Word, edx: Word, ecx: Word, eax: Word)

  /** The trap-time state that a frame saves. */
  datatype Cpu = Cpu(regs: Regs, eip: Word, eflags: Word, esp: Word)

  /** The words of the frame in the order in which they are pushed. */
  function FrameWords(c: Cpu, err: Word, va: Word): (ws: seq<Word>)
    ensures |ws| * 4 == FRAME
  {
    var r := c.regs;
    [c.esp, c.eflags, c.eip, r.eax, r.ecx, r.edx, r.ebx, r.oesp, r.ebp, r.esi, r.edi, err, va]
  }

  function PushDown(m: Mem, esp: nat, ws: seq<Word>): Mem
    requires 4 * |ws| <= esp <= MEMSIZE
    decreases |ws|
  {
    if ws == [] then m else PushDown(Store32(m, esp - 4, ws[0]), esp - 4, ws[1..])
  }

  lemma {:induction false} PushDownOutside(m: Mem, esp: nat, ws: seq<Word>)
    requires 4 * |ws| <= esp <= MEMSIZE
    ensures forall x :: 0 <= x < MEMSIZE && (x < esp - 4 * |ws| || x >= esp) ==> PushDown(m, esp, ws)[x] == m[x]
    decreases |ws|
  {
    if ws != [] {
      LoadStored(m, esp - 4, ws[0]);
      PushDownOutside(Store32(m, esp - 4, ws[0]), esp - 4, ws[1..]);
    }
  }

  lemma {:induction false} PushDownAt(m: Mem, esp: nat, ws: seq<Word>, k: nat)
    requires 4 * |ws| <= esp <= MEMSIZE && k < |ws|
    ensures Load32(PushDown(m, esp, ws), esp - 4 * (k + 1)) == ws[k]
    decreases |ws|
  {
    var n := Store32(m, esp - 4, ws[0]);
    LoadStored(m, esp - 4, ws[0]);
    if k == 0 {
      PushDownOutside(n, esp - 4, ws[1..]);
      LoadAgree(n, PushDown(n, esp - 4, ws[1..]), esp - 4, esp - 4, esp);
    } else {
      PushDownAt(n, esp - 4, ws[1..], k - 1);
    }
  }

  /** A fault with esp on the exception page (its upper end included) is a nested one. */
  predicate Nested(esp: Word) { UXBOTTOM <= esp <= UXSTACKTOP }

  /** The bytes user_mem_assert checks. */
  function Checked(esp: Word): (nat, nat) {
    if Nested(esp) then (esp - (FRAME + 4), FRAME + 4) else (UXSTACKTOP - FRAME, FRAME)
  }

  /** Where the new frame starts. */
  function Base(esp: Word): (b: nat)
    ensures b <= UXSTACKTOP - FRAME
  {
    if Nested(esp) then esp - 4 - FRAME else UXSTACKTOP - FRAME
  }

  /** page_fault_handler with a handler installed: memory with the frame, or None if the
      environment is destroyed. The environment goes on in its handler with esp at the frame. */
  ghost function PushFrame(m: Mem, pages: Pages, c: Cpu, err: Word, va: Word): Option<Mem> {
    if CheckPasses(pages, Checked(c.esp).0, Checked(c.esp).1, true)
    then Some(PushDown(m, Base(c.esp) + FRAME, FrameWords(c, err, va))) else None
  }

  /** The part of struct UTrapframe that is restored, in memory order. */
  function SavedWords(c: Cpu): (ws: seq<Word>)
    ensures |ws| == 11
  {
    var r := c.regs;
    [r.edi, r.esi, r.ebp, r.oesp, r.ebx, r.edx, r.ecx, r.eax, c.eip, c.eflags, c.esp]
  }

  ghost predicate Saved(m: Mem, b: nat, c: Cpu)
    requires b + FRAME <= MEMSIZE
  {
    forall k :: 0 <= k < 11 ==> Load32(m, b + 8 + 4 * k) == SavedWords(c)[k]
  }

  lemma {:induction false} PushDownSnoc(m: Mem, esp: nat, ws: seq<Word>, w: Word)
    requires 4 * |ws| + 4 <= esp <= MEMSIZE
    ensures PushDown(m, esp, ws + [w]) == Store32(PushDown(m, esp, ws), esp - 4 * |ws| - 4, w)
    decreases |ws|
  {
    if ws != [] {
      PushDownSnoc(Store32(m, esp - 4, ws[0]), esp - 4, ws[1..], w);
      assert (ws + [w])[1..] == ws[1..] + [w];
    }
  }

  /** esp -= 4; *((uint32_t *)esp) = w. `m` and `ws` are memory before the frame and the words
      pushed so far. */
  method PushWord(mem: array<Byte>, esp: nat, w: Word, ghost m: Mem, ghost top: nat, ghost ws: seq<Word>)
      returns (e: nat)
    requires mem.Length == MEMSIZE && 4 * |ws| + 4 <= top <= MEMSIZE && esp == top - 4 * |ws|
    requires mem[..] == PushDown(m, top, ws)
    modifies mem
    ensures e == esp - 4 && mem[..] == PushDown(m, top, ws + [w])
  {
    PushDownSnoc(m, top, ws, w);
    e := esp - 4;
    mem[e] := w % 256;
    mem[e + 1] := w / 256 % 256;
    mem[e + 2] := w / 256 / 256 % 256;
    mem[e + 3] := w / 256 / 256 / 256;
  }

  /** esp -= sizeof(struct PushRegs); *((struct PushRegs *)esp) = r */
  method PushRegs(mem: array<Byte>, esp: nat, r: Regs, ghost m: Mem, ghost top: nat, ghost ws: seq<Word>)
      returns (e: nat)
    requires mem.Length == MEMSIZE && 4 * |ws| + 32 <= top <= MEMSIZE && esp == top - 4 * |ws|
    requires mem[..] == PushDown(m, top, ws)
    modifies mem
    ensures e == esp - 32
    ensures mem[..] == PushDown(m, top, ws + [r.eax, r.ecx, r.edx, r.ebx, r.oesp, r.ebp, r.esi, r.edi])
  {
    var rs := [r.eax, r.ecx, r.edx, r.ebx, r.oesp, r.ebp, r.esi, r.edi];
    e := esp;
    assert ws + rs[..0] == ws;
    for k := 0 to 8
      invariant e == esp - 4 * k && mem[..] == PushDown(m, top, ws + rs[..k])
    {
      assert (ws + rs[..k]) + [rs[k]] == ws + rs[..k + 1];
      e := PushWord(mem, e, rs[k], m, top, ws + rs[..k]);
    }
    assert rs[..8] == rs;
  }

  /** The stores of page_fault_handler, from the top of the frame down. */
  method StoreFrame(mem: array<Byte>, top: nat, c: Cpu, err: Word, va: Word) returns (esp: nat)
    requires mem.Length == MEMSIZE && FRAME <= top <= MEMSIZE
    modifies mem
    ensures esp == top - FRAME && mem[..] == PushDown(old(mem[..]), top, FrameWords(c, err, va))
  {
    ghost var m: Mem := mem[..];
    ghost var ws := FrameWords(c, err, va);
    esp := PushWord(mem, top, c.esp, m, top, []);
    assert [] + [c.esp] == ws[..1];
    esp := PushWord(mem, esp, c.eflags, m, top, ws[..1]);
    assert ws[..1] + [c.eflags] == ws[..2];
    esp := PushWord(mem, esp, c.eip, m, top, ws[..2]);
    assert ws[..2] + [c.eip] == ws[..3];
    esp := PushRegs(mem, esp, c.regs, m, top, ws[..3]);
    var r := c.regs;
    assert ws[..3] + [r.eax, r.ecx, r.edx, r.ebx, r.oesp, r.ebp, r.esi, r.edi] == ws[..11];
    esp := PushWord(mem, esp, err, m, top, ws[..11]);
    assert ws[..11] + [err] == ws[..12];
    esp := PushWord(mem, esp, va, m, top, ws[..12]);
    assert ws[..12] + [va] == ws;
  }

  /** page_fault_handler with a handler installed, up to env_run or env_destroy. */
  method PageFaultHandler(mem: array<Byte>, pages: Pages, c: Cpu, err: Word, va: Word, upcall: Word)
      returns (next: Option<Cpu>)
    requires mem.Length == MEMSIZE
    modifies mem
    ensures next.None? <==> PushFrame(old(mem[..]), pages, c, err, va).None?
    ensures next.None? ==> mem[..] == old(mem[..])
    ensures next.Some? ==> PushFrame(old(mem[..]), pages, c, err, va) == Some(mem[..])
    ensures next.Some? ==> next.value == c.(eip := upcall, esp := Base(c.esp))
  {
    var esp: nat := c.esp;
    var bad;
    if esp >= UXSTACKTOP - PGSIZE && esp <= UXSTACKTOP {
      bad := UserMemCheck(pages, esp - (FRAME + 4), FRAME + 4, true);
      esp := esp - 4;
    } else {
      bad := UserMemCheck(pages, UXSTACKTOP - FRAME, FRAME, true);
      esp := UXSTACKTOP;
    }
    if bad.Some? {
      return None;
    }
    esp := StoreFrame(mem, esp, c, err, va);
    next := Some(c.(eip := upcall, esp := esp));
  }

  /** struct UTrapframe: fault_va at 0, err at 4, the registers at 8, eip at 40, eflags at 44 and
      esp at 48. */
  lemma SavedOffsets(m: Mem, b: nat, c: Cpu)
    requires b + FRAME <= MEMSIZE && Saved(m, b, c)
    ensures Load32(m, b + 8) == c.regs.edi && Load32(m, b + 12) == c.regs.esi && Load32(m, b + 16) == c.regs.ebp
    ensures Load32(m, b + 20) == c.regs.oesp && Load32(m, b + 24) == c.regs.ebx && Load32(m, b + 28) == c.regs.edx
    ensures Load32(m, b + 32) == c.regs.ecx && Load32(m, b + 36) == c.regs.eax
    ensures Load32(m, b + 40) == c.eip && Load32(m, b + 44) == c.eflags && Load32(m, b + 48) == c.esp
  {
    var ws := SavedWords(c);
    assert Load32(m, b + 8) == ws[0] && Load32(m, b + 12) == ws[1] && Load32(m, b + 16) == ws[2];
    assert Load32(m, b + 20) == ws[3] && Load32(m, b + 24) == ws[4] && Load32(m, b + 28) == ws[5];
    assert Load32(m, b + 32) == ws[6] && Load32(m, b + 36) == ws[7] && Load32(m, b + 40) == ws[8];
    assert Load32(m, b + 44) == ws[9] && Load32(m, b + 48) == ws[10];
  }

  /** Every field lies at its offset, and nothing outside the frame changes. */
  lemma FrameFields(m: Mem, c: Cpu, err: Word, va: Word)
    ensures var b := Base(c.esp);
      var n := PushDown(m, b + FRAME, FrameWords(c, err, va));
      && Load32(n, b) == va && Load32(n, b + 4) == err && Saved(n, b, c)
      && Agree(m, n, 0, b) && Agree(m, n, b + FRAME, MEMSIZE)
  {
    var b := Base(c.esp);
    var ws := FrameWords(c, err, va);
    PushDownOutside(m, b + FRAME, ws);
    forall k | 0 <= k < |ws| ensures Load32(PushDown(m, b + FRAME, ws), b + FRAME - 4 * (k + 1)) == ws[k] {
      PushDownAt(m, b + FRAME, ws, k);
    }
    FrameRegs(PushDown(m, b + FRAME, ws), b, c, err, va);
  }

  lemma FrameRegs(n: Mem, b: nat, c: Cpu, err: Word, va: Word)
    requires b + FRAME <= MEMSIZE
    requires forall k :: 0 <= k < 13 ==> Load32(n, b + FRAME - 4 * (k + 1)) == FrameWords(c, err, va)[k]
    ensures Saved(n, b, c) && Load32(n, b) == va && Load32(n, b + 4) == err
  {
    var ws := FrameWords(c, err, va);
    assert Load32(n, b + 4) == ws[11] && Load32(n, b) == ws[12];
    forall k | 0 <= k < 11 ensures Load32(n, b + 8 + 4 * k) == SavedWords(c)[k] {
      assert Load32(n, b + FRAME - 4 * (10 - k + 1)) == ws[10 - k];
    }
  }

  /** The exception page is there, writable, and the page below it is not mapped. */
  predicate StackPages(pages: Pages) {
    PageOk(pages, UXBOTTOM / PGSIZE, true) && UXBOTTOM / PGSIZE - 1 !in pages
  }

  lemma CheckedFits(esp: Word, page: nat)
    requires Base(esp) >= UXBOTTOM && Touches(Checked(esp).0, Checked(esp).1, page)
    ensures page == UXPAGE
  {}

  lemma CheckedBelow(esp: Word)
    requires Base(esp) < UXBOTTOM
    ensures Touches(Checked(esp).0, Checked(esp).1, UXPAGE - 1)
  {}

  /** With the page below unmapped, a frame is pushed exactly if it fits on the exception page;
      otherwise the environment is destroyed. */
  lemma PushExact(m: Mem, pages: Pages, c: Cpu, err: Word, va: Word)
    requires StackPages(pages)
    ensures PushFrame(m, pages, c, err, va).Some? <==> Base(c.esp) >= UXBOTTOM
  {
    var (start, len) := Checked(c.esp);
    MemCheckExact(pages, start, len, true);
    assert UXBOTTOM / PGSIZE == UXPAGE;
    if Base(c.esp) >= UXBOTTOM {
      forall page: nat | Touches(start, len, page) ensures page == UXPAGE { CheckedFits(c.esp, page); }
    } else {
      CheckedBelow(c.esp);
      assert !PageOk(pages, UXPAGE - 1, true);
    }
  }

  // ---------------------------------------------------------------- returning through a frame

  /** Memory after _pgfault_upcall has stored eip below the trap-time stack top and the adjusted
      esp back into the frame. */
  function ReturnMem(m: Mem, b: nat): Mem
    requires b + FRAME <= MEMSIZE && Load32(m, b + 48) >= 4
  {
    var a := Load32(m, b + 48) - 4;
    Store32(Store32(m, a, Load32(m, b + 40)), b + 48, a)
  }

  /** popal; the word for esp is skipped. */
  function PopRegs(n: Mem, b: nat, oesp: Word): Regs
    requires b + FRAME <= MEMSIZE
  {
    Regs(Load32(n, b + 8), Load32(n, b + 12), Load32(n, b + 16), oesp,
         Load32(n, b + 24), Load32(n, b + 28), Load32(n, b + 32), Load32(n, b + 36))
  }

  /** The end of _pgfault_upcall in lib/pfentry.S: popal, popfl and popl %esp take the frame's
      words, and ret takes eip from the trap-time stack. */
  function Restored(m: Mem, b: nat, now: Cpu): (Mem, Cpu)
    requires b + FRAME <= MEMSIZE && Load32(m, b + 48) >= 4
  {
    var n := ReturnMem(m, b);
    var a := Load32(m, b + 48) - 4;
    LoadStored(Store32(m, a, Load32(m, b + 40)), b + 48, a);
    var esp := Load32(n, b + 48);
    (n, Cpu(PopRegs(n, b, now.regs.oesp), Load32(n, esp), Load32(n, b + 44), esp + 4))
  }

  /** The same state; reg_oesp is not a register. */
  predicate SameState(c: Cpu, d: Cpu) {
    d == c.(regs := c.regs.(oesp := d.regs.oesp))
  }

  /** The word below the trap-time stack top, which takes eip, exists and may be written. Otherwise
      the store faults and the return does not happen (yet). */
  ghost predicate ReturnFits(pages: Pages, esp: Word) { esp >= 4 && RangeOk(pages, esp - 4, 4, true) }

  /** What the kernel maps above UTOP is not for the program to write. */
  ghost predicate AboveReadOnly(pages: Pages) {
    forall page: nat :: page >= UTOP / PGSIZE ==> !PageOk(pages, page, true)
  }

  lemma ReturnBelow(pages: Pages, esp: Word)
    requires AboveReadOnly(pages) && ReturnFits(pages, esp)
    ensures 4 <= esp <= UXSTACKTOP
  {
    if esp > UXSTACKTOP { assert Touches(esp - 4, 4, (esp - 1) / PGSIZE); }
  }

  /** The word that takes eip lies outside the frame. */
  lemma ReturnWord(c: Cpu)
    requires 4 <= c.esp <= UXSTACKTOP
    ensures c.esp <= Base(c.esp) || c.esp - 4 >= Base(c.esp) + FRAME
  {}

  lemma ReturnMemEffect(m: Mem, b: nat, esp: Word)
    requires b + FRAME <= MEMSIZE && Load32(m, b + 48) == esp && esp >= 4 && (esp <= b || esp - 4 >= b + FRAME)
    ensures var n := ReturnMem(m, b);
      && Load32(n, b + 48) == esp - 4 && Load32(n, esp - 4) == Load32(m, b + 40) && Agree(m, n, b, b + 48)
      && forall x :: 0 <= x < MEMSIZE && !(esp - 4 <= x < esp) && !(b + 48 <= x < b + 52) ==> n[x] == m[x]
  {
    var a := esp - 4;
    var m1 := Store32(m, a, Load32(m, b + 40));
    var n := Store32(m1, b + 48, a);
    LoadStored(m, a, Load32(m, b + 40));
    LoadStored(m1, b + 48, a);
    LoadAgree(m1, n, a, a, esp);
  }

  lemma RestoresCpu(m: Mem, b: nat, c: Cpu, now: Cpu)
    requires b + FRAME <= MEMSIZE && Saved(m, b, c) && Load32(m, b + 48) == c.esp && c.esp >= 4
    requires (c.esp <= b || c.esp - 4 >= b + FRAME)
    ensures SameState(c, Restored(m, b, now).1)
    ensures forall x :: 0 <= x < MEMSIZE && !(c.esp - 4 <= x < c.esp) && !(b + 48 <= x < b + 52) ==>
      Restored(m, b, now).0[x] == m[x]
  {
    SavedOffsets(m, b, c);
    ReturnMemEffect(m, b, c.esp);
    RegsAgree(m, ReturnMem(m, b), b);
  }

  lemma RegsAgree(m: Mem, n: Mem, b: nat)
    requires b + FRAME <= MEMSIZE && Agree(m, n, b, b + 48)
    ensures Load32(n, b + 8) == Load32(m, b + 8) && Load32(n, b + 12) == Load32(m, b + 12)
    ensures Load32(n, b + 16) == Load32(m, b + 16)
    ensures Load32(n, b + 24) == Load32(m, b + 24) && Load32(n, b + 28) == Load32(m, b + 28)
    ensures Load32(n, b + 32) == Load32(m, b + 32)
    ensures Load32(n, b + 36) == Load32(m, b + 36) && Load32(n, b + 44) == Load32(m, b + 44)
  {
    LoadAgree(m, n, b + 8, b, b + 48);
    LoadAgree(m, n, b + 12, b, b + 48);
    LoadAgree(m, n, b + 16, b, b + 48);
    LoadAgree(m, n, b + 24, b, b + 48);
    LoadAgree(m, n, b + 28, b, b + 48);
    LoadAgree(m, n, b + 32, b, b + 48);
    LoadAgree(m, n, b + 36, b, b + 48);
    LoadAgree(m, n, b + 44, b, b + 48);
  }

  // ---------------------------------------------------------------- nested faults

  datatype Frame = Frame(b: nat, c: Cpu)

  /** An environment with the faults it has not returned from yet, innermost last. */
  datatype State = State(mem: Mem, cpu: Cpu, frames: seq<Frame>)

  /** `pages` are the page tables as they are at that moment. */
  datatype Step = User(mem: Mem, cpu: Cpu) | Fault(err: Word, va: Word, pages: Pages) | Return(pages: Pages)

  function Top(s: State): nat
    requires s.frames != []
  {
    s.frames[|s.frames| - 1].b
  }

  /** User code may do anything until the first fault. A handler keeps to its side of the stack:
      esp stays on the exception page below the frame, and the frame and what lies above it are
      left alone. It returns with esp at its frame. */
  ghost predicate Enabled(s: State, st: Step) {
    match st
    case User(mem, cpu) => s.frames != [] ==> Agree(s.mem, mem, Top(s), UXSTACKTOP) && UXBOTTOM <= cpu.esp <= Top(s)
    case Fault(_, _, pages) => StackPages(pages)
    case Return(pages) =>
      && AboveReadOnly(pages) && s.frames != [] && s.cpu.esp == Top(s) && Top(s) + FRAME <= MEMSIZE
      && ReturnFits(pages, Load32(s.mem, Top(s) + 48))
  }

  /** None when the kernel destroys the environment. */
  ghost function Do(s: State, upcall: Word, st: Step): Option<State>
    requires Enabled(s, st)
  {
    match st
    case User(mem, cpu) => Some(s.(mem := mem, cpu := cpu))
    case Fault(err, va, pages) =>
      var r := PushFrame(s.mem, pages, s.cpu, err, va);
      if r.None? then None
      else
        var b := Base(s.cpu.esp);
        Some(State(r.value, s.cpu.(eip := upcall, esp := b), s.frames + [Frame(b, s.cpu)]))
    case Return(_) =>
      var (m, c) := Restored(s.mem, Top(s), s.cpu);
      Some(State(m, c, s.frames[..|s.frames| - 1]))
  }

  ghost predicate FrameOk(m: Mem, f: Frame) {
    UXBOTTOM <= f.b == Base(f.c.esp) && Saved(m, f.b, f.c)
  }

  /** Each frame after the first was pushed by a fault on the exception stack, below all earlier
      frames. */
  ghost predicate Stacked(frames: seq<Frame>) {
    forall j, k :: 0 <= j < k < |frames| ==> Under(frames[k], frames[j])
  }

  predicate Under(f: Frame, g: Frame) { UXBOTTOM <= f.c.esp <= g.b }

  ghost predicate Inv(s: State) {
    && (forall k :: 0 <= k < |s.frames| ==> FrameOk(s.mem, s.frames[k]))
    && Stacked(s.frames)
    && (s.frames != [] ==> UXBOTTOM <= s.cpu.esp <= Top(s))
  }

  /** Pending frames are pairwise disjoint and lie in the exception page, and above each nested
      one a word is free. */
  lemma FramesDisjoint(s: State, j: nat, k: nat)
    requires Inv(s) && j < k < |s.frames|
    ensures UXBOTTOM <= s.frames[k].b && s.frames[k].b + FRAME + 4 == s.frames[k].c.esp <= s.frames[j].b
    ensures s.frames[j].b + FRAME <= UXSTACKTOP
  {
    assert FrameOk(s.mem, s.frames[k]) && FrameOk(s.mem, s.frames[j]);
    assert Under(s.frames[k], s.frames[j]);
  }

  lemma SavedAgree(m: Mem, n: Mem, b: nat, c: Cpu)
    requires b + FRAME <= MEMSIZE && Saved(m, b, c) && Agree(m, n, b, b + FRAME)
    ensures Saved(n, b, c)
  {
    forall k | 0 <= k < 11 ensures Load32(n, b + 8 + 4 * k) == SavedWords(c)[k] {
      LoadAgree(m, n, b + 8 + 4 * k, b, b + FRAME);
    }
  }

  /** What lies at or above `lo` on the exception page keeps the frames there intact. */
  lemma FramesAgree(m: Mem, n: Mem, frames: seq<Frame>, lo: nat)
    requires forall k :: 0 <= k < |frames| ==> FrameOk(m, frames[k]) && lo <= frames[k].b
    requires Agree(m, n, lo, UXSTACKTOP)
    ensures forall k :: 0 <= k < |frames| ==> FrameOk(n, frames[k])
  {
    forall k | 0 <= k < |frames| ensures FrameOk(n, frames[k]) {
      assert FrameOk(m, frames[k]);
      SavedAgree(m, n, frames[k].b, frames[k].c);
    }
  }

  lemma TopLowest(s: State)
    requires Inv(s) && s.frames != []
    ensures forall k :: 0 <= k < |s.frames| ==> Top(s) <= s.frames[k].b
  {
    forall k | 0 <= k < |s.frames| ensures Top(s) <= s.frames[k].b {
      if k < |s.frames| - 1 { FramesDisjoint(s, k, |s.frames| - 1); }
    }
  }

  lemma UserKeeps(s: State, mem: Mem, cpu: Cpu)
    requires Inv(s) && Enabled(s, User(mem, cpu))
    ensures Inv(s.(mem := mem, cpu := cpu))
  {
    if s.frames != [] {
      TopLowest(s);
      FramesAgree(s.mem, mem, s.frames, Top(s));
    }
  }

  lemma StackedPush(frames: seq<Frame>, f: Frame)
    requires Stacked(frames) && forall j :: 0 <= j < |frames| ==> Under(f, frames[j])
    ensures Stacked(frames + [f])
  {
    var longer := frames + [f];
    forall j, k | 0 <= j < k < |longer| ensures Under(longer[k], longer[j]) {
      assert longer[j] == frames[j];
      if k < |frames| { assert longer[k] == frames[k]; }
    }
  }

  /** A new frame below all others. */
  lemma PushedInv(s: State, n: Mem, upcall: Word)
    requires Inv(s) && Base(s.cpu.esp) >= UXBOTTOM
    requires Saved(n, Base(s.cpu.esp), s.cpu) && Agree(s.mem, n, Base(s.cpu.esp) + FRAME, MEMSIZE)
    ensures Inv(State(n, s.cpu.(eip := upcall, esp := Base(s.cpu.esp)), s.frames + [Frame(Base(s.cpu.esp), s.cpu)]))
  {
    var f := Frame(Base(s.cpu.esp), s.cpu);
    if s.frames != [] {
      TopLowest(s);
      FramesAgree(s.mem, n, s.frames, Top(s));
    }
    StackedPush(s.frames, f);
    assert (s.frames + [f])[|s.frames|] == f;
  }

  lemma FaultKeeps(s: State, pages: Pages, upcall: Word, err: Word, va: Word)
    requires Inv(s) && Enabled(s, Fault(err, va, pages))
    ensures var r := Do(s, upcall, Fault(err, va, pages));
      && (r.Some? <==> Base(s.cpu.esp) >= UXBOTTOM)
      && (r.Some? ==> Inv(r.value) && r.value.frames == s.frames + [Frame(Base(s.cpu.esp), s.cpu)])
  {
    PushExact(s.mem, pages, s.cpu, err, va);
    if Base(s.cpu.esp) >= UXBOTTOM {
      FrameFields(s.mem, s.cpu, err, va);
      PushedInv(s, PushDown(s.mem, Base(s.cpu.esp) + FRAME, FrameWords(s.cpu, err, va)), upcall);
    }
  }

  /** Stores into the innermost frame and below the stack top it saved leave the rest intact. */
  lemma RestKeeps(s: State, n: Mem)
    requires Inv(s) && s.frames != []
    requires var f := s.frames[|s.frames| - 1];
      forall x :: 0 <= x < MEMSIZE && !(f.c.esp - 4 <= x < f.c.esp) && !(f.b + 48 <= x < f.b + 52) ==> n[x] == s.mem[x]
    ensures forall k :: 0 <= k < |s.frames| - 1 ==> FrameOk(n, s.frames[k])
  {
    var rest := s.frames[..|s.frames| - 1];
    if rest != [] {
      FramesDisjoint(s, |rest| - 1, |rest|);
      RestLowest(s, rest[|rest| - 1].b);
      FramesAgree(s.mem, n, rest, rest[|rest| - 1].b);
      forall k | 0 <= k < |rest| ensures FrameOk(n, s.frames[k]) { assert rest[k] == s.frames[k]; }
    }
  }

  lemma StackedPrefix(frames: seq<Frame>, n: nat)
    requires Stacked(frames) && n <= |frames|
    ensures Stacked(frames[..n])
  {
    var p := frames[..n];
    forall j, k | 0 <= j < k < |p| ensures Under(p[k], p[j]) {
      assert p[k] == frames[k] && p[j] == frames[j];
    }
  }

  /** Without its innermost frame the state is in order again, with the restored esp. */
  lemma PopInv(s: State, n: Mem, c: Cpu)
    requires Inv(s) && s.frames != [] && c.esp == s.frames[|s.frames| - 1].c.esp
    requires forall k :: 0 <= k < |s.frames| - 1 ==> FrameOk(n, s.frames[k])
    ensures Inv(State(n, c, s.frames[..|s.frames| - 1]))
  {
    var rest := s.frames[..|s.frames| - 1];
    forall k | 0 <= k < |rest| ensures FrameOk(n, rest[k]) { assert rest[k] == s.frames[k]; }
    StackedPrefix(s.frames, |rest|);
    if rest != [] { assert Under(s.frames[|rest|], s.frames[|rest| - 1]); }
  }

  /** A return restores the state saved by the innermost pending fault and leaves the other
      frames as they are. */
  lemma ReturnRestores(s: State, pages: Pages, upcall: Word)
    requires Inv(s) && Enabled(s, Return(pages))
    ensures var t := Do(s, upcall, Return(pages)).value;
      Inv(t) && SameState(s.frames[|s.frames| - 1].c, t.cpu) && t.frames == s.frames[..|s.frames| - 1]
  {
    var f := s.frames[|s.frames| - 1];
    assert FrameOk(s.mem, f);
    SavedOffsets(s.mem, f.b, f.c);
    ReturnBelow(pages, f.c.esp);
    ReturnWord(f.c);
    RestoresCpu(s.mem, f.b, f.c, s.cpu);
    var (n, c) := Restored(s.mem, f.b, s.cpu);
    RestKeeps(s, n);
    PopInv(s, n, c);
  }

  /** A fault can be returned from exactly while the word below its trap-time esp may be written. That
      is never so for an esp below 4 or above the exception page. */
  lemma ReturnExact(s: State, pages: Pages)
    requires Inv(s) && s.frames != [] && s.cpu.esp == Top(s) && AboveReadOnly(pages)
    ensures var esp := s.frames[|s.frames| - 1].c.esp;
      && (Enabled(s, Return(pages)) <==> ReturnFits(pages, esp))
      && (esp < 4 || esp > UXSTACKTOP ==> !Enabled(s, Return(pages)))
  {
    var f := s.frames[|s.frames| - 1];
    assert FrameOk(s.mem, f);
    SavedOffsets(s.mem, f.b, f.c);
    if ReturnFits(pages, f.c.esp) { ReturnBelow(pages, f.c.esp); }
  }

  lemma RestLowest(s: State, lo: nat)
    requires Inv(s) && |s.frames| >= 2 && lo == s.frames[|s.frames| - 2].b
    ensures forall k :: 0 <= k < |s.frames| - 1 ==> lo <= s.frames[k].b
  {
    forall k | 0 <= k < |s.frames| - 1 ensures lo <= s.frames[k].b {
      if k < |s.frames| - 2 { FramesDisjoint(s, k, |s.frames| - 2); }
    }
  }

  // ---------------------------------------------------------------- every run

  ghost predicate Runs(s: State, upcall: Word, steps: seq<Step>, r: Option<State>)
    decreases |steps|
  {
    && (steps == [] ==> r == Some(s))
    && (steps != [] ==> Enabled(s, steps[0]))
    && (steps != [] && Do(s, upcall, steps[0]).None? ==> r == None)
    && (steps != [] && Do(s, upcall, steps[0]).Some? ==> Runs(Do(s, upcall, steps[0]).value, upcall, steps[1..], r))
  }

  lemma StepKeeps(s: State, upcall: Word, st: Step)
    requires Inv(s) && Enabled(s, st) && Do(s, upcall, st).Some?
    ensures Inv(Do(s, upcall, st).value)
  {
    match st {
      case User(mem, cpu) => UserKeeps(s, mem, cpu);
      case Fault(err, va, pages) => FaultKeeps(s, pages, upcall, err, va);
      case Return(pages) => ReturnRestores(s, pages, upcall);
    }
  }

  /** Faults to any depth keep the stack of frames. */
  lemma {:induction false} RunKeeps(s: State, upcall: Word, steps: seq<Step>, r: Option<State>)
    requires Inv(s) && Runs(s, upcall, steps, r)
    ensures r.Some? ==> Inv(r.value)
    decreases |steps|
  {
    if steps != [] {
      var t := Do(s, upcall, steps[0]);
      if t.Some? {
        StepKeeps(s, upcall, steps[0]);
        RunKeeps(t.value, upcall, steps[1..], r);
      }
    }
  }

  /** Between a fault and the return that ends it lie steps that never uncover its frame. */
  ghost predicate Covered(s: State, upcall: Word, steps: seq<Step>, depth: nat, r: State)
    decreases |steps|
  {
    && |s.frames| >= depth
    && (steps == [] ==> r == s)
    && (steps != [] ==>
          Enabled(s, steps[0]) && Do(s, upcall, steps[0]).Some?
          && Covered(Do(s, upcall, steps[0]).value, upcall, steps[1..], depth, r))
  }

  /** A step that leaves at least `depth` frames leaves the first `depth` as they are. */
  lemma StepBelow(s: State, upcall: Word, st: Step, depth: nat)
    requires Inv(s) && Enabled(s, st) && Do(s, upcall, st).Some?
    requires |s.frames| >= depth && |Do(s, upcall, st).value.frames| >= depth
    ensures Do(s, upcall, st).value.frames[..depth] == s.frames[..depth]
  {}

  lemma {:induction false} CoveredKeeps(s: State, upcall: Word, steps: seq<Step>, depth: nat, r: State)
    requires Inv(s) && Covered(s, upcall, steps, depth, r)
    ensures Inv(r) && |r.frames| >= depth && r.frames[..depth] == s.frames[..depth]
    decreases |steps|
  {
    if steps != [] {
      var t := Do(s, upcall, steps[0]).value;
      StepKeeps(s, upcall, steps[0]);
      StepBelow(s, upcall, steps[0], depth);
      CoveredKeeps(t, upcall, steps[1..], depth, r);
    }
  }

  /** Last in, first out: when the fault's own frame is on top again and its handler returns, the
      environment is back in the state in which it faulted, whatever faults came in between and
      whatever became of the page tables. */
  lemma LastInFirstOut(s: State, upcall: Word, fault: Step, u: State, steps: seq<Step>, r: State, pages: Pages)
    requires Inv(s) && fault.Fault? && Enabled(s, fault) && Do(s, upcall, fault) == Some(u)
    requires Covered(u, upcall, steps, |s.frames| + 1, r) && |r.frames| == |s.frames| + 1 && Enabled(r, Return(pages))
    ensures var t := Do(r, upcall, Return(pages)).value; SameState(s.cpu, t.cpu) && t.frames == s.frames
  {
    FaultKeeps(s, fault.pages, upcall, fault.err, fault.va);
    CoveredKeeps(u, upcall, steps, |s.frames| + 1, r);
    assert r.frames == u.frames;
    ReturnRestores(r, pages, upcall);
  }

  /** The bytes [a, a + FRAME) and [b, b + FRAME) share one. */
  predicate Overlap(a: nat, b: nat) { a < b + FRAME && b < a + FRAME }

  /** The kernel recognises a nested fault by esp alone. A handler that faults has its outermost
      frame overwritten, in part or in full, exactly when esp has left the exception page or lies
      in the page's last 47 bytes or at its upper end. */
  lemma OffStackOverwrites(s: State, esp: Word)
    requires Inv(s) && s.frames != [] && !Nested(s.frames[0].c.esp)
    ensures Overlap(Base(esp), s.frames[0].b) <==> !Nested(esp) || esp > UXSTACKTOP - 48
    ensures Base(esp) == s.frames[0].b <==> !Nested(esp)
  {
    assert FrameOk(s.mem, s.frames[0]);
  }
}
