/** The four-level page tables that the 32-bit kernel builds before it enters 64-bit mode,
    and the 4-KByte page walk of the processor (Intel SDM Vol. 3A, section 4.5). The tables
    of all levels lie one after the other; the zero-fill behind a level may spill into the
    next level's tables, whose own fill comes later and overwrites it. */
module PageTables {
  import Numerals

  const ENTRIES: nat := 512
  const PAGE: nat := 4096
  const POINTERS: nat := 0x1_0000_0000
  const HALF: nat := 0x8000_0000
  const WORD64: nat := 0x1_0000_0000_0000_0000

  // ------------------------------------------------------------------ entries

  /** The bitwise or. */
  function Or(a: nat, b: nat): nat
    decreases a + b
  {
    if a == 0 && b == 0 then 0
    else 2 * Or(a / 2, b / 2) + if a % 2 == 1 || b % 2 == 1 then 1 else 0
  }

  function TwoTo(n: nat): (p: nat)
    ensures p > 0
  {
    if n == 0 then 1 else 2 * TwoTo(n - 1)
  }

  lemma {:induction false} OrOfZero(a: nat)
    ensures Or(a, 0) == a
  {
    if a > 0 { OrOfZero(a / 2); }
  }

  lemma {:induction false} OrBelow(n: nat, q: nat, b: nat)
    requires b < TwoTo(n)
    ensures Or(TwoTo(n) * q, b) == TwoTo(n) * q + b
    decreases n
  {
    if n == 0 {
      OrOfZero(q);
    } else {
      var a := TwoTo(n - 1) * q;
      assert TwoTo(n) * q == 2 * a;
      OrBelow(n - 1, q, b / 2);
    }
  }

  /** Bit i of the or is set if and only if it is set in one of the two. */
  lemma {:induction false} OrBits(a: nat, b: nat, i: nat)
    ensures Or(a, b) / TwoTo(i) % 2 == 1 <==> a / TwoTo(i) % 2 == 1 || b / TwoTo(i) % 2 == 1
    decreases i
  {
    OrHalves(a, b);
    if i > 0 {
      HalfFirst(a, i);
      HalfFirst(b, i);
      HalfFirst(Or(a, b), i);
      hide Or, TwoTo;
      OrBits(a / 2, b / 2, i - 1);
    }
  }

  lemma OrHalves(a: nat, b: nat)
    ensures Or(a, b) / 2 == Or(a / 2, b / 2)
    ensures Or(a, b) % 2 == 1 <==> a % 2 == 1 || b % 2 == 1
  {}

  lemma HalfFirst(a: nat, i: nat)
    requires i > 0
    ensures a / TwoTo(i) == a / 2 / TwoTo(i - 1)
  {
    Numerals.DivideTwice(a, 2, TwoTo(i - 1));
  }

  /** A page-aligned address and flags below bit 12 share an entry without touching each other. */
  lemma OrIsSum(address: nat, flags: nat)
    requires address % PAGE == 0 && flags < PAGE
    ensures Or(address, flags) == address + flags
  {
    assert TwoTo(12) == PAGE by { assert TwoTo(6) == 64; assert TwoTo(9) == 512; }
    OrBelow(12, address / PAGE, flags);
  }

  function Entry(address: nat, flags: nat): nat { Or(address, flags) }

  predicate Present(entry: nat) { entry % 2 == 1 }

  /** Bit 7: in the two middle levels it ends the walk with a large page, in the top level it is
      reserved. */
  predicate Large(entry: nat) { entry / 128 % 2 == 1 }

  /** The address an entry holds, in its bits 12 to 51. */
  function Target(entry: nat): nat { entry / PAGE % FRAMES * PAGE }

  const FRAMES: nat := 0x100_0000_0000

  /** The cast of a 32-bit pointer to a 64-bit integer, which g++ sign-extends. */
  function Extended(pointer: nat): nat {
    if pointer < HALF then pointer else pointer + 0xFFFF_FFFF_0000_0000
  }

  /** Bit 51: on a processor with fewer than 52 address bits it is reserved, and the walk
      faults on an entry that is present and has it set. */
  predicate Reserved(entry: nat) { entry / 0x8_0000_0000_0000 % 2 == 1 }

  predicate Usable(entry: nat) { Present(entry) && !Reserved(entry) }

  function Read(mem: seq<nat>, address: nat): nat {
    if address / 8 < |mem| then mem[address / 8] else 0
  }

  // ------------------------------------------------------------------ the page walk

  datatype Translation = NotMapped | Mapped(address: nat, flags: nat)

  /** One level: the entry of the table that index selects, unless the walk stops there. */
  function Level(mem: seq<nat>, table: nat, index: nat): nat { Read(mem, table + 8 * index) }

  /** The address in a large page of the given size. */
  function InLargePage(entry: nat, size: nat, va: nat): Translation
    requires size > 0
  {
    Mapped(Target(entry) / size * size + va % size, entry % PAGE)
  }

  function Walk(mem: seq<nat>, cr3: nat, va: nat): Translation {
    var page := va / PAGE;
    var e4 := Level(mem, cr3, page / 0x800_0000 % ENTRIES);
    if !Usable(e4) || Large(e4) then NotMapped else
    var e3 := Level(mem, Target(e4), page / 0x4_0000 % ENTRIES);
    if !Usable(e3) then NotMapped else if Large(e3) then InLargePage(e3, 0x4000_0000, va) else
    var e2 := Level(mem, Target(e3), page / ENTRIES % ENTRIES);
    if !Usable(e2) then NotMapped else if Large(e2) then InLargePage(e2, 0x20_0000, va) else
    var e1 := Level(mem, Target(e2), page % ENTRIES);
    if !Usable(e1) then NotMapped else Mapped(Target(e1) + va % PAGE, e1 % PAGE)
  }

  // ------------------------------------------------------------------ layout

  /** getNumNextPMLTables. */
  function NextTables(n: nat): nat { if n / ENTRIES == 0 then 1 else n / ENTRIES }

  /** getPrevPMLBaseAddress, on 32-bit pointers. */
  function PrevBase(base: nat, tables: nat): nat { (base + tables * ENTRIES * 8) % POINTERS }

  /** Table counts and base addresses for a number of physical pages; the name of a field is
      the level. */
  datatype Layout = Layout(pages: nat, t1: nat, t2: nat, t3: nat, t4: nat, b1: nat, b2: nat, b3: nat, b4: nat)

  function LayoutOf(base: nat, pages: nat): Layout {
    var t1 := NextTables(pages);
    var t2 := NextTables(t1);
    var t3 := NextTables(t2);
    var t4 := NextTables(t3);
    var b3 := PrevBase(base, t4);
    var b2 := PrevBase(b3, t3);
    var b1 := PrevBase(b2, t2);
    Layout(pages, t1, t2, t3, t4, b1, b2, b3, base)
  }

  datatype Flags = Flags(f1: nat, f2: nat, f3: nat, f4: nat)

  /** Flags are below the address bits and make the entry present; the upper levels do not
      ask for large pages. */
  predicate FlagsOk(f: Flags) {
    && f.f1 < PAGE && f.f2 < PAGE && f.f3 < PAGE && f.f4 < PAGE
    && Present(f.f1) && Present(f.f2) && Present(f.f3) && Present(f.f4)
    && !Large(f.f2) && !Large(f.f3) && !Large(f.f4)
  }

  /** The tables with all their zero-fill lie in memory that 32-bit pointers reach. */
  predicate Fits(base: nat, pages: nat, words: nat) {
    var tables := NextTables(NextTables(NextTables(NextTables(pages)))) + NextTables(NextTables(NextTables(pages)))
                + NextTables(NextTables(pages));
    base % PAGE == 0 && base / 8 + ENTRIES * tables + pages + pages % ENTRIES <= words && 8 * words <= POINTERS
  }

  // ------------------------------------------------------------------ the fill of one level

  /** Cell i of a level with n used entries: entry i points at target + i pages, and the
      n % 512 cells behind the last entry are zero. */
  function Cell(i: nat, target: nat, n: nat, flags: nat): nat {
    if i < n then Entry(Extended((target + PAGE * i) % POINTERS), flags) else 0
  }

  function FillLength(n: nat): nat { n + n % ENTRIES }

  /** What setPMLMem leaves in memory, b being the index of the first cell. */
  ghost predicate Filled(before: seq<nat>, after: seq<nat>, b: nat, target: nat, n: nat, flags: nat) {
    && |after| == |before|
    && (forall j :: 0 <= j < |after| ==>
          after[j] == if b <= j < b + FillLength(n) then Cell(j - b, target, n, flags) else before[j])
  }

  method SetPmlMem(mem: array<nat>, thisBase: nat, prevBase: nat, numPrevPages: nat, flags: nat)
    requires thisBase % PAGE == 0 && thisBase / 8 + FillLength(numPrevPages) <= mem.Length
    requires 8 * mem.Length <= POINTERS && prevBase < POINTERS
    modifies mem
    ensures Filled(old(mem[..]), mem[..], thisBase / 8, prevBase, numPrevPages, flags)
    ensures forall j :: 0 <= j < mem.Length ==>
      var i := j - thisBase / 8;
      mem[j] ==
        if 0 <= i < numPrevPages then
          var p := (prevBase + 4096 * i) % 0x1_0000_0000;
          Or(if p < 0x8000_0000 then p else p + 0xFFFF_FFFF_0000_0000, flags)
        else if numPrevPages <= i < numPrevPages + numPrevPages % 512 then 0
        else old(mem[j])
  {
    var at, target, n := thisBase, prevBase, numPrevPages;
    var space := numPrevPages % ENTRIES;
    ghost var b := thisBase / 8;
    while n > 0
      invariant 0 <= n <= numPrevPages && at == thisBase + 8 * (numPrevPages - n)
      invariant target == (prevBase + PAGE * (numPrevPages - n)) % POINTERS
      invariant forall j :: 0 <= j < mem.Length ==>
        mem[j] == if b <= j < b + numPrevPages - n then Cell(j - b, prevBase, numPrevPages, flags) else old(mem[j])
    {
      ghost var i := numPrevPages - n;
      assert at / 8 == b + i && Cell(i, prevBase, numPrevPages, flags) == Entry(Extended(target), flags);
      mem[at / 8] := Entry(Extended(target), flags);
      NextTarget(prevBase, i);
      at := at + 8;
      target := (target + ENTRIES * 8) % POINTERS;
      n := n - 1;
    }
    while space > 0
      invariant 0 <= space <= numPrevPages % ENTRIES
      invariant at == thisBase + 8 * (FillLength(numPrevPages) - space)
      invariant forall j :: 0 <= j < mem.Length ==>
        mem[j] == if b <= j < b + FillLength(numPrevPages) - space
                  then Cell(j - b, prevBase, numPrevPages, flags) else old(mem[j])
    {
      assert at / 8 == b + FillLength(numPrevPages) - space;
      mem[at / 8] := 0;
      at := at + 8;
      space := space - 1;
    }
  }

  lemma NextTarget(base: nat, i: nat)
    ensures ((base + PAGE * i) % POINTERS + PAGE) % POINTERS == (base + PAGE * (i + 1)) % POINTERS
  {}

  // ------------------------------------------------------------------ all four levels

  /** The cells of one level, as far as its room of whole tables goes. */
  ghost predicate LevelBuilt(mem: seq<nat>, b: nat, room: nat, target: nat, n: nat, flags: nat) {
    forall j :: b <= j < b + room && j < b + FillLength(n) && j < |mem| ==> mem[j] == Cell(j - b, target, n, flags)
  }

  ghost predicate Built(mem: seq<nat>, base: nat, pages: nat, f: Flags) {
    var l := LayoutOf(base, pages);
    && LevelBuilt(mem, l.b4 / 8, ENTRIES * l.t4, l.b3, l.t3, f.f4)
    && LevelBuilt(mem, l.b3 / 8, ENTRIES * l.t3, l.b2, l.t2, f.f3)
    && LevelBuilt(mem, l.b2 / 8, ENTRIES * l.t2, l.b1, l.t1, f.f2)
    && LevelBuilt(mem, l.b1 / 8, FillLength(pages), 0, pages, f.f1)
  }

  /** When the tables fit, no pointer wraps and each level starts where the one above ends. */
  lemma LayoutFacts(base: nat, pages: nat, words: nat)
    requires pages > 0 && Fits(base, pages, words)
    ensures var l := LayoutOf(base, pages);
      && l.b3 == base + PAGE * l.t4 && l.b2 == l.b3 + PAGE * l.t3 && l.b1 == l.b2 + PAGE * l.t2
      && l.b4 % PAGE == l.b3 % PAGE == l.b2 % PAGE == l.b1 % PAGE == 0
      && l.b4 / 8 + FillLength(l.t3) <= words && l.b3 / 8 + FillLength(l.t2) <= words
      && l.b2 / 8 + FillLength(l.t1) <= words && l.b1 / 8 + FillLength(pages) <= words
      && l.b4 < POINTERS && l.b3 < POINTERS && l.b2 < POINTERS && l.b1 < POINTERS
  {
    var l := LayoutOf(base, pages);
    NextTablesFacts(pages);
    NextTablesFacts(l.t1);
    NextTablesFacts(l.t2);
    NextTablesFacts(l.t3);
    hide NextTables;
    assert base / 8 + ENTRIES * (l.t4 + l.t3 + l.t2) + FillLength(pages) <= words;
    assert l.b3 == base + PAGE * l.t4;
    assert l.b2 == l.b3 + PAGE * l.t3;
    assert l.b1 == l.b2 + PAGE * l.t2;
  }

  /** As many tables as are filled, or one; a table that is filled in part is not counted. */
  lemma TablesAreWhole(n: nat)
    ensures if n < 512 then NextTables(n) == 1 else 512 * NextTables(n) <= n < 512 * (NextTables(n) + 1)
  {}

  lemma NextTablesFacts(n: nat)
    requires n > 0
    ensures 1 <= NextTables(n) <= n
  {}

  /** A fill leaves the levels above it alone. */
  lemma LaterFillKeeps(before: seq<nat>, after: seq<nat>, b: nat, target: nat, n: nat, flags: nat,
                       b0: nat, room: nat, target0: nat, n0: nat, flags0: nat)
    requires Filled(before, after, b, target, n, flags) && LevelBuilt(before, b0, room, target0, n0, flags0)
    requires b0 + room <= b
    ensures LevelBuilt(after, b0, room, target0, n0, flags0)
  {}

  method InitPageTables(mem: array<nat>, base: nat, size: string, f: Flags) returns (r: int)
    requires SizeKb(size) / 4 > 0 ==> Fits(base, SizeKb(size) / 4, mem.Length)
    modifies mem
    ensures SizeKb(size) / 4 == 0 ==> r == -1 && mem[..] == old(mem[..])
    ensures SizeKb(size) / 4 > 0 ==> r == 0 && Built(mem[..], base, SizeKb(size) / 4, f)
  {
    hide Filled, LevelBuilt, NextTables, PrevBase, FillLength;
    var kb := MemSizeKb(size);
    var pages := kb / 4;
    if pages == 0 { return -1; }
    var t1 := NextTables(pages);
    var t2 := NextTables(t1);
    var t3 := NextTables(t2);
    var t4 := NextTables(t3);
    var b3 := PrevBase(base, t4);
    var b2 := PrevBase(b3, t3);
    var b1 := PrevBase(b2, t2);
    LayoutFacts(base, pages, mem.Length);
    ghost var m0 := mem[..];
    SetPmlMem(mem, base, b3, t3, f.f4);
    ghost var m1 := mem[..];
    FillBuilds(m0, m1, base / 8, ENTRIES * t4, b3, t3, f.f4);
    SetPmlMem(mem, b3, b2, t2, f.f3);
    ghost var m2 := mem[..];
    FillBuilds(m1, m2, b3 / 8, ENTRIES * t3, b2, t2, f.f3);
    SetPmlMem(mem, b2, b1, t1, f.f2);
    ghost var m3 := mem[..];
    FillBuilds(m2, m3, b2 / 8, ENTRIES * t2, b1, t1, f.f2);
    SetPmlMem(mem, b1, 0, pages, f.f1);
    ghost var m4 := mem[..];
    FillBuilds(m3, m4, b1 / 8, FillLength(pages), 0, pages, f.f1);
    LaterFillKeeps(m1, m2, b3 / 8, b2, t2, f.f3, base / 8, ENTRIES * t4, b3, t3, f.f4);
    LaterFillKeeps(m2, m3, b2 / 8, b1, t1, f.f2, base / 8, ENTRIES * t4, b3, t3, f.f4);
    LaterFillKeeps(m3, m4, b1 / 8, 0, pages, f.f1, base / 8, ENTRIES * t4, b3, t3, f.f4);
    LaterFillKeeps(m2, m3, b2 / 8, b1, t1, f.f2, b3 / 8, ENTRIES * t3, b2, t2, f.f3);
    LaterFillKeeps(m3, m4, b1 / 8, 0, pages, f.f1, b3 / 8, ENTRIES * t3, b2, t2, f.f3);
    LaterFillKeeps(m3, m4, b1 / 8, 0, pages, f.f1, b2 / 8, ENTRIES * t2, b1, t1, f.f2);
    r := 0;
  }

  lemma FillBuilds(before: seq<nat>, after: seq<nat>, b: nat, room: nat, target: nat, n: nat, flags: nat)
    requires Filled(before, after, b, target, n, flags)
    ensures LevelBuilt(after, b, room, target, n, flags)
  {}

  // ------------------------------------------------------------------ the walk over them

  /** An entry made from a pointer below 2 GBytes holds it; from there on the sign extension
      sets the reserved bit. */
  lemma EntryFacts(pointer: nat, flags: nat)
    requires pointer % PAGE == 0 && pointer < POINTERS && flags < PAGE
    ensures var e := Entry(Extended(pointer), flags);
      && (if pointer < HALF then !Reserved(e) && Target(e) == pointer else Reserved(e))
      && e % PAGE == flags && (Present(e) <==> Present(flags)) && (Large(e) <==> Large(flags))
  {
    var a := Extended(pointer) / PAGE;
    assert Extended(pointer) == PAGE * a;
    OrIsSum(Extended(pointer), flags);
    HighBits(pointer, flags);
    LowPart(a, flags);
    LowBit(a, flags);
    LargeBit(a, flags);
  }

  lemma HighBits(pointer: nat, flags: nat)
    requires pointer % PAGE == 0 && pointer < POINTERS && flags < PAGE
    ensures var e := Extended(pointer) + flags;
      if pointer < HALF then !Reserved(e) && Target(e) == pointer else Reserved(e)
  {
    if pointer < HALF { assert (pointer + flags) / PAGE == pointer / PAGE; }
  }

  lemma LowPart(a: nat, flags: nat)
    requires flags < PAGE
    ensures (PAGE * a + flags) % PAGE == flags
  {}

  lemma LowBit(a: nat, flags: nat)
    ensures (PAGE * a + flags) % 2 == flags % 2
  {}

  lemma LargeBit(a: nat, flags: nat)
    ensures (PAGE * a + flags) / 128 % 2 == flags / 128 % 2
  {
    assert (PAGE * a + flags) / 128 == 32 * a + flags / 128;
  }

  /** Reading cell k of table i of a level. */
  lemma ReadCell(mem: seq<nat>, base: nat, room: nat, target: nat, n: nat, flags: nat, i: nat, k: nat)
    requires base % PAGE == 0 && LevelBuilt(mem, base / 8, room, target, n, flags)
    requires ENTRIES * i + k < room && ENTRIES * i + k < FillLength(n) && base / 8 + FillLength(n) <= |mem|
    ensures Level(mem, base + PAGE * i, k) == Cell(ENTRIES * i + k, target, n, flags)
  {
    assert (base + PAGE * i + 8 * k) / 8 == base / 8 + ENTRIES * i + k;
  }

  /** A used cell of a level holds the address of its table or page. */
  lemma ReadTable(mem: seq<nat>, base: nat, room: nat, target: nat, n: nat, flags: nat, i: nat, k: nat)
    requires base % PAGE == 0 && LevelBuilt(mem, base / 8, room, target, n, flags)
    requires ENTRIES * i + k < room && ENTRIES * i + k < n && base / 8 + FillLength(n) <= |mem|
    requires target % PAGE == 0 && flags < PAGE
    ensures var e := Level(mem, base + PAGE * i, k);
      var a := (target + PAGE * (ENTRIES * i + k)) % POINTERS;
      && (if a < HALF then !Reserved(e) && Target(e) == a else Reserved(e))
      && e % PAGE == flags && (Present(e) <==> Present(flags)) && (Large(e) <==> Large(flags))
  {
    hide LevelBuilt, Target, Present, Large, Level, Entry, Extended, Reserved;
    ReadCell(mem, base, room, target, n, flags, i, k);
    var c := ENTRIES * i + k;
    PageMultiple(target, c);
    EntryFacts((target + PAGE * c) % POINTERS, flags);
  }

  lemma PageMultiple(target: nat, c: nat)
    requires target % PAGE == 0
    ensures (target + PAGE * c) % POINTERS % PAGE == 0
  {
    assert POINTERS == PAGE * 0x10_0000;
    assert (target + PAGE * c) % PAGE == 0;
  }

  /** A count that fills whole tables, or part of the only one. */
  predicate Aligned(n: nat) { n <= ENTRIES || n % ENTRIES == 0 }

  /** The sizes the builder is right for: at most 2 GBytes, and whole tables at each level. */
  predicate SizeOk(pages: nat) {
    pages <= 0x8_0000 && Aligned(pages) && Aligned(NextTables(pages))
  }

  /** All tables lie below 2 GBytes. */
  predicate TablesLow(base: nat, pages: nat) {
    var l := LayoutOf(base, pages);
    l.b1 + PAGE * l.t1 <= HALF
  }

  ghost predicate Ready(mem: seq<nat>, base: nat, pages: nat, f: Flags) {
    pages > 0 && Fits(base, pages, |mem|) && FlagsOk(f) && Built(mem, base, pages, f)
  }

  /** An entry that leads on to the table at the given address. */
  predicate LeadsTo(entry: nat, table: nat) { Usable(entry) && !Large(entry) && Target(entry) == table }

  /** An entry that was made to lead there. */
  predicate PointsTo(entry: nat, table: nat) {
    if table < HALF then LeadsTo(entry, table) else !Usable(entry)
  }

  /** The three upper steps of the walk, given the tables met. */
  lemma WalkThrough(mem: seq<nat>, cr3: nat, va: nat, t3: nat, t2: nat, t1: nat)
    requires LeadsTo(Level(mem, cr3, va / PAGE / 0x800_0000 % ENTRIES), t3)
    requires LeadsTo(Level(mem, t3, va / PAGE / 0x4_0000 % ENTRIES), t2)
    requires LeadsTo(Level(mem, t2, va / PAGE / ENTRIES % ENTRIES), t1)
    ensures var e1 := Level(mem, t1, va / PAGE % ENTRIES);
      Walk(mem, cr3, va) == if Usable(e1) then Mapped(Target(e1) + va % PAGE, e1 % PAGE) else NotMapped
  {
    hide Level, Usable, Large, Target;
  }

  /** A walk that meets an entry it cannot use. */
  lemma WalkStops(mem: seq<nat>, cr3: nat, va: nat, t3: nat, t2: nat)
    requires var e4 := Level(mem, cr3, va / PAGE / 0x800_0000 % ENTRIES);
      !Usable(e4) || (LeadsTo(e4, t3)
        && (var e3 := Level(mem, t3, va / PAGE / 0x4_0000 % ENTRIES);
            !Usable(e3) || (LeadsTo(e3, t2) && !Usable(Level(mem, t2, va / PAGE / ENTRIES % ENTRIES)))))
    ensures Walk(mem, cr3, va) == NotMapped
  {
    hide Level, Usable, Large, Target;
  }

  /** Addresses of tables do not wrap. */
  lemma NoWrap(base: nat, pages: nat, words: nat, q: nat)
    requires pages > 0 && Fits(base, pages, words)
    ensures var l := LayoutOf(base, pages);
      && l.b3 < POINTERS && (q < l.t2 ==> l.b2 + PAGE * q < POINTERS)
      && (q < l.t1 && q < ENTRIES * l.t2 ==> l.b1 + PAGE * q < POINTERS)
  {
    LayoutFacts(base, pages, words);
  }

  /** An upper entry leads to its table, if that is below 2 GBytes. */
  lemma UpperStep(mem: seq<nat>, base: nat, room: nat, target: nat, n: nat, flags: nat, i: nat, k: nat)
    requires base % PAGE == 0 && LevelBuilt(mem, base / 8, room, target, n, flags)
    requires ENTRIES * i + k < room && ENTRIES * i + k < n && base / 8 + FillLength(n) <= |mem|
    requires target % PAGE == 0 && flags < PAGE && Present(flags) && !Large(flags)
    requires target + PAGE * (ENTRIES * i + k) < POINTERS
    ensures PointsTo(Level(mem, base + PAGE * i, k), target + PAGE * (ENTRIES * i + k))
  {
    hide LevelBuilt, Target, Present, Large, Level, FillLength, Reserved;
    ReadTable(mem, base, room, target, n, flags, i, k);
  }

  /** The place of the page's entries at the three lower levels. */
  datatype Path = Path(t3: nat, t2: nat, t1: nat)

  function PathOf(base: nat, pages: nat, p: nat): Path {
    var l := LayoutOf(base, pages);
    Path(l.b3, l.b2 + PAGE * (p / 0x4_0000), l.b1 + PAGE * (p / ENTRIES))
  }

  /** Each table on the way has room for the page. */
  predicate HasRoom(base: nat, pages: nat, p: nat) {
    var l := LayoutOf(base, pages);
    p / 0x4_0000 < ENTRIES && p / 0x4_0000 < l.t2 && p / ENTRIES < l.t1 && p / ENTRIES < ENTRIES * l.t2
  }

  /** The entries of a page, one after the other, and where each of them points. */
  ghost predicate PathBuilt(mem: seq<nat>, base: nat, p: nat, path: Path, flags: nat) {
    && PointsTo(Level(mem, base, p / 0x800_0000 % ENTRIES), path.t3)
    && PointsTo(Level(mem, path.t3, p / 0x4_0000 % ENTRIES), path.t2)
    && PointsTo(Level(mem, path.t2, p / ENTRIES % ENTRIES), path.t1)
    && PageEntry(Level(mem, path.t1, p % ENTRIES), PAGE * p % POINTERS, flags)
  }

  predicate PageEntry(entry: nat, page: nat, flags: nat) {
    if page < HALF then Usable(entry) && Target(entry) == page && entry % PAGE == flags else !Usable(entry)
  }

  lemma PathIsBuilt(mem: seq<nat>, base: nat, pages: nat, f: Flags, p: nat)
    requires Ready(mem, base, pages, f) && p < pages && p < 0x800_0000 && HasRoom(base, pages, p)
    ensures PathBuilt(mem, base, p, PathOf(base, pages, p), f.f1)
    ensures var path := PathOf(base, pages, p); path.t3 <= path.t2 <= path.t1
  {
    hide LevelBuilt, Level, Present, Large, FillLength, NextTables, PrevBase, PointsTo, PageEntry, Fits;
    var l := LayoutOf(base, pages);
    var i3, i2 := p / 0x4_0000, p / ENTRIES;
    LayoutFacts(base, pages, |mem|);
    UpperTables(base, pages);
    NoWrap(base, pages, |mem|, i3);
    NoWrap(base, pages, |mem|, i2);
    hide LayoutOf;
    Indices(p);
    UpperStep(mem, l.b4, ENTRIES * l.t4, l.b3, l.t3, f.f4, 0, 0);
    UpperStep(mem, l.b3, ENTRIES * l.t3, l.b2, l.t2, f.f3, 0, i3);
    UpperStep(mem, l.b2, ENTRIES * l.t2, l.b1, l.t1, f.f2, i3, i2 % ENTRIES);
    ReadLast(mem, l.b1, pages, f.f1, p);
  }

  /** What the walk of a page makes of tables that have room for it: it faults if a table on
      the way or the page, as a 32-bit pointer, is at or above 2 GBytes, and else comes to that
      page. */
  lemma WalkReaches(mem: seq<nat>, base: nat, pages: nat, f: Flags, va: nat)
    requires Ready(mem, base, pages, f) && va < PAGE * pages && va / PAGE < 0x800_0000
    requires HasRoom(base, pages, va / PAGE)
    ensures var q := PAGE * (va / PAGE) % POINTERS;
      Walk(mem, base, va) ==
        if PathOf(base, pages, va / PAGE).t1 < HALF && q < HALF then Mapped(q + va % PAGE, f.f1) else NotMapped
  {
    hide Ready, HasRoom, PathOf, Walk, Level, Target, Usable, LeadsTo;
    var p, path := va / PAGE, PathOf(base, pages, va / PAGE);
    PathIsBuilt(mem, base, pages, f, p);
    if path.t1 >= HALF {
      WalkStops(mem, base, va, path.t3, path.t2);
    } else {
      WalkThrough(mem, base, va, path.t3, path.t2, path.t1);
    }
  }

  lemma UpperTables(base: nat, pages: nat)
    requires pages > 0
    ensures var l := LayoutOf(base, pages); l.t1 >= 1 && l.t2 >= 1 && l.t3 >= 1 && l.t4 >= 1
  {
    var l := LayoutOf(base, pages);
    NextTablesFacts(pages);
    NextTablesFacts(l.t1);
    NextTablesFacts(l.t2);
    NextTablesFacts(l.t3);
  }

  lemma Indices(p: nat)
    requires p < 0x800_0000
    ensures p / 0x800_0000 % ENTRIES == 0 && p / 0x4_0000 % ENTRIES == p / 0x4_0000
    ensures ENTRIES * (p / 0x4_0000) + p / ENTRIES % ENTRIES == p / ENTRIES
    ensures ENTRIES * (p / ENTRIES) + p % ENTRIES == p
  {
    assert p / 0x4_0000 == p / ENTRIES / ENTRIES;
  }

  /** The page of any address below a good size is within every table's room. */
  lemma GoodSizeHasRoom(base: nat, pages: nat, p: nat)
    requires SizeOk(pages) && p < pages
    ensures HasRoom(base, pages, p)
    ensures TablesLow(base, pages) ==> PathOf(base, pages, p).t1 < HALF
  {
    var l := LayoutOf(base, pages);
    assert l.t1 <= 1024 && l.t2 <= 2;
    assert p / 0x4_0000 == p / ENTRIES / ENTRIES;
  }

  /** For a good size and low tables every address below the memory size is mapped to itself. */
  lemma WalkIsIdentity(mem: seq<nat>, base: nat, pages: nat, f: Flags, va: nat)
    requires Ready(mem, base, pages, f) && SizeOk(pages) && TablesLow(base, pages) && va < PAGE * pages
    ensures Walk(mem, base, va) == Mapped(va, f.f1)
  {
    hide Ready, Walk, LayoutOf, TablesLow, HasRoom, PathOf;
    GoodSizeHasRoom(base, pages, va / PAGE);
    WalkReaches(mem, base, pages, f, va);
    assert PAGE * (va / PAGE) < HALF;
  }

  /** The last level. */
  lemma ReadLast(mem: seq<nat>, base: nat, pages: nat, flags: nat, p: nat)
    requires base % PAGE == 0 && LevelBuilt(mem, base / 8, FillLength(pages), 0, pages, flags)
    requires p < pages && base / 8 + FillLength(pages) <= |mem| && flags < PAGE && Present(flags)
    ensures PageEntry(Level(mem, base + PAGE * (p / ENTRIES), p % ENTRIES), PAGE * p % POINTERS, flags)
  {
    hide LevelBuilt, Level, Target, Reserved, Present;
    ReadTable(mem, base, FillLength(pages), 0, pages, flags, p / ENTRIES, p % ENTRIES);
  }

  lemma LevelWord(mem: seq<nat>, base: nat, room: nat, target: nat, n: nat, flags: nat, i: nat)
    requires base % PAGE == 0 && LevelBuilt(mem, base / 8, room, target, n, flags)
    requires base / 8 + FillLength(n) <= |mem| && target % PAGE == 0 && flags < PAGE
    ensures i < n && i < room && target + 4096 * i < 0x8000_0000 ==>
      Read(mem, base + 8 * i) == target + 4096 * i + flags
  {
    if i < n && i < room && target + 4096 * i < HALF {
      assert (base + 8 * i) / 8 == base / 8 + i;
      assert mem[base / 8 + i] == Cell(i, target, n, flags);
      assert (target + PAGE * i) % POINTERS == target + PAGE * i;
      OrIsSum(target + PAGE * i, flags);
    }
  }

  /** What the words of the tables are, below 2 GBytes: word i of a level is the address of table i
      of the level below, or of page i, plus the flags of its own level. */
  lemma TableWords(mem: seq<nat>, base: nat, pages: nat, f: Flags, i: nat)
    requires Ready(mem, base, pages, f)
    ensures var l := LayoutOf(base, pages);
      && (i < l.t3 && i < 512 * l.t4 && l.b3 + 4096 * i < 0x8000_0000 ==>
            Read(mem, base + 8 * i) == l.b3 + 4096 * i + f.f4)
      && (i < l.t2 && i < 512 * l.t3 && l.b2 + 4096 * i < 0x8000_0000 ==>
            Read(mem, l.b3 + 8 * i) == l.b2 + 4096 * i + f.f3)
      && (i < l.t1 && i < 512 * l.t2 && l.b1 + 4096 * i < 0x8000_0000 ==>
            Read(mem, l.b2 + 8 * i) == l.b1 + 4096 * i + f.f2)
      && (i < pages && 4096 * i < 0x8000_0000 ==> Read(mem, l.b1 + 8 * i) == 4096 * i + f.f1)
  {
    hide LevelBuilt, NextTables, PrevBase, Present, Large, Fits, Read, FillLength;
    var l := LayoutOf(base, pages);
    LayoutFacts(base, pages, |mem|);
    LevelWord(mem, base, ENTRIES * l.t4, l.b3, l.t3, f.f4, i);
    LevelWord(mem, l.b3, ENTRIES * l.t3, l.b2, l.t2, f.f3, i);
    LevelWord(mem, l.b2, ENTRIES * l.t2, l.b1, l.t1, f.f2, i);
    LevelWord(mem, l.b1, FillLength(pages), 0, pages, f.f1, i);
    assert pages <= FillLength(pages) by { FillIsLonger(pages); }
    hide LayoutOf;
  }

  lemma FillIsLonger(n: nat)
    ensures n <= FillLength(n)
  {}

  // ------------------------------------------------------------------ where it fails

  /** The third level has a zero behind its used entries. */
  lemma StopsAtLevel3(mem: seq<nat>, base: nat, pages: nat, f: Flags, va: nat)
    requires Ready(mem, base, pages, f)
    requires var l := LayoutOf(base, pages); 0 < l.t2 < ENTRIES && va / PAGE == 0x4_0000 * l.t2
    ensures Walk(mem, base, va) == NotMapped
  {
    hide LevelBuilt, Level, Target, Present, Large, FillLength, Walk, NextTables, PrevBase, Fits, Reserved;
    var l := LayoutOf(base, pages);
    LayoutFacts(base, pages, |mem|);
    UpperTables(base, pages);
    NoWrap(base, pages, |mem|, 0);
    BigIndices(l.t2);
    hide LayoutOf;
    UpperStep(mem, l.b4, ENTRIES * l.t4, l.b3, l.t3, f.f4, 0, 0);
    ReadZero(mem, l.b3, ENTRIES * l.t3, l.b2, l.t2, f.f3);
    WalkStops(mem, base, va, l.b3, 0);
  }

  /** The second level has a zero behind its used entries. */
  lemma StopsAtLevel2(mem: seq<nat>, base: nat, pages: nat, f: Flags, va: nat)
    requires Ready(mem, base, pages, f)
    requires var l := LayoutOf(base, pages); 0 < l.t1 < ENTRIES && va / PAGE == ENTRIES * l.t1
    ensures Walk(mem, base, va) == NotMapped
  {
    hide LevelBuilt, Level, Target, Present, Large, FillLength, Walk, NextTables, PrevBase, Fits, Reserved;
    var l := LayoutOf(base, pages);
    LayoutFacts(base, pages, |mem|);
    UpperTables(base, pages);
    NoWrap(base, pages, |mem|, 0);
    BigIndices(l.t1);
    hide LayoutOf;
    UpperStep(mem, l.b4, ENTRIES * l.t4, l.b3, l.t3, f.f4, 0, 0);
    UpperStep(mem, l.b3, ENTRIES * l.t3, l.b2, l.t2, f.f3, 0, 0);
    ReadZero(mem, l.b2, ENTRIES * l.t2, l.b1, l.t1, f.f2);
    WalkStops(mem, base, va, l.b3, l.b2);
  }

  lemma BigIndices(n: nat)
    requires n < ENTRIES
    ensures 0x4_0000 * n / 0x800_0000 % ENTRIES == 0 && 0x4_0000 * n / 0x4_0000 % ENTRIES == n
    ensures ENTRIES * n / 0x800_0000 % ENTRIES == 0 && ENTRIES * n / 0x4_0000 % ENTRIES == 0
    ensures ENTRIES * n / ENTRIES % ENTRIES == n
  {}

  lemma ReadZero(mem: seq<nat>, base: nat, room: nat, target: nat, n: nat, flags: nat)
    requires base % PAGE == 0 && LevelBuilt(mem, base / 8, room, target, n, flags)
    requires 0 < n < room && n < ENTRIES && base / 8 + FillLength(n) <= |mem|
    ensures !Present(Level(mem, base, n))
  {
    ReadCell(mem, base, room, target, n, flags, 0, n);
  }

  /** From 2 GBytes on, the first address of every GByte below the memory size is lost: at 2 and
      3 GBytes its entry has the reserved bit, and from 4 GBytes on the page pointer has wrapped. */
  lemma GigabyteIsLost(mem: seq<nat>, base: nat, pages: nat, f: Flags, n: nat)
    requires Ready(mem, base, pages, f) && 2 <= n < ENTRIES && pages > 0x4_0000 * n
    ensures Walk(mem, base, 0x4000_0000 * n) != Mapped(0x4000_0000 * n, f.f1)
  {
    hide LevelBuilt, Walk, Fits, PrevBase, FlagsOk, Built, Aligned;
    var l, va := LayoutOf(base, pages), 0x4000_0000 * n;
    assert va / PAGE == 0x4_0000 * n;
    TableCounts(base, pages, n);
    if l.t2 == n {
      StopsAtLevel3(mem, base, pages, f, va);
    } else {
      WalkReaches(mem, base, pages, f, va);
    }
  }

  lemma TableCounts(base: nat, pages: nat, n: nat)
    requires 0 < n < ENTRIES && pages > 0x4_0000 * n
    ensures var l := LayoutOf(base, pages);
      l.t1 >= 512 * n && l.t2 >= n && (l.t2 > n ==> HasRoom(base, pages, 0x4_0000 * n))
  {}

  lemma LastTableIsHigh(b1: nat, t1: nat)
    requires b1 % PAGE == 0 && t1 > 0 && b1 + PAGE * t1 > HALF
    ensures b1 + PAGE * (t1 - 1) >= HALF
  {}

  lemma LastTableIsUsed(pages: nat)
    requires pages > 0
    ensures NextTables(pages) > 0 && ENTRIES * (NextTables(pages) - 1) < pages
  {}

  /** The last table is out of reach. */
  lemma HighTableIsLost(mem: seq<nat>, base: nat, pages: nat, f: Flags) returns (va: nat)
    requires Ready(mem, base, pages, f) && SizeOk(pages) && !TablesLow(base, pages)
    ensures va < PAGE * pages && Walk(mem, base, va) == NotMapped
  {
    hide LevelBuilt, Walk, Fits, PrevBase, FlagsOk, Built, SizeOk, HasRoom, NextTables;
    var l := LayoutOf(base, pages);
    LayoutFacts(base, pages, |mem|);
    LastTableIsUsed(pages);
    LastTableIsHigh(l.b1, l.t1);
    var p := ENTRIES * (l.t1 - 1);
    va := PAGE * p;
    assert p / ENTRIES == l.t1 - 1 && va / PAGE == p;
    GoodSizeHasRoom(base, pages, p);
    assert p < 0x800_0000 by { SizeIsSmall(pages); }
    WalkReaches(mem, base, pages, f, va);
  }

  lemma SizeIsSmall(pages: nat)
    requires SizeOk(pages)
    ensures pages <= 0x8_0000
  {}

  /** With a bad size or high tables some address below the memory size is unmapped or mapped
      elsewhere. */
  lemma BadSizeFails(mem: seq<nat>, base: nat, pages: nat, f: Flags) returns (va: nat)
    requires Ready(mem, base, pages, f) && !(SizeOk(pages) && TablesLow(base, pages))
    ensures va < PAGE * pages && Walk(mem, base, va) != Mapped(va, f.f1)
  {
    hide LevelBuilt, Walk, PrevBase, Fits, FlagsOk, TablesLow;
    var l := LayoutOf(base, pages);
    if pages > 0x8_0000 {
      GigabyteIsLost(mem, base, pages, f, 2);
      va := HALF;
    } else if SizeOk(pages) {
      va := HighTableIsLost(mem, base, pages, f);
    } else if l.t1 < ENTRIES {
      va := PAGE * (ENTRIES * l.t1);
      StopsAtLevel2(mem, base, pages, f, va);
    } else {
      va := PAGE * (0x4_0000 * l.t2);
      StopsAtLevel3(mem, base, pages, f, va);
    }
  }

  /** The page tables map the whole memory to itself if and only if its size is good and the
      tables lie below 2 GBytes. */
  lemma IdentityIffGood(mem: seq<nat>, base: nat, pages: nat, f: Flags)
    requires Ready(mem, base, pages, f)
    ensures (forall va :: 0 <= va < PAGE * pages ==> Walk(mem, base, va) == Mapped(va, f.f1))
       <==> SizeOk(pages) && TablesLow(base, pages)
  {
    hide Ready, Walk, SizeOk, TablesLow;
    if SizeOk(pages) && TablesLow(base, pages) {
      forall va | 0 <= va < PAGE * pages
        ensures Walk(mem, base, va) == Mapped(va, f.f1)
      {
        WalkIsIdentity(mem, base, pages, f, va);
      }
    } else {
      var va := BadSizeFails(mem, base, pages, f);
    }
  }

  /** In pages, a good size is at most one table of pages (2 MBytes), or a whole number of 2 MBytes up
      to 1 GByte, or 2 GBytes; and the tables lie low if and only if they end at 2 GBytes at most. */
  lemma GoodSizes(base: nat, pages: nat, words: nat)
    requires pages > 0 && Fits(base, pages, words)
    ensures SizeOk(pages) <==> pages <= 512 || (pages % 512 == 0 && (pages <= 0x4_0000 || pages == 0x8_0000))
    ensures SizeOk(pages) ==>
      (TablesLow(base, pages) <==>
        base + 4096 * (2 + (if pages < 0x4_0000 then 1 else pages / 0x4_0000)
                         + (if pages < 512 then 1 else pages / 512)) <= 0x8000_0000)
  {
    LayoutFacts(base, pages, words);
    hide Fits;
  }

  /** The size and the place that the kernel boots with. */
  lemma BootSizeIsGood()
    ensures SizeKb("1G") / 4 == 0x4_0000 && SizeOk(0x4_0000) && TablesLow(0x120_0000, 0x4_0000)
    ensures FlagsOk(Flags(3, 3, 3, 3))
  {
    assert "1G"[..1] == "1";
    assert "1"[..0] == "";
    assert Decimal("1") == 1;
  }

  lemma BadSizes()
    ensures SizeKb("3M") / 4 == 768 && !SizeOk(768) && NextTables(768) == 1
    ensures SizeKb("3G") / 4 == 0xC_0000 && !SizeOk(0xC_0000)
  {
    assert "3M"[..1] == "3" && "3G"[..1] == "3";
    assert "3"[..0] == "";
    assert Decimal("3") == 3;
  }

  /** Two sizes that the builder accepts and that are not good: of 3 MBytes the last one is not
      mapped, and of 3 GBytes the last one not to itself. */
  lemma BadSizeWitnesses(mem: seq<nat>, base: nat, f: Flags)
    ensures Ready(mem, base, SizeKb("3M") / 4, f) ==>
      0x20_0000 < 0x400 * SizeKb("3M") && Walk(mem, base, 0x20_0000) == NotMapped
    ensures Ready(mem, base, SizeKb("3G") / 4, f) ==>
      HALF < 0x400 * SizeKb("3G") && Walk(mem, base, HALF) != Mapped(HALF, f.f1)
  {
    hide Ready, Walk, SizeKb, SizeOk, NextTables;
    BadSizes();
    if Ready(mem, base, 768, f) { StopsAtLevel2(mem, base, 768, f, 0x20_0000); }
    if Ready(mem, base, 0xC_0000, f) { GigabyteIsLost(mem, base, 0xC_0000, f, 2); }
  }

  // ------------------------------------------------------------------ the size string

  function DigitOf(c: char): nat { if Numerals.IsDigit(c) then c as int - '0' as int else 0 }

  lemma AddDigit(bytes: nat, d: nat)
    ensures (bytes * 10 % WORD64 + d) % WORD64 == (bytes * 10 + d) % WORD64
  {}

  /** The value of the leading digits, in 64-bit arithmetic. */
  function Decimal(digits: string): nat {
    if digits == "" then 0
    else (Decimal(digits[..|digits| - 1]) * 10 + DigitOf(digits[|digits| - 1])) % WORD64
  }

  function Unit(c: char): nat {
    match c
    case 'K' => 1
    case 'M' => 0x400
    case 'G' => 0x10_0000
    case 'T' => 0x4000_0000
    case _ => 0
  }

  /** A size is digits and one unit letter, nothing before and nothing after; else it is 0. */
  function SizeKb(size: string): nat {
    var n := |size| - 1;
    if n >= 1 && (forall i :: 0 <= i < n ==> Numerals.IsDigit(size[i])) && !Numerals.IsDigit(size[n])
    then Decimal(size[..n]) * Unit(size[n]) % WORD64
    else 0
  }

  lemma {:induction false} DecimalIsAscii(digits: string)
    requires forall i :: 0 <= i < |digits| ==> 48 <= digits[i] as int <= 57
    ensures Decimal(digits) == Numerals.AsciiValue(digits) % WORD64
  {
    if digits != "" {
      var front, d := digits[..|digits| - 1], digits[|digits| - 1] as int - 48;
      DecimalIsAscii(front);
      ScaleModulo(Numerals.AsciiValue(front), 10, d);
    }
  }

  lemma ScaleModulo(v: int, f: nat, d: nat)
    ensures (v % WORD64 * f + d) % WORD64 == (v * f + d) % WORD64
  {
    var q := v / WORD64;
    assert v == WORD64 * q + v % WORD64;
    assert v * f + d == v % WORD64 * f + d + WORD64 * (q * f);
    AddMultiple(v % WORD64 * f + d, q * f);
  }

  lemma AddMultiple(x: int, q: int)
    ensures (x + WORD64 * q) % WORD64 == x % WORD64
  {}

  /** Digits and one of the letters K, M, G, T give that many KBytes, MBytes, GBytes or TBytes, in
      KBytes and modulo 2^64. */
  lemma SizeReads(digits: string, unit: char)
    requires digits != "" && forall i :: 0 <= i < |digits| ==> '0' <= digits[i] <= '9'
    ensures var v, kb := Numerals.AsciiValue(digits), SizeKb(digits + [unit]);
      && (unit == 'K' ==> kb == v % 0x1_0000_0000_0000_0000)
      && (unit == 'M' ==> kb == v * 1024 % 0x1_0000_0000_0000_0000)
      && (unit == 'G' ==> kb == v * 1048576 % 0x1_0000_0000_0000_0000)
      && (unit == 'T' ==> kb == v * 1073741824 % 0x1_0000_0000_0000_0000)
  {
    var size := digits + [unit];
    assert size[..|digits|] == digits && size[|digits|] == unit;
    DecimalIsAscii(digits);
    ScaleModulo(Numerals.AsciiValue(digits), Unit(unit), 0);
    hide Decimal, Numerals.AsciiValue;
  }

  /** Every other string is refused. */
  lemma SizeRefuses(size: string)
    requires SizeKb(size) != 0
    ensures |size| >= 2 && size[|size| - 1] in {'K', 'M', 'G', 'T'}
    ensures forall i :: 0 <= i < |size| - 1 ==> 48 <= size[i] as int <= 57
  {}

  /** memSize_KB; the string ends with a NUL that is not part of size. */
  method MemSizeKb(size: string) returns (kb: nat)
    ensures kb == SizeKb(size)
  {
    var i := 0;
    if i == |size| || !Numerals.IsDigit(size[i]) { return 0; }
    var bytes := 0;
    while i < |size| && Numerals.IsDigit(size[i])
      invariant 0 <= i <= |size| && bytes == Decimal(size[..i])
      invariant forall j :: 0 <= j < i ==> Numerals.IsDigit(size[j])
      invariant i > 0 || Numerals.IsDigit(size[0])
    {
      assert size[..i + 1][..i] == size[..i];
      AddDigit(bytes, DigitOf(size[i]));
      bytes := bytes * 10 % WORD64;
      bytes := (bytes + DigitOf(size[i])) % WORD64;
      i := i + 1;
    }
    if i == |size| { return 0; }
    var unit := size[i];
    i := i + 1;
    match unit {
      case 'K' =>
      case 'M' => bytes := bytes * 0x400 % WORD64;
      case 'G' => bytes := bytes * 0x10_0000 % WORD64;
      case 'T' => bytes := bytes * 0x4000_0000 % WORD64;
      case _ => return 0;
    }
    if i == |size| { return bytes; }
    return 0;
  }
}
