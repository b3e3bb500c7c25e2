/**
 The two passes of kexec_load over the program headers: the first validates and
 counts pages, the second allocates a frame per page and fills it. The staged pages
 are the ELF image, byte for byte, and a failure gives every allocated frame back.
 */
module KexecLoad {
  import opened Machine

  const PAGE_SIZE: nat := 4096
  const KERNEL_IMAGE_BASE: nat := 0xFFFF_FFFF_8000_0000
  const KEXEC_MAX_IMAGE_SIZE: nat := 0x1000_0000
  const KEXEC_MAX_PAGES: nat := 65536

  type Word = x: int | 0 <= x < U64

  datatype Phdr = Phdr(isLoad: bool, writable: bool, executable: bool,
                       vaddr: Word, offset: Word, filesz: Word, memsz: Word)

  /** Reading a program header from the file yields it or comes up short. */
  datatype HeaderRead = Short | Header(ph: Phdr)

  datatype Page = Page(vaddr: nat, phys: nat, writable: bool, noExec: bool, bytes: seq<Byte>)

  datatype Result = Staged | ENOEXEC | ENOMEM | EIO

  // ------------------------------------------------------------ the image, as specified

  predicate Relevant(ph: Phdr)
  {
    ph.isLoad && ph.memsz != 0
  }

  predicate Acceptable(ph: Phdr)
  {
    && ph.filesz <= ph.memsz
    && KERNEL_IMAGE_BASE <= ph.vaddr
    && ph.vaddr + ph.memsz <= KERNEL_IMAGE_BASE + KEXEC_MAX_IMAGE_SIZE
  }

  function Down(x: nat): nat
  {
    x - x % PAGE_SIZE
  }

  function Up(x: nat): nat
  {
    Down(x + PAGE_SIZE - 1)
  }

  /** One page of a segment. */
  datatype Slot = Slot(ph: Phdr, vaddr: nat)

  function PageCount(ph: Phdr): nat
  {
    (Up(ph.vaddr + ph.memsz) - Down(ph.vaddr)) / PAGE_SIZE
  }

  function SegmentSlots(ph: Phdr): (s: seq<Slot>)
  {
    if !Relevant(ph) then []
    else seq(PageCount(ph), k requires 0 <= k => Slot(ph, Down(ph.vaddr) + k * PAGE_SIZE))
  }

  function Slots(hs: seq<HeaderRead>): seq<Slot>
  {
    if hs == [] then []
    else
      var last := hs[|hs| - 1];
      Slots(hs[..|hs| - 1]) + (if last.Header? then SegmentSlots(last.ph) else [])
  }

  /** What the image holds at address `a` of a segment: the file byte inside the
      file-backed part, zero elsewhere. */
  function ImageByte(file: seq<Byte>, ph: Phdr, a: nat): Byte
  {
    if ph.vaddr <= a < ph.vaddr + ph.filesz && ph.offset + (a - ph.vaddr) < |file|
    then file[ph.offset + (a - ph.vaddr)]
    else 0
  }

  predicate DataPresent(file: seq<Byte>, ph: Phdr)
  {
    ph.filesz == 0 || ph.offset + ph.filesz <= |file|
  }

  ghost predicate PageIs(p: Page, s: Slot, file: seq<Byte>)
  {
    && p.vaddr == s.vaddr
    && p.writable == s.ph.writable && p.noExec == !s.ph.executable
    && HoldsImage(p.bytes, file, s.ph, s.vaddr) && PageReadable(file, s.ph, s.vaddr)
  }

  /** The bytes of a page are those of the image from `vaddr` on. */
  ghost predicate HoldsImage(bytes: seq<Byte>, file: seq<Byte>, ph: Phdr, vaddr: nat)
  {
    |bytes| == PAGE_SIZE && forall k | 0 <= k < PAGE_SIZE :: bytes[k] == ImageByte(file, ph, vaddr + k)
  }

  ghost predicate PagesAre(pages: seq<Page>, slots: seq<Slot>, file: seq<Byte>)
  {
    |pages| == |slots| && forall i | 0 <= i < |pages| :: PageIs(pages[i], slots[i], file)
  }

  ghost predicate AllAcceptable(hs: seq<HeaderRead>)
  {
    forall i | 0 <= i < |hs| :: hs[i].Header? && (Relevant(hs[i].ph) ==> Acceptable(hs[i].ph))
  }

  // -------------------------------------------------------------------------- pass 1

  /** The range check of pass 1, in 64-bit arithmetic, accepts exactly the segments
      that lie inside the window. */
  lemma RangeCheck(ph: Phdr)
    ensures var end := (ph.vaddr + ph.memsz) % U64;
            ph.filesz > ph.memsz || ph.vaddr < KERNEL_IMAGE_BASE || end < ph.vaddr
            || end > KERNEL_IMAGE_BASE + KEXEC_MAX_IMAGE_SIZE
            <==> !Acceptable(ph)
  {
  }

  lemma PagesInSegment(ph: Phdr)
    requires Relevant(ph) && Acceptable(ph)
    ensures PageCount(ph) > 0
    ensures Down(ph.vaddr) + PageCount(ph) * PAGE_SIZE == Up(ph.vaddr + ph.memsz) < U64
    ensures |SegmentSlots(ph)| == PageCount(ph)
  {
  }

  lemma SlotsGrow(hs: seq<HeaderRead>, i: nat)
    requires i < |hs|
    ensures Slots(hs[..i + 1]) == Slots(hs[..i]) + (if hs[i].Header? then SegmentSlots(hs[i].ph) else [])
  {
    assert hs[..i + 1][..i] == hs[..i];
  }

  /** The checks of pass 1 on one segment, and the pages it needs. */
  method CheckSegment(ph: Phdr) returns (ok: bool, n: nat)
    requires Relevant(ph)
    ensures ok <==> Acceptable(ph)
    ensures ok ==> n == |SegmentSlots(ph)|
  {
    RangeCheck(ph);
    n := 0;
    var end := (ph.vaddr + ph.memsz) % U64;
    if ph.filesz > ph.memsz || ph.vaddr < KERNEL_IMAGE_BASE || end < ph.vaddr
       || end > KERNEL_IMAGE_BASE + KEXEC_MAX_IMAGE_SIZE {
      return false, n;
    }
    PagesInSegment(ph);
    return true, (Up(end) - Down(ph.vaddr)) / PAGE_SIZE;
  }

  method Validate(hs: seq<HeaderRead>) returns (ok: bool, total: nat)
    ensures ok <==> AllAcceptable(hs) && 0 < |Slots(hs)| <= KEXEC_MAX_PAGES
    ensures ok ==> total == |Slots(hs)|
  {
    total := 0;
    var i := 0;
    while i < |hs|
      invariant 0 <= i <= |hs|
      invariant AllAcceptable(hs[..i]) && total == |Slots(hs[..i])|
    {
      SlotsGrow(hs, i);
      if hs[i].Short? {
        return false, 0;
      }
      var ph := hs[i].ph;
      if Relevant(ph) {
        var fits, n := CheckSegment(ph);
        if !fits {
          return false, 0;
        }
        total := total + n;
      }
      i := i + 1;
    }
    assert hs[..|hs|] == hs;
    ok := 0 < total <= KEXEC_MAX_PAGES;
  }

  // -------------------------------------------------------------------------- pass 2

  /** vfs_read at a position: as many bytes as the file has there. */
  function ReadAt(file: seq<Byte>, pos: nat, n: nat): seq<Byte>
  {
    if pos >= |file| then [] else file[pos..Min(pos + n, |file|)]
  }

  /** The file position of the byte at address `a`, in 64-bit arithmetic. */
  function FilePos(ph: Phdr, a: nat): nat
    requires ph.vaddr <= a
  {
    (ph.offset + (a - ph.vaddr)) % U64
  }

  /** The position does not wrap on a segment's first page, nor on any later page once
      the first has been read: the file is far smaller than 2^64 bytes. */
  predicate NoWrap(file: seq<Byte>, ph: Phdr, vaddr: nat)
  {
    && |file| <= KEXEC_MAX_IMAGE_SIZE && ph.filesz <= KEXEC_MAX_IMAGE_SIZE
    && (vaddr <= ph.vaddr || ph.filesz == 0 || ph.offset < |file|)
  }

  /** The file-backed part of the page lies inside the file. */
  predicate PageReadable(file: seq<Byte>, ph: Phdr, vaddr: nat)
  {
    var start := Max(vaddr, ph.vaddr);
    var end := Min(vaddr + PAGE_SIZE, ph.vaddr + ph.filesz);
    start < end ==> ph.offset + (end - ph.vaddr) <= |file|
  }

  lemma ShortRead(file: seq<Byte>, ph: Phdr, vaddr: nat, start: nat, end: nat)
    requires NoWrap(file, ph, vaddr)
    requires start == Max(vaddr, ph.vaddr) < end == Min(vaddr + PAGE_SIZE, ph.vaddr + ph.filesz)
    ensures var got := ReadAt(file, FilePos(ph, start), end - start);
            && |got| <= end - start
            && (|got| == end - start <==> PageReadable(file, ph, vaddr))
            && (|got| == end - start ==> got == file[ph.offset + (start - ph.vaddr)..ph.offset + (end - ph.vaddr)])
  {
    assert vaddr <= ph.vaddr ==> start == ph.vaddr && FilePos(ph, start) == ph.offset;
    assert vaddr > ph.vaddr ==> FilePos(ph, start) == ph.offset + (start - ph.vaddr);
  }

  lemma AssembledPage(file: seq<Byte>, ph: Phdr, vaddr: nat, start: nat, end: nat, bytes: seq<Byte>)
    requires start == Max(vaddr, ph.vaddr) < end == Min(vaddr + PAGE_SIZE, ph.vaddr + ph.filesz)
    requires ph.offset + (end - ph.vaddr) <= |file|
    requires bytes == Zeros(start - vaddr) + file[ph.offset + (start - ph.vaddr)..ph.offset + (end - ph.vaddr)]
                      + Zeros(PAGE_SIZE - (end - vaddr))
    ensures HoldsImage(bytes, file, ph, vaddr)
  {
    forall k | 0 <= k < PAGE_SIZE
      ensures bytes[k] == ImageByte(file, ph, vaddr + k)
    {
      var a := vaddr + k;
      if start <= a < end {
        assert bytes[k] == file[ph.offset + (a - ph.vaddr)];
      }
    }
  }

  lemma BlankPage(file: seq<Byte>, ph: Phdr, vaddr: nat, start: nat, end: nat)
    requires end <= start == Max(vaddr, ph.vaddr) && end == Min(vaddr + PAGE_SIZE, ph.vaddr + ph.filesz)
    ensures PageReadable(file, ph, vaddr) && HoldsImage(Zeros(PAGE_SIZE), file, ph, vaddr)
  {
  }

  /** Fill one page: zeros before the file-backed part, the file's bytes, zeros after. */
  method FillPage(file: seq<Byte>, ph: Phdr, vaddr: nat) returns (ok: bool, bytes: seq<Byte>)
    requires NoWrap(file, ph, vaddr)
    ensures ok == PageReadable(file, ph, vaddr)
    ensures ok ==> HoldsImage(bytes, file, ph, vaddr)
  {
    var pageEnd := vaddr + PAGE_SIZE;
    var dataEnd := ph.vaddr + ph.filesz;
    var start := if vaddr < ph.vaddr then ph.vaddr else vaddr;
    var end := if pageEnd < dataEnd then pageEnd else dataEnd;
    if end > start {
      ok, bytes := FillFromFile(file, ph, vaddr, start, end);
    } else {
      ok, bytes := true, Zeros(PAGE_SIZE);
      BlankPage(file, ph, vaddr, start, end);
    }
  }

  /** A page with a file-backed part. */
  method FillFromFile(file: seq<Byte>, ph: Phdr, vaddr: nat, start: nat, end: nat) returns (ok: bool, bytes: seq<Byte>)
    requires NoWrap(file, ph, vaddr)
    requires start == Max(vaddr, ph.vaddr) < end == Min(vaddr + PAGE_SIZE, ph.vaddr + ph.filesz)
    ensures ok == PageReadable(file, ph, vaddr)
    ensures ok ==> HoldsImage(bytes, file, ph, vaddr)
  {
    var pageOff := start - vaddr;
    var readBytes := end - start;
    ShortRead(file, ph, vaddr, start, end);
    var got := ReadAt(file, FilePos(ph, start), readBytes);
    ok, bytes := |got| == readBytes, [];
    if ok {
      bytes := Zeros(pageOff) + got + Zeros(PAGE_SIZE - (pageOff + readBytes));
      AssembledPage(file, ph, vaddr, start, end, bytes);
    }
  }

  // --------------------------------------------------------------------- the frames

  function Frames(pages: seq<Page>): (f: set<nat>)
  {
    if pages == [] then {} else Frames(pages[..|pages| - 1]) + {pages[|pages| - 1].phys}
  }

  lemma {:induction false} FrameOf(pages: seq<Page>, f: nat)
    ensures f in Frames(pages) <==> exists i :: 0 <= i < |pages| && pages[i].phys == f
  {
    if pages != [] {
      var front := pages[..|pages| - 1];
      FrameOf(front, f);
      assert forall i | 0 <= i < |front| :: front[i] == pages[i];
    }
  }

  /** The frames of the pages came out of the pool, each once, and no other did. */
  ghost predicate TakenFrom(pages: seq<Page>, pool: set<nat>, pool0: set<nat>)
  {
    && Frames(pages) !! pool
    && Frames(pages) + pool == pool0
    && |pool0| == |pool| + |pages|
    && forall i, j | 0 <= i < j < |pages| :: pages[i].phys != pages[j].phys
  }

  lemma TakeOne(pages: seq<Page>, pool: set<nat>, pool0: set<nat>, p: Page)
    requires TakenFrom(pages, pool, pool0) && p.phys in pool
    ensures TakenFrom(pages + [p], pool - {p.phys}, pool0)
  {
    var pages' := pages + [p];
    assert pages'[..|pages|] == pages;
    forall i | 0 <= i < |pages|
      ensures pages[i].phys != p.phys
    {
      FrameOf(pages, pages[i].phys);
    }
  }

  /** k pages of the segment are staged behind pages0, and `vaddr` is the next one. */
  ghost predicate Loading(file: seq<Byte>, ph: Phdr, pages0: seq<Page>, pages: seq<Page>, vaddr: nat, k: nat)
  {
    && k <= |SegmentSlots(ph)|
    && vaddr == Down(ph.vaddr) + k * PAGE_SIZE
    && |pages| == |pages0| + k && pages[..|pages0|] == pages0
    && PagesAre(pages[|pages0|..], SegmentSlots(ph)[..k], file)
    && ReadSoFar(file, ph, vaddr, k)
  }

  /** The body of the page loop: allocate a frame, fill it, record it. */
  method StagePage(file: seq<Byte>, ph: Phdr, pages1: seq<Page>, pool1: set<nat>, vaddr: nat,
                   ghost pages0: seq<Page>, ghost all: set<nat>, ghost k: nat)
    returns (rc: Result, pages: seq<Page>, pool: set<nat>)
    requires Relevant(ph) && |file| <= KEXEC_MAX_IMAGE_SIZE && ph.filesz <= KEXEC_MAX_IMAGE_SIZE
    requires TakenFrom(pages1, pool1, all)
    requires Loading(file, ph, pages0, pages1, vaddr, k) && k < |SegmentSlots(ph)|
    ensures TakenFrom(pages, pool, all)
    ensures rc in {Staged, ENOMEM, EIO}
    ensures rc == Staged ==> Loading(file, ph, pages0, pages, vaddr + PAGE_SIZE, k + 1)
    ensures rc != Staged ==> pages == pages1 && pool == pool1 && (rc == ENOMEM <==> pool1 == {})
    ensures rc == EIO ==> !DataPresent(file, ph) && !PageReadable(file, ph, vaddr)
  {
    pages, pool := pages1, pool1;
    if pool == {} {
      return ENOMEM, pages, pool;
    }
    var phys :| phys in pool;
    pool := pool - {phys};
    var ok, p := FillFrame(file, ph, vaddr, phys);
    if !ok {
      pool := FreePage(pool, phys);
      assert pool == pool1;
      return EIO, pages, pool;
    }
    TakeOne(pages, pool1, all, p);
    LoadOne(file, ph, pages0, pages, vaddr, k, p);
    return Staged, pages + [p], pool;
  }

  /** The page of a segment at an address, in a frame. */
  method FillFrame(file: seq<Byte>, ph: Phdr, vaddr: nat, phys: nat) returns (ok: bool, p: Page)
    requires NoWrap(file, ph, vaddr)
    ensures ok == PageReadable(file, ph, vaddr) && (!ok ==> !DataPresent(file, ph))
    ensures p.phys == phys && (ok ==> PageIs(p, Slot(ph, vaddr), file))
  {
    var bytes;
    ok, bytes := FillPage(file, ph, vaddr);
    if !ok {
      PageMissing(file, ph, vaddr);
    }
    p := Page(vaddr, phys, ph.writable, !ph.executable, bytes);
  }

  lemma LoadOne(file: seq<Byte>, ph: Phdr, pages0: seq<Page>, pages: seq<Page>, vaddr: nat, k: nat, p: Page)
    requires Relevant(ph) && Loading(file, ph, pages0, pages, vaddr, k) && k < |SegmentSlots(ph)|
    requires PageReadable(file, ph, vaddr) && PageIs(p, Slot(ph, vaddr), file)
    ensures Loading(file, ph, pages0, pages + [p], vaddr + PAGE_SIZE, k + 1)
  {
    assert SegmentSlots(ph)[k] == Slot(ph, vaddr);
    StageOne(pages, pages0, p, SegmentSlots(ph), k, file);
    ReadOneMore(file, ph, vaddr, k);
  }

  /** The page loop over one segment. */
  method LoadSegment(file: seq<Byte>, ph: Phdr, pages0: seq<Page>, pool0: set<nat>, ghost all: set<nat>)
    returns (rc: Result, pages: seq<Page>, pool: set<nat>)
    requires Relevant(ph) && Acceptable(ph) && |file| <= KEXEC_MAX_IMAGE_SIZE
    requires TakenFrom(pages0, pool0, all)
    ensures TakenFrom(pages, pool, all)
    ensures rc in {Staged, ENOMEM, EIO}
    ensures rc == Staged <==> DataPresent(file, ph) && |pool0| >= |SegmentSlots(ph)|
    ensures |pages0| <= |pages| && pages[..|pages0|] == pages0
    ensures rc == Staged ==> PagesAre(pages[|pages0|..], SegmentSlots(ph), file)
    ensures rc != Staged ==> Stopped(file, SegmentSlots(ph), pages[|pages0|..], pool, rc)
  {
    PagesInSegment(ph);
    pages, pool := pages0, pool0;
    var vaddr := Down(ph.vaddr);
    var endVaddr := Up(ph.vaddr + ph.memsz);
    ghost var k := 0;
    while vaddr < endVaddr
      invariant TakenFrom(pages, pool, all)
      invariant Loading(file, ph, pages0, pages, vaddr, k)
      decreases endVaddr - vaddr
    {
      rc, pages, pool := StagePage(file, ph, pages, pool, vaddr, pages0, all, k);
      if rc != Staged {
        StoppedAt(file, ph, pages0, pages, pool, vaddr, k, rc);
        return;
      }
      vaddr := vaddr + PAGE_SIZE;
      k := k + 1;
    }
    assert SegmentSlots(ph)[..k] == SegmentSlots(ph);
    rc := Staged;
  }

  /** The pages before one that has no frame, or whose data the file does not have. */
  ghost predicate Stopped(file: seq<Byte>, slots: seq<Slot>, pages: seq<Page>, pool: set<nat>, rc: Result)
  {
    && |pages| < |slots| && PagesAre(pages, slots[..|pages|], file)
    && (rc == ENOMEM <==> pool == {})
    && (rc == EIO ==> !PageReadable(file, slots[|pages|].ph, slots[|pages|].vaddr))
    && rc in {ENOMEM, EIO}
  }

  lemma StoppedAt(file: seq<Byte>, ph: Phdr, pages0: seq<Page>, pages: seq<Page>, pool: set<nat>, vaddr: nat, k: nat, rc: Result)
    requires Relevant(ph) && Loading(file, ph, pages0, pages, vaddr, k) && k < |SegmentSlots(ph)|
    requires rc in {ENOMEM, EIO} && (rc == ENOMEM <==> pool == {}) && (rc == EIO ==> !PageReadable(file, ph, vaddr))
    ensures Stopped(file, SegmentSlots(ph), pages[|pages0|..], pool, rc)
  {
    assert SegmentSlots(ph)[k] == Slot(ph, vaddr);
  }

  /** After k pages, the file-backed bytes below `vaddr` have been seen to exist. */
  ghost predicate ReadSoFar(file: seq<Byte>, ph: Phdr, vaddr: nat, k: nat)
  {
    && (k == 0 ==> vaddr <= ph.vaddr)
    && (k > 0 && ph.filesz > 0 ==>
          vaddr > ph.vaddr && ph.offset + (Min(vaddr, ph.vaddr + ph.filesz) - ph.vaddr) <= |file| && ph.offset < |file|)
  }

  lemma ReadOneMore(file: seq<Byte>, ph: Phdr, vaddr: nat, k: nat)
    requires ReadSoFar(file, ph, vaddr, k) && PageReadable(file, ph, vaddr)
    requires vaddr == Down(ph.vaddr) + k * PAGE_SIZE
    ensures ReadSoFar(file, ph, vaddr + PAGE_SIZE, k + 1)
  {
  }

  lemma PageMissing(file: seq<Byte>, ph: Phdr, vaddr: nat)
    requires !PageReadable(file, ph, vaddr)
    ensures !DataPresent(file, ph)
  {
  }

  lemma StageOne(pages: seq<Page>, pages0: seq<Page>, p: Page, slots: seq<Slot>, k: nat, file: seq<Byte>)
    requires |pages| == |pages0| + k && pages[..|pages0|] == pages0 && k < |slots|
    requires PagesAre(pages[|pages0|..], slots[..k], file) && PageIs(p, slots[k], file)
    ensures (pages + [p])[..|pages0|] == pages0
    ensures PagesAre((pages + [p])[|pages0|..], slots[..k + 1], file)
  {
    assert (pages + [p])[|pages0|..] == pages[|pages0|..] + [p];
    assert slots[..k + 1] == slots[..k] + [slots[k]];
  }

  /** The cleanup loop: give every frame back. A frame already in the pool must not be
      freed again. */
  method FreeAll(pages: seq<Page>, pool0: set<nat>, ghost all: set<nat>) returns (pool: set<nat>)
    requires TakenFrom(pages, pool0, all)
    ensures pool == all
  {
    pool := pool0;
    forall k | 0 <= k < |pages|
      ensures pages[k].phys in all && pages[k].phys !in pool0
    {
      FrameOf(pages, pages[k].phys);
    }
    var i := 0;
    while i < |pages|
      invariant 0 <= i <= |pages|
      invariant forall k | i <= k < |pages| :: pages[k].phys !in pool
      invariant pool0 <= pool <= all
      invariant forall k | 0 <= k < i :: pages[k].phys in pool
    {
      pool := FreePage(pool, pages[i].phys);
      i := i + 1;
    }
    forall f | f in all
      ensures f in pool
    {
      FrameOf(pages, f);
      if f !in pool0 {
        var k :| 0 <= k < |pages| && pages[k].phys == f;
      }
    }
  }

  method FreePage(pool: set<nat>, f: nat) returns (pool': set<nat>)
    requires f !in pool
    ensures pool' == pool + {f}
  {
    pool' := pool + {f};
  }

  // ----------------------------------------------------------------------- the whole

  ghost predicate AllPresent(file: seq<Byte>, hs: seq<HeaderRead>)
  {
    forall i | 0 <= i < |hs| && hs[i].Header? && Relevant(hs[i].ph) :: DataPresent(file, hs[i].ph)
  }

  ghost predicate Progress(file: seq<Byte>, hs: seq<HeaderRead>, i: nat, pages: seq<Page>)
  {
    i <= |hs| && PagesAre(pages, Slots(hs[..i]), file) && AllPresent(file, hs[..i])
  }

  /** One program header of pass 2. */
  method LoadHeader(file: seq<Byte>, hs: seq<HeaderRead>, i: nat, pages0: seq<Page>, pool0: set<nat>, ghost all: set<nat>)
    returns (rc: Result, pages: seq<Page>, pool: set<nat>)
    requires i < |hs| && AllAcceptable(hs) && |file| <= KEXEC_MAX_IMAGE_SIZE
    requires TakenFrom(pages0, pool0, all) && Progress(file, hs, i, pages0)
    ensures TakenFrom(pages, pool, all)
    ensures rc in {Staged, ENOMEM, EIO}
    ensures rc == Staged ==> Progress(file, hs, i + 1, pages)
    ensures rc != Staged ==> !(AllPresent(file, hs) && |all| >= |Slots(hs)|) && Stopped(file, Slots(hs), pages, pool, rc)
  {
    pages, pool := pages0, pool0;
    var ph := hs[i].ph;
    if !Relevant(ph) {
      SkipHeader(file, hs, i, pages0);
      return Staged, pages, pool;
    }
    rc, pages, pool := LoadSegment(file, ph, pages, pool, all);
    if rc == Staged {
      AddHeader(file, hs, i, pages0, pages);
    } else {
      CannotLoad(file, hs, i, pages0, pool0, all);
      StoppedInAll(file, hs, i, pages0, pages, pool, rc);
    }
  }

  lemma StoppedInAll(file: seq<Byte>, hs: seq<HeaderRead>, i: nat, pages0: seq<Page>, pages: seq<Page>, pool: set<nat>, rc: Result)
    requires i < |hs| && hs[i].Header? && Progress(file, hs, i, pages0)
    requires |pages0| <= |pages| && pages[..|pages0|] == pages0
    requires Stopped(file, SegmentSlots(hs[i].ph), pages[|pages0|..], pool, rc)
    ensures Stopped(file, Slots(hs), pages, pool, rc)
  {
    SlotsGrow(hs, i);
    SlotsPrefix(hs, i);
    var before, more, n := Slots(hs[..i]), SegmentSlots(hs[i].ph), |pages| - |pages0|;
    PagesJoin(pages0, before, pages, more[..n], file);
    assert Slots(hs)[|pages|] == (before + more)[|pages|] == more[n];
    assert Slots(hs)[..|pages|] == (before + more)[..|pages|] == before + more[..n];
  }

  /** What a load that stopped says, of the frames there were and the data of the pages. */
  lemma StoppedSays(file: seq<Byte>, slots: seq<Slot>, pages: seq<Page>, pool: set<nat>, all: set<nat>, rc: Result)
    requires Stopped(file, slots, pages, pool, rc) && TakenFrom(pages, pool, all)
    ensures rc == EIO <==> exists u :: 0 <= u < |slots| && u < |all| && !SlotReadable(file, slots[u])
    ensures rc == ENOMEM <==> |all| < |slots| && forall u | 0 <= u < |all| :: SlotReadable(file, slots[u])
  {
    var g := |pages|;
    forall u | 0 <= u < g
      ensures SlotReadable(file, slots[u])
    {
      assert PageIs(pages[u], slots[..g][u], file);
      ReadableIs(file, slots[u]);
    }
    ReadableIs(file, slots[g]);
    assert rc == ENOMEM <==> |all| == g;
    assert rc == EIO ==> g < |all| && !SlotReadable(file, slots[g]);
  }

  /** Every byte of the page that comes from the file is there. */
  ghost predicate SlotReadable(file: seq<Byte>, s: Slot)
  {
    forall a | s.vaddr <= a < s.vaddr + PAGE_SIZE && FileBacked(s.ph, a) :: s.ph.offset + (a - s.ph.vaddr) < |file|
  }

  predicate FileBacked(ph: Phdr, a: int)
  {
    ph.vaddr <= a < ph.vaddr + ph.filesz
  }

  lemma ReadableIs(file: seq<Byte>, s: Slot)
    ensures PageReadable(file, s.ph, s.vaddr) <==> SlotReadable(file, s)
  {
    var start := Max(s.vaddr, s.ph.vaddr);
    var end := Min(s.vaddr + PAGE_SIZE, s.ph.vaddr + s.ph.filesz);
    if start < end && SlotReadable(file, s) {
      assert FileBacked(s.ph, end - 1);
    }
  }

  lemma SkipHeader(file: seq<Byte>, hs: seq<HeaderRead>, i: nat, pages: seq<Page>)
    requires i < |hs| && hs[i].Header? && !Relevant(hs[i].ph) && Progress(file, hs, i, pages)
    ensures Progress(file, hs, i + 1, pages)
  {
    SlotsGrow(hs, i);
    assert Slots(hs[..i]) + [] == Slots(hs[..i]);
    assert hs[..i + 1] == hs[..i] + [hs[i]];
  }

  lemma AddHeader(file: seq<Byte>, hs: seq<HeaderRead>, i: nat, pages0: seq<Page>, pages: seq<Page>)
    requires i < |hs| && hs[i].Header? && Progress(file, hs, i, pages0) && DataPresent(file, hs[i].ph)
    requires |pages| >= |pages0| && pages[..|pages0|] == pages0
    requires PagesAre(pages[|pages0|..], SegmentSlots(hs[i].ph), file)
    ensures Progress(file, hs, i + 1, pages)
  {
    SlotsGrow(hs, i);
    PagesJoin(pages0, Slots(hs[..i]), pages, SegmentSlots(hs[i].ph), file);
    assert hs[..i + 1] == hs[..i] + [hs[i]];
  }

  /** A segment that cannot be loaded is why the image cannot be. */
  lemma CannotLoad(file: seq<Byte>, hs: seq<HeaderRead>, i: nat, pages: seq<Page>, pool: set<nat>, all: set<nat>)
    requires i < |hs| && hs[i].Header? && Relevant(hs[i].ph) && Progress(file, hs, i, pages) && TakenFrom(pages, pool, all)
    requires !(DataPresent(file, hs[i].ph) && |pool| >= |SegmentSlots(hs[i].ph)|)
    ensures !(AllPresent(file, hs) && |all| >= |Slots(hs)|)
  {
    SlotsGrow(hs, i);
    SlotsPrefix(hs, i);
  }

  /** kexec_load from the program headers to the commit. The image is staged exactly
      when the headers are acceptable, the file holds the data and there are frames
      enough; then the pages are the image, one frame each. Otherwise the pool of free
      frames is as before. */
  method Load(file: seq<Byte>, hs: seq<HeaderRead>, pool0: set<nat>)
    returns (rc: Result, pages: seq<Page>, pool: set<nat>)
    requires |file| <= KEXEC_MAX_IMAGE_SIZE
    ensures rc == Staged <==>
              && AllAcceptable(hs) && 0 < |Slots(hs)| <= KEXEC_MAX_PAGES
              && AllPresent(file, hs) && |pool0| >= |Slots(hs)|
    ensures rc == ENOEXEC <==> !(AllAcceptable(hs) && 0 < |Slots(hs)| <= KEXEC_MAX_PAGES)
    ensures rc == EIO <==>
              && rc != ENOEXEC
              && exists u :: 0 <= u < |Slots(hs)| && u < |pool0| && !SlotReadable(file, Slots(hs)[u])
    ensures rc == ENOMEM <==>
              && rc != ENOEXEC && |pool0| < |Slots(hs)|
              && forall u | 0 <= u < |pool0| :: SlotReadable(file, Slots(hs)[u])
    ensures rc == Staged ==> PagesAre(pages, Slots(hs), file) && TakenFrom(pages, pool, pool0)
    ensures rc != Staged ==> pool == pool0 && pages == []
  {
    pool := pool0;
    pages := [];
    var ok, total := Validate(hs);
    if !ok {
      return ENOEXEC, [], pool0;
    }
    rc := Staged;
    var i := 0;
    while i < |hs|
      invariant TakenFrom(pages, pool, pool0)
      invariant Progress(file, hs, i, pages)
    {
      rc, pages, pool := LoadHeader(file, hs, i, pages, pool, pool0);
      if rc != Staged {
        StoppedSays(file, Slots(hs), pages, pool, pool0, rc);
        pool := FreeAll(pages, pool, pool0);
        return rc, [], pool;
      }
      i := i + 1;
    }
    rc := Staged;
    assert hs[..|hs|] == hs;
    AllReadable(file, Slots(hs), pages);
  }

  lemma AllReadable(file: seq<Byte>, slots: seq<Slot>, pages: seq<Page>)
    requires PagesAre(pages, slots, file)
    ensures forall u | 0 <= u < |slots| :: SlotReadable(file, slots[u])
  {
    forall u | 0 <= u < |slots|
      ensures SlotReadable(file, slots[u])
    {
      assert PageIs(pages[u], slots[u], file);
      ReadableIs(file, slots[u]);
    }
  }

  /** What is staged is the image: every address of every loaded segment lies in a page, which
      holds there the byte of the file, or zero behind the segment's part of the file. */
  lemma StagedImage(file: seq<Byte>, hs: seq<HeaderRead>, pages: seq<Page>, i: nat, a: nat) returns (j: nat)
    requires AllAcceptable(hs) && PagesAre(pages, Slots(hs), file)
    requires i < |hs| && hs[i].ph.isLoad && hs[i].ph.vaddr <= a < hs[i].ph.vaddr + hs[i].ph.memsz
    ensures j < |pages| && pages[j].vaddr % PAGE_SIZE == 0 && pages[j].vaddr <= a < pages[j].vaddr + PAGE_SIZE
    ensures |pages[j].bytes| == PAGE_SIZE
    ensures var ph := hs[i].ph;
            && pages[j].writable == ph.writable && pages[j].noExec == !ph.executable
            && if a - ph.vaddr < ph.filesz
               then ph.offset + (a - ph.vaddr) < |file|
                    && pages[j].bytes[a - pages[j].vaddr] == file[ph.offset + (a - ph.vaddr)]
               else pages[j].bytes[a - pages[j].vaddr] == 0
  {
    var ph := hs[i].ph;
    var k := SlotOver(ph, a);
    SlotInAll(hs, i, k);
    j := |Slots(hs[..i])| + k;
    assert PageIs(pages[j], Slots(hs)[j], file);
    ReadableIs(file, Slots(hs)[j]);
    ImageAt(file, Slots(hs)[j], pages[j], a);
  }

  lemma SlotInAll(hs: seq<HeaderRead>, i: nat, k: nat)
    requires i < |hs| && hs[i].Header? && k < |SegmentSlots(hs[i].ph)|
    ensures var j := |Slots(hs[..i])| + k;
            j < |Slots(hs)| && Slots(hs)[j] == SegmentSlots(hs[i].ph)[k]
  {
    SlotsGrow(hs, i);
    SlotsPrefix(hs, i);
    var j := |Slots(hs[..i])| + k;
    assert Slots(hs)[j] == Slots(hs[..i + 1])[j];
  }

  lemma SlotOver(ph: Phdr, a: nat) returns (k: nat)
    requires Acceptable(ph) && ph.isLoad && ph.vaddr <= a < ph.vaddr + ph.memsz
    ensures k < |SegmentSlots(ph)|
    ensures var s := SegmentSlots(ph)[k];
            s.ph == ph && s.vaddr % PAGE_SIZE == 0 && s.vaddr <= a < s.vaddr + PAGE_SIZE
  {
    PagesInSegment(ph);
    k := (Down(a) - Down(ph.vaddr)) / PAGE_SIZE;
  }

  lemma ImageAt(file: seq<Byte>, s: Slot, p: Page, a: nat)
    requires PageIs(p, s, file) && SlotReadable(file, s) && s.vaddr <= a < s.vaddr + PAGE_SIZE && s.ph.vaddr <= a
    ensures if a - s.ph.vaddr < s.ph.filesz
            then s.ph.offset + (a - s.ph.vaddr) < |file| && p.bytes[a - s.vaddr] == file[s.ph.offset + (a - s.ph.vaddr)]
            else p.bytes[a - s.vaddr] == 0
  {
    var k := a - s.vaddr;
    assert p.bytes[k] == ImageByte(file, s.ph, s.vaddr + k);
    assert FileBacked(s.ph, a) <==> a - s.ph.vaddr < s.ph.filesz;
  }

  lemma PagesJoin(before: seq<Page>, slots: seq<Slot>, pages: seq<Page>, more: seq<Slot>, file: seq<Byte>)
    requires PagesAre(before, slots, file)
    requires |pages| >= |before| && pages[..|before|] == before && PagesAre(pages[|before|..], more, file)
    ensures PagesAre(pages, slots + more, file)
  {
    forall i | 0 <= i < |pages|
      ensures PageIs(pages[i], (slots + more)[i], file)
    {
      if i < |before| {
        assert pages[i] == pages[..|before|][i];
      } else {
        assert pages[i] == pages[|before|..][i - |before|];
      }
    }
  }

  /** The slots of a prefix of the headers are a prefix of the slots. */
  lemma {:induction false} SlotsPrefix(hs: seq<HeaderRead>, i: nat)
    requires i < |hs|
    ensures Slots(hs[..i + 1]) <= Slots(hs)
    decreases |hs| - i
  {
    if i + 1 == |hs| {
      assert hs[..i + 1] == hs;
    } else {
      SlotsPrefix(hs, i + 1);
      SlotsGrow(hs, i + 1);
    }
  }
}
