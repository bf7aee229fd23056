/** What loading an ELF image does to an address space (kernel/ELF/elf.c): which pages are
    mapped, what they hold, and when the result is right. */
module LoaderModel {
  import opened Words
  import opened Bits

  const PAGE := 4096
  const PT_LOAD := 1
  const TOP_PAGE := 0xFFFF_F000

  type Page = s: seq<u8> | |s| == PAGE witness seq(PAGE, _ => 0)

  datatype Header = Header(kind: u32, offset: u32, vaddr: u32, fileSize: u32, memSize: u32)

  /** A page directory with the frames it can draw on: `free` is the allocator's stack,
      `tables` the directory entries that have a page table, `pages` the mapped pages, and
      `frames` what the frames hold. */
  datatype Space = Space(free: seq<u32>, tables: set<nat>, pages: map<nat, u32>, frames: map<u32, Page>)

  function AlignDown(x: u32): u32 { x - x % PAGE }
  function AlignUp(x: u32): u32 { AlignDown(Wrap32(x + 4095)) }

  /** The masks of PAGE_ALIGN_DOWN and PAGE_ALIGN_UP round down to a page. */
  lemma {:induction false} AlignMask(x: u32, mask: nat)
    requires mask == 0xFFFF_F000
    ensures BitAnd(x, mask) == AlignDown(x)
  {
    hide BitAnd;
    Pow2Values();
    AndHighMask(x, 12, 32);
  }

  function Start(h: Header): u32 { AlignDown(h.vaddr) }
  function End(h: Header): u32 { AlignUp(Wrap32(h.vaddr + h.memSize)) }

  /** The end of the segment's pages without the 32-bit wrap, cut at the end of the address
      space. */
  function TrueEnd(h: Header): nat {
    var e := h.vaddr + h.memSize + 4095;
    if e >= 0x1_0000_0000 then 0x1_0000_0000 else e - e % PAGE
  }

  /** The byte the segment asks for at address `x`. */
  function ByteAt(image: seq<u8>, h: Header, x: nat): u8
    requires h.offset + h.fileSize <= |image|
  {
    if h.vaddr <= x < h.vaddr + h.fileSize then image[h.offset + (x - h.vaddr)] else 0
  }

  function ByteOnPage(image: seq<u8>, h: Header, addr: nat, b: nat): u8
    requires h.offset + h.fileSize <= |image|
  {
    ByteAt(image, h, addr + b)
  }

  function PageOf(image: seq<u8>, h: Header, addr: nat): Page
    requires h.offset + h.fileSize <= |image|
  {
    seq(PAGE, (b: nat) => ByteOnPage(image, h, addr, b))
  }

  function ByteIn(s: Space, x: nat): Option<u8> {
    var p := x - x % PAGE;
    if p in s.pages && s.pages[p] in s.frames then Some(s.frames[s.pages[p]][x % PAGE]) else None
  }

  // ----- the loader's steps

  datatype Job = Job(h: Header, addr: nat)

  function SegJobs(h: Header, addr: nat, end: nat): seq<Job>
    decreases end - addr
  {
    if addr >= end then [] else [Job(h, addr)] + SegJobs(h, addr + PAGE, end)
  }

  /** The pages to load, in order. */
  function Jobs(hs: seq<Header>): seq<Job> {
    if hs == [] then []
    else (if hs[0].kind == PT_LOAD then SegJobs(hs[0], Start(hs[0]), End(hs[0])) else []) + Jobs(hs[1..])
  }

  function TableOf(addr: nat): nat { addr / 0x40_0000 }

  /** `map_page_in_directory`: a directory entry without a page table costs one more frame, and
      nothing is mapped if there is none. */
  function MapPage(s: Space, addr: nat, frame: u32): Space {
    if TableOf(addr) in s.tables then s.(pages := s.pages[addr := frame])
    else if s.free == [] then s
    else s.(free := s.free[..|s.free| - 1], tables := s.tables + {TableOf(addr)}, pages := s.pages[addr := frame])
  }

  function LoadPage(image: seq<u8>, s: Space, j: Job): Space
    requires s.free != [] && j.h.offset + j.h.fileSize <= |image|
  {
    var frame := s.free[|s.free| - 1];
    var t := MapPage(s.(free := s.free[..|s.free| - 1]), j.addr, frame);
    t.(frames := t.frames[frame := PageOf(image, j.h, j.addr)])
  }

  ghost predicate InImage(image: seq<u8>, jobs: seq<Job>) {
    forall j :: j in jobs ==> j.h.offset + j.h.fileSize <= |image|
  }

  /** The whole run; it stops at the first page that finds no frame. */
  function Run(image: seq<u8>, jobs: seq<Job>, s: Space): (bool, Space)
    requires InImage(image, jobs)
  {
    if jobs == [] then (true, s)
    else if s.free == [] then (false, s)
    else Run(image, jobs[1..], LoadPage(image, s, jobs[0]))
  }

  /** Frames the run needs: one for each page and one for each new page table. */
  function Cost(jobs: seq<Job>, tables: set<nat>): nat {
    if jobs == [] then 0
    else (if TableOf(jobs[0].addr) in tables then 1 else 2) + Cost(jobs[1..], tables + {TableOf(jobs[0].addr)})
  }

  // ----- one run over distinct pages

  ghost predicate Distinct(jobs: seq<Job>) {
    forall i, k :: 0 <= i < k < |jobs| ==> jobs[i].addr != jobs[k].addr
  }

  ghost predicate Targets(jobs: seq<Job>, p: nat) {
    exists j :: j in jobs && j.addr == p
  }

  /** The page of job `j` is mapped and holds the segment's bytes. */
  ghost predicate Loaded(image: seq<u8>, s: Space, j: Job)
    requires j.h.offset + j.h.fileSize <= |image|
  {
    j.addr in s.pages && s.pages[j.addr] in s.frames && s.frames[s.pages[j.addr]] == PageOf(image, j.h, j.addr)
  }

  /** Pages no job targets keep their mapping; frames that were not free keep their bytes. */
  ghost predicate Frame(jobs: seq<Job>, s: Space, t: Space) {
    && (forall p: nat :: !Targets(jobs, p) ==>
      (p in t.pages <==> p in s.pages) && (p in s.pages ==> t.pages[p] == s.pages[p]))
    && (forall f: u32 :: f !in s.free ==>
      (f in t.frames <==> f in s.frames) && (f in s.frames ==> t.frames[f] == s.frames[f]))
  }

  lemma {:induction false} StepFrame(image: seq<u8>, s: Space, j: Job)
    requires s.free != [] && NoDuplicates(s.free) && j.h.offset + j.h.fileSize <= |image|
    requires TableOf(j.addr) in s.tables || |s.free| > 1
    ensures var t := LoadPage(image, s, j);
      && Frame([j], s, t) && Loaded(image, t, j) && t.pages[j.addr] !in t.free
      && t.tables == s.tables + {TableOf(j.addr)}
      && t.free <= s.free && |t.free| == |s.free| - if TableOf(j.addr) in s.tables then 1 else 2
  {
    hide PageOf, TableOf;
    assert Targets([j], j.addr) by { assert j in [j]; }
  }

  lemma {:induction false} FrameTrans(j: Job, rest: seq<Job>, s: Space, m: Space, t: Space)
    requires Frame([j], s, m) && Frame(rest, m, t) && m.free <= s.free
    ensures Frame([j] + rest, s, t)
  {
    var jobs := [j] + rest;
    assert forall k :: k in [j] || k in rest ==> k in jobs;
    assert forall p: nat :: !Targets(jobs, p) ==> !Targets([j], p) && !Targets(rest, p);
  }

  /** With frames enough, the run succeeds and every page holds its segment's bytes. */
  lemma {:induction false} EnoughFrames(image: seq<u8>, jobs: seq<Job>, s: Space)
    requires InImage(image, jobs) && NoDuplicates(s.free) && Distinct(jobs)
    requires |s.free| >= Cost(jobs, s.tables)
    ensures var (ok, t) := Run(image, jobs, s);
      && ok && Frame(jobs, s, t)
      && t.free <= s.free && |t.free| == |s.free| - Cost(jobs, s.tables)
      && forall j :: j in jobs ==> Loaded(image, t, j)
    decreases jobs
  {
    hide LoadPage, PageOf, TableOf;
    if jobs != [] {
      var j, rest := jobs[0], jobs[1..];
      var m := LoadPage(image, s, j);
      StepFrame(image, s, j);
      EnoughFrames(image, rest, m);
      var t := Run(image, rest, m).1;
      FrameTrans(j, rest, s, m, t);
      assert jobs == [j] + rest;
      assert forall i :: 0 <= i < |rest| ==> rest[i] == jobs[i + 1];
      assert !Targets(rest, j.addr);
      assert Loaded(image, t, j);
    }
  }

  /** With too few, a run that still reports success has not mapped its last page. */
  lemma {:induction false} TooFewFrames(image: seq<u8>, jobs: seq<Job>, s: Space)
    requires InImage(image, jobs) && NoDuplicates(s.free) && Distinct(jobs)
    requires |s.free| < Cost(jobs, s.tables) && jobs[|jobs| - 1].addr !in s.pages
    ensures var (ok, t) := Run(image, jobs, s); ok ==> jobs[|jobs| - 1].addr !in t.pages
    decreases jobs
  {
    hide PageOf, TableOf;
    if s.free != [] && |jobs| > 1 {
      var m := LoadPage(image, s, jobs[0]);
      if TableOf(jobs[0].addr) in s.tables || |s.free| > 1 {
        assert m.tables == s.tables + {TableOf(jobs[0].addr)};
        TooFewFrames(image, jobs[1..], m);
      }
    }
  }

  // ----- whole images

  /** The file bytes of every segment lie in the image. */
  ghost predicate HeadersOk(image: seq<u8>, hs: seq<Header>) {
    forall h :: h in hs && h.kind == PT_LOAD ==> h.offset + h.fileSize <= |image|
  }

  /** No page belongs to two segments. */
  ghost predicate Disjoint(hs: seq<Header>) {
    forall i, k :: 0 <= i < k < |hs| && hs[i].kind == PT_LOAD && hs[k].kind == PT_LOAD ==>
      TrueEnd(hs[i]) <= Start(hs[k]) || TrueEnd(hs[k]) <= Start(hs[i])
  }

  /** No segment reaches into the last page of the address space. */
  ghost predicate BelowTop(hs: seq<Header>) {
    forall h :: h in hs && h.kind == PT_LOAD ==> h.vaddr + h.memSize <= TOP_PAGE
  }

  /** Address `x` lies in the pages of segment `h`. */
  ghost predicate InPages(hs: seq<Header>, h: Header, x: nat) {
    h in hs && h.kind == PT_LOAD && Start(h) <= x < TrueEnd(h)
  }

  ghost predicate Unmapped(hs: seq<Header>, s: Space) {
    forall h, x: nat :: InPages(hs, h, x) ==> x !in s.pages
  }

  /** What loading means: file bytes where the segment has them, zero everywhere else in its
      pages. */
  ghost predicate Meaning(image: seq<u8>, hs: seq<Header>, s: Space)
    requires HeadersOk(image, hs)
  {
    forall h, x: nat :: InPages(hs, h, x) ==> ByteIn(s, x) == Some(ByteAt(image, h, x))
  }

  lemma {:induction false} StartsOnPage(h: Header)
    ensures Start(h) % PAGE == 0 && Start(h) <= TOP_PAGE && Start(h) <= h.vaddr < Start(h) + PAGE
  {
  }

  lemma {:induction false} EndsOnPage(h: Header)
    ensures End(h) % PAGE == 0 && End(h) <= TOP_PAGE
    ensures h.vaddr + h.memSize <= TOP_PAGE ==> TrueEnd(h) == End(h)
    ensures h.vaddr + h.memSize > TOP_PAGE ==> TrueEnd(h) == 0x1_0000_0000
  {
  }

  lemma {:induction false} SegJobsAre(h: Header, addr: nat, end: nat)
    requires addr % PAGE == 0 && end % PAGE == 0
    ensures forall j :: j in SegJobs(h, addr, end) <==> (j.h == h && addr <= j.addr < end && j.addr % PAGE == 0)
    ensures Distinct(SegJobs(h, addr, end))
    decreases end - addr
  {
    if addr < end {
      SegJobsAre(h, addr + PAGE, end);
    }
  }

  function SegmentJobs(h: Header): seq<Job> {
    if h.kind == PT_LOAD then SegJobs(h, Start(h), End(h)) else []
  }

  lemma {:induction false} SegmentJobsAre(h: Header)
    ensures forall j :: j in SegmentJobs(h) <==>
      (j.h == h && h.kind == PT_LOAD && Start(h) <= j.addr < End(h) && j.addr % PAGE == 0)
    ensures Distinct(SegmentJobs(h))
  {
    hide Start, End;
    StartsOnPage(h);
    EndsOnPage(h);
    if h.kind == PT_LOAD { SegJobsAre(h, Start(h), End(h)); }
  }

  lemma {:induction false} JobsAre(hs: seq<Header>, j: Job)
    ensures j in Jobs(hs) <==>
      (j.h in hs && j.h.kind == PT_LOAD && Start(j.h) <= j.addr < End(j.h) && j.addr % PAGE == 0)
  {
    hide Start, End, SegJobs;
    if hs != [] {
      assert Jobs(hs) == SegmentJobs(hs[0]) + Jobs(hs[1..]);
      SegmentJobsAre(hs[0]);
      JobsAre(hs[1..], j);
    }
  }

  lemma {:induction false} JobsDistinct(hs: seq<Header>)
    requires Disjoint(hs) && BelowTop(hs)
    ensures Distinct(Jobs(hs))
  {
    hide Start, End, SegJobs, TrueEnd;
    if hs != [] {
      var a, b := SegmentJobs(hs[0]), Jobs(hs[1..]);
      assert Jobs(hs) == a + b;
      SegmentJobsAre(hs[0]);
      JobsDistinct(hs[1..]);
      forall i, k | 0 <= i < |a| && 0 <= k < |b| ensures a[i].addr != b[k].addr {
        JobsAre(hs[1..], b[k]);
        assert a[i] in a;
        var m :| 0 <= m < |hs[1..]| && hs[1..][m] == b[k].h;
        assert hs[m + 1] == b[k].h;
        EndsOnPage(hs[0]);
        EndsOnPage(b[k].h);
      }
    }
  }

  lemma {:induction false} JobsInImage(image: seq<u8>, hs: seq<Header>)
    requires HeadersOk(image, hs)
    ensures InImage(image, Jobs(hs))
  {
    forall j | j in Jobs(hs) ensures j.h.offset + j.h.fileSize <= |image| { JobsAre(hs, j); }
  }

  /** A loaded page gives every byte on it. */
  lemma {:induction false} LoadedByte(image: seq<u8>, s: Space, h: Header, x: nat)
    requires h.offset + h.fileSize <= |image| && Loaded(image, s, Job(h, x - x % PAGE))
    ensures ByteIn(s, x) == Some(ByteAt(image, h, x))
  {
    assert PageOf(image, h, x - x % PAGE)[x % PAGE] == ByteOnPage(image, h, x - x % PAGE, x % PAGE);
  }

  lemma {:induction false} LoadsRight(image: seq<u8>, hs: seq<Header>, s: Space)
    requires HeadersOk(image, hs) && Disjoint(hs) && BelowTop(hs) && NoDuplicates(s.free) && InImage(image, Jobs(hs))
    requires |s.free| >= Cost(Jobs(hs), s.tables)
    ensures var (ok, t) := Run(image, Jobs(hs), s); ok && Meaning(image, hs, t) && Frame(Jobs(hs), s, t)
  {
    hide Start, End, TrueEnd, Jobs, Run, Cost, PageOf, ByteIn, ByteAt;
    JobsDistinct(hs);
    EnoughFrames(image, Jobs(hs), s);
    var t := Run(image, Jobs(hs), s).1;
    forall h, x: nat | InPages(hs, h, x) ensures ByteIn(t, x) == Some(ByteAt(image, h, x)) {
      var j := Job(h, x - x % PAGE);
      StartsOnPage(h);
      EndsOnPage(h);
      JobsAre(hs, j);
      LoadedByte(image, t, h, x);
    }
  }

  lemma {:induction false} OthersKept(image: seq<u8>, jobs: seq<Job>, s: Space, p: nat)
    requires InImage(image, jobs) && forall j :: j in jobs ==> j.addr != p
    ensures p in Run(image, jobs, s).1.pages <==> p in s.pages
    decreases jobs
  {
    hide TableOf, PageOf;
    if jobs != [] && s.free != [] { OthersKept(image, jobs[1..], LoadPage(image, s, jobs[0]), p); }
  }

  /** The last page of the address space is never loaded. */
  lemma {:induction false} TopNeverLoaded(image: seq<u8>, hs: seq<Header>, s: Space)
    requires InImage(image, Jobs(hs))
    ensures TOP_PAGE in Run(image, Jobs(hs), s).1.pages <==> TOP_PAGE in s.pages
  {
    hide Start, End;
    forall j | j in Jobs(hs) ensures j.addr != TOP_PAGE {
      JobsAre(hs, j);
      EndsOnPage(j.h);
    }
    OthersKept(image, Jobs(hs), s, TOP_PAGE);
  }

  lemma {:induction false} LoadsWrong(image: seq<u8>, hs: seq<Header>, s: Space)
    requires HeadersOk(image, hs) && Disjoint(hs) && NoDuplicates(s.free) && InImage(image, Jobs(hs)) && Unmapped(hs, s)
    requires |s.free| < Cost(Jobs(hs), s.tables) || !BelowTop(hs)
    ensures var (ok, t) := Run(image, Jobs(hs), s); !ok || !Meaning(image, hs, t)
  {
    hide Start, End, TrueEnd, Jobs, Run, PageOf, TableOf, ByteAt;
    var jobs := Jobs(hs);
    var t := Run(image, jobs, s).1;
    if !BelowTop(hs) {
      var h :| h in hs && h.kind == PT_LOAD && h.vaddr + h.memSize > TOP_PAGE;
      StartsOnPage(h);
      EndsOnPage(h);
      TopNeverLoaded(image, hs, s);
      assert InPages(hs, h, TOP_PAGE) && ByteIn(t, TOP_PAGE) == None;
    } else {
      JobsDistinct(hs);
      var last := jobs[|jobs| - 1];
      JobsAre(hs, last);
      EndsOnPage(last.h);
      assert InPages(hs, last.h, last.addr);
      TooFewFrames(image, jobs, s);
      assert last.addr !in t.pages ==> ByteIn(t, last.addr) == None;
    }
  }

  /** Loading reports success and means what the headers say exactly when no segment reaches
      the last page of the address space and the free frames cover the pages and their
      tables. */
  lemma {:induction false} LoaderExact(image: seq<u8>, hs: seq<Header>, s: Space)
    requires HeadersOk(image, hs) && Disjoint(hs) && NoDuplicates(s.free) && Unmapped(hs, s)
    ensures InImage(image, Jobs(hs))
    ensures var (ok, t) := Run(image, Jobs(hs), s);
      ok && Meaning(image, hs, t) <==> BelowTop(hs) && |s.free| >= Cost(Jobs(hs), s.tables)
  {
    hide *;
    JobsInImage(image, hs);
    if BelowTop(hs) && |s.free| >= Cost(Jobs(hs), s.tables) {
      LoadsRight(image, hs, s);
    } else {
      LoadsWrong(image, hs, s);
    }
  }

  /** A run that reports success without having mapped anything: the frame for the page is
      there, the one for its page table is not. */
  lemma {:induction false} FalseSuccess()
    ensures var h := Header(PT_LOAD, 0, 0x40_0000, 0, 1);
      var s := Space([0x1000], {}, map[], map[]);
      && InImage([], Jobs([h]))
      && Run([], Jobs([h]), s).0 && Run([], Jobs([h]), s).1.pages == map[]
  {
    var h := Header(PT_LOAD, 0, 0x40_0000, 0, 1);
    assert SegJobs(h, 0x40_1000, 0x40_1000) == [];
    assert Jobs([h]) == [Job(h, 0x40_0000)];
  }

  /** A segment that touches the last page wraps its end to zero: nothing is loaded, and
      success is reported. */
  lemma {:induction false} WrappedSegment(h: Header)
    requires h.kind == PT_LOAD && TOP_PAGE < h.vaddr + h.memSize <= 0x1_0000_0000
    ensures Jobs([h]) == []
  {
    assert End(h) == 0;
    assert Jobs([h][1..]) == [];
  }
}
