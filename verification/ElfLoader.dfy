/** Loading ELF segments page by page (kernel/ELF/elf.c), over the frame stack and the page
    directory of the kernel. */
module ElfLoader {
  import opened Words
  import opened Bits
  import opened LoaderModel

  lemma {:induction false} RunSplit(image: seq<u8>, a: seq<Job>, b: seq<Job>, s: Space)
    requires InImage(image, a) && InImage(image, b)
    ensures InImage(image, a + b)
    ensures var (ok, t) := Run(image, a, s); Run(image, a + b, s) == if ok then Run(image, b, t) else (ok, t)
    decreases a
  {
    hide LoadPage;
    if a == [] {
      assert a + b == b;
    } else {
      assert (a + b)[1..] == a[1..] + b;
      if s.free != [] { RunSplit(image, a[1..], b, LoadPage(image, s, a[0])); }
    }
  }

  /** How many file bytes the pages before `addr` took. */
  function Consumed(h: Header, addr: nat): (n: nat)
    ensures n <= h.fileSize
  {
    if addr <= h.vaddr then 0 else if addr - h.vaddr < h.fileSize then addr - h.vaddr else h.fileSize
  }

  class AddressSpace {
    var free: seq<u32>
    var tables: set<nat>
    var pages: map<nat, u32>
    var frames: map<u32, Page>
    /** The page through which the kernel writes into a frame. */
    const window: array<u8>

    ghost predicate Valid()
      reads this
    {
      window.Length == PAGE && 0 !in free
    }

    function View(): Space
      reads this
    {
      Space(free, tables, pages, frames)
    }

    /** Zero stands for no frame left. */
    method AllocFrame() returns (frame: u32)
      requires Valid()
      modifies `free
      ensures Valid()
      ensures frame == 0 <==> old(free) == []
      ensures free == if frame == 0 then old(free) else old(free)[..|old(free)| - 1]
      ensures frame != 0 ==> frame == old(free)[|old(free)| - 1]
    {
      if free == [] { return 0; }
      frame := free[|free| - 1];
      assert frame in free;
      free := free[..|free| - 1];
    }

    method MapInDirectory(addr: nat, frame: u32) returns (ok: bool)
      requires Valid()
      modifies `free, `tables, `pages
      ensures Valid() && View() == MapPage(old(View()), addr, frame)
      ensures ok <==> TableOf(addr) in old(tables) || old(free) != []
    {
      if TableOf(addr) !in tables {
        var table := AllocFrame();
        if table == 0 { return false; }
        tables := tables + {TableOf(addr)};
      }
      pages := pages[addr := frame];
      return true;
    }

    /** Clears the page and copies `count` file bytes to its place `at`. */
    method FillPage(image: seq<u8>, src: nat, at: nat, count: nat)
      requires Valid() && at + count <= PAGE && src + count <= |image|
      modifies window
      ensures forall k :: 0 <= k < PAGE ==>
        window[k] == if at <= k < at + count then image[src + (k - at)] else 0
    {
      var b := 0;
      while b < PAGE
        invariant 0 <= b <= PAGE && forall k :: 0 <= k < b ==> window[k] == 0
      {
        window[b] := 0;
        b := b + 1;
      }
      b := 0;
      while b < count
        invariant 0 <= b <= count
        invariant forall k :: 0 <= k < PAGE ==> window[k] == if at <= k < at + b then image[src + (k - at)] else 0
      {
        window[at + b] := image[src + b];
        b := b + 1;
      }
    }

    /** One round of the page loop; `taken` is what it copied. */
    method LoadOne(image: seq<u8>, h: Header, addr: nat, srcOff: nat, remaining: nat) returns (ok: bool, taken: nat)
      requires Valid() && h.offset + h.fileSize <= |image| && h.vaddr < addr + PAGE
      requires srcOff == h.offset + Consumed(h, addr) && remaining == h.fileSize - Consumed(h, addr)
      modifies this, window
      ensures Valid() && (ok <==> old(free) != [])
      ensures View() == if ok then LoadPage(image, old(View()), Job(h, addr)) else old(View())
      ensures ok ==> taken == Consumed(h, addr + PAGE) - Consumed(h, addr)
    {
      hide PageOf, TableOf;
      taken := 0;
      var frame := AllocFrame();
      if frame == 0 { return false, 0; }
      var mapped := MapInDirectory(addr, frame);
      var copyStart := if addr < h.vaddr then h.vaddr - addr else 0;
      if remaining > 0 && copyStart < PAGE {
        taken := if PAGE - copyStart > remaining then remaining else PAGE - copyStart;
      }
      FillPage(image, srcOff, copyStart, taken);
      PageFilled(image, h, addr, window[..]);
      frames := frames[frame := window[..]];
      return true, taken;
    }

    method LoadSegment(image: seq<u8>, h: Header) returns (ok: bool)
      requires Valid() && h.kind == PT_LOAD && h.offset + h.fileSize <= |image|
      modifies this, window
      ensures Valid() && InImage(image, SegmentJobs(h))
      ensures (ok, View()) == Run(image, SegmentJobs(h), old(View()))
    {
      hide LoadPage, BitAnd, Start, End, Run, InImage, SegJobs, Consumed;
      StartsOnPage(h);
      EndsOnPage(h);
      SegImage(image, h, Start(h), End(h));
      ConsumedNone(h, Start(h));
      var start, end := Bounds(h);
      var srcOff, remaining: nat := h.offset, h.fileSize;
      var addr: u32 := start;
      while addr < end
        invariant Valid() && addr % PAGE == 0 && (addr == start || h.vaddr < addr) && addr <= TOP_PAGE
        invariant srcOff == h.offset + Consumed(h, addr) && remaining == h.fileSize - Consumed(h, addr)
        invariant InImage(image, SegJobs(h, addr, end))
        invariant Run(image, SegmentJobs(h), old(View())) == Run(image, SegJobs(h, addr, end), View())
        decreases end - addr
      {
        NextPage(addr, end);
        RunStep(image, h, addr, end, View());
        var more, taken := LoadOne(image, h, addr, srcOff, remaining);
        if !more { return false; }
        srcOff, remaining := srcOff + taken, remaining - taken;
        addr := Wrap32(addr + PAGE);
      }
      RunDone(image, h, addr, end, View());
      return true;
    }

    method LoadSegs(image: seq<u8>, hs: seq<Header>, cr3: u32) returns (ok: bool)
      requires Valid() && HeadersOk(image, hs)
      modifies this, window
      ensures Valid() && InImage(image, Jobs(hs))
      ensures (ok, View()) == if cr3 == 0 then (false, old(View())) else Run(image, Jobs(hs), old(View()))
    {
      hide SegmentJobs, Run, Jobs, InImage;
      JobsInImage(image, hs);
      if cr3 == 0 { return false; }
      var i := 0;
      while i < |hs|
        invariant 0 <= i <= |hs| && Valid() && InImage(image, Jobs(hs[i..]))
        invariant Run(image, Jobs(hs), old(View())) == Run(image, Jobs(hs[i..]), View())
      {
        ghost var rest := hs[i + 1..];
        assert hs[i..][1..] == rest && forall h :: h in rest ==> h in hs;
        JobsInImage(image, rest);
        JobsSplit(hs[i..]);
        if hs[i].kind == PT_LOAD {
          ghost var was := View();
          var more := LoadSegment(image, hs[i]);
          RunSplit(image, SegmentJobs(hs[i]), Jobs(rest), was);
          if !more { return false; }
        } else {
          assert SegmentJobs(hs[i]) + Jobs(rest) == Jobs(rest);
        }
        i := i + 1;
      }
      NoJobs(image, hs[i..], View());
      return true;
    }
  }

  method Bounds(h: Header) returns (start: u32, end: u32)
    ensures start == Start(h) && end == End(h)
  {
    hide BitAnd;
    var mask := 0xFFFF_F000;
    var last := Wrap32(Wrap32(h.vaddr + h.memSize) + 4095);
    AlignMask(h.vaddr, mask);
    AlignMask(last, mask);
    start := BitAnd(h.vaddr, mask);
    end := BitAnd(last, mask);
  }

  lemma {:induction false} SegImage(image: seq<u8>, h: Header, addr: nat, end: nat)
    requires h.offset + h.fileSize <= |image|
    ensures InImage(image, SegJobs(h, addr, end))
    decreases end - addr
  {
    if addr < end { SegImage(image, h, addr + PAGE, end); }
  }

  lemma {:induction false} RunStep(image: seq<u8>, h: Header, addr: nat, end: nat, s: Space)
    requires h.offset + h.fileSize <= |image| && addr < end && InImage(image, SegJobs(h, addr, end))
    ensures InImage(image, SegJobs(h, addr + PAGE, end))
    ensures Run(image, SegJobs(h, addr, end), s) ==
      if s.free == [] then (false, s) else Run(image, SegJobs(h, addr + PAGE, end), LoadPage(image, s, Job(h, addr)))
  {
    hide LoadPage;
    assert SegJobs(h, addr, end)[1..] == SegJobs(h, addr + PAGE, end);
  }

  lemma {:induction false} RunDone(image: seq<u8>, h: Header, addr: nat, end: nat, s: Space)
    requires addr >= end
    ensures InImage(image, SegJobs(h, addr, end)) && Run(image, SegJobs(h, addr, end), s) == (true, s)
  {
  }

  lemma {:induction false} ConsumedNone(h: Header, addr: nat)
    requires addr <= h.vaddr
    ensures Consumed(h, addr) == 0
  {
  }

  lemma {:induction false} NextPage(addr: nat, end: nat)
    requires addr % PAGE == 0 && end % PAGE == 0 && addr < end
    ensures (addr + PAGE) % PAGE == 0 && addr + PAGE <= end
  {
  }

  lemma {:induction false} JobsSplit(hs: seq<Header>)
    requires hs != []
    ensures Jobs(hs) == SegmentJobs(hs[0]) + Jobs(hs[1..])
    ensures hs[0].kind != PT_LOAD ==> SegmentJobs(hs[0]) == []
  {
  }

  lemma {:induction false} NoJobs(image: seq<u8>, hs: seq<Header>, s: Space)
    requires hs == []
    ensures InImage(image, Jobs(hs)) && Run(image, Jobs(hs), s) == (true, s)
  {
  }

  lemma {:induction false} PageFilled(image: seq<u8>, h: Header, addr: nat, page: seq<u8>)
    requires h.offset + h.fileSize <= |image| && h.vaddr < addr + PAGE && |page| == PAGE
    requires var at := if addr < h.vaddr then h.vaddr - addr else 0;
      var n := Consumed(h, addr + PAGE) - Consumed(h, addr);
      var src := h.offset + Consumed(h, addr);
      && 0 <= n && at + n <= PAGE && src + n <= |image|
      && forall k :: 0 <= k < PAGE ==> page[k] == if at <= k < at + n then image[src + (k - at)] else 0
    ensures page == PageOf(image, h, addr)
  {
    forall k | 0 <= k < PAGE ensures page[k] == PageOf(image, h, addr)[k] {
      assert PageOf(image, h, addr)[k] == ByteOnPage(image, h, addr, k);
    }
  }
}
