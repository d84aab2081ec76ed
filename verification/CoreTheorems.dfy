/** Properties of whole core files: their size under a limit, and the place of every
    mapping in them. */
module CoreTheorems {
  import opened Bytes
  import opened ElfFormat
  import opened ElfReader
  import opened CoreRoundTrip
  import opened MapsReader
  import opened MapsTable
  import opened Prioritize
  import opened HeaderWriter
  import opened CoreWriter

  // ---------- Reading a dump back ----------

  /** A segment that holds the memory at its address. */
  predicate HoldsMemory(s: Segment, mem: Memory) {
    s.data == MemoryRange(mem, s.vaddr, |s.data|)
  }

  lemma {:induction false} VdsoHoldsMemory(vdso: seq<Phdr>, mem: Memory)
    ensures forall i :: 0 <= i < |VdsoSegments(vdso, mem)| ==> HoldsMemory(VdsoSegments(vdso, mem)[i], mem)
  {
    if vdso != [] {
      VdsoHoldsMemory(vdso[1..], mem);
    }
  }

  lemma PlanHoldsMemory(p: Process, ms: seq<Mapping>, vdso: seq<Phdr>, mem: Memory, prioritize: nat)
    requires p.Valid()
    ensures var s, final := Segments(p, ms, vdso, mem, prioritize), Limited(p, ms, vdso, prioritize);
            && |s| == |ms| + ExtraHeaders(vdso) && |final| == |ms|
            && (forall i :: 0 <= i < |s| ==> HoldsMemory(s[i], mem))
            && (forall i :: 0 <= i < |ms| ==> s[i] == MappingSegment(final[i], mem, p.pagesize))
  {
    hide VdsoSegments, Segments, Limited, FixedSize, DataOffset, AnnouncedNoteSize;
    Counts(p, ms, vdso, mem, prioritize);
    VdsoHoldsMemory(vdso, mem);
    var s := Segments(p, ms, vdso, mem, prioritize);
    assert forall i :: 0 <= i < |ms| ==> s[i] == s[..|ms|][i];
    assert forall i :: |ms| <= i < |s| ==> s[i] == s[|ms|..][i - |ms|];
  }

  /** A program header says all there is to say of a segment. */
  predicate Describes(h: Header, s: Segment) {
    && h.ptype == s.ptype && h.flags == s.flags && h.vaddr == s.vaddr && h.paddr == 0
    && h.filesz == |s.data| && h.memsz == s.memsz && h.align == s.align
  }

  lemma SegmentRead(segments: seq<Segment>, at: nat, i: nat, mem: Memory)
    requires i < |segments| && HoldsMemory(segments[i], mem)
    ensures var v := SegmentViews(segments, at)[i];
            && Describes(v.header, segments[i])
            && v.data == MemoryRange(mem, v.header.vaddr, v.header.filesz)
  {
    hide SegmentViews;
    ViewsAt(segments, at, i);
  }

  /** A complete dump, read by its headers alone: its notes in order, and for every
      mapping and every vdso header the memory from its address on, as much of it as
      the header says. */
  lemma DumpReadBack(p: Process, ms: seq<Mapping>, vdso: seq<Phdr>, mem: Memory, prioritize: nat)
    returns (image: CoreImage)
    requires p.Valid() && CountOf(p.threads, p.mainPid) <= 1 && Fits(p, Segments(p, ms, vdso, mem, prioritize))
    ensures ReadCore(CoreFile(p, Segments(p, ms, vdso, mem, prioritize))) == Some(image)
    ensures image.notes == NoteViews(CoreNotes(p))
    ensures |image.segments| == |ms| + ExtraHeaders(vdso)
    ensures forall i :: 0 <= i < |image.segments| ==> var s := image.segments[i];
              s.data == MemoryRange(mem, s.header.vaddr, s.header.filesz)
    ensures |Segments(p, ms, vdso, mem, prioritize)| == |image.segments|
    ensures forall i :: 0 <= i < |image.segments| ==>
              Describes(image.segments[i].header, Segments(p, ms, vdso, mem, prioritize)[i])
  {
    hide ReadCore, CoreFile, Segments, Fits, CountOf, CoreNotes, NoteViews, SegmentViews, DataOffset, AnnouncedNoteSize,
      Limited, ExtraHeaders, HoldsMemory;
    var segments := Segments(p, ms, vdso, mem, prioritize);
    var at := DataOffset(|segments| + 1, AnnouncedNoteSize(p), p.pagesize);
    ReadBack(p, segments);
    PlanHoldsMemory(p, ms, vdso, mem, prioritize);
    image := CoreImage(NoteViews(CoreNotes(p)), SegmentViews(segments, at));
    forall i | 0 <= i < |segments|
      ensures var s := image.segments[i];
              && s.data == MemoryRange(mem, s.header.vaddr, s.header.filesz)
              && Describes(s.header, segments[i])
    {
      SegmentRead(segments, at, i, mem);
    }
  }

  // ---------- Size ----------

  lemma {:induction false} MappingsTotal(ms: seq<Mapping>, mem: Memory, pagesize: nat)
    ensures Total(MappingSegments(ms, mem, pagesize)) == Sum(Sizes(ms))
  {
    if ms != [] {
      var k := |ms| - 1;
      MappingsTotal(ms[..k], mem, pagesize);
      var s := MappingSegments(ms, mem, pagesize);
      assert s[..k] == MappingSegments(ms[..k], mem, pagesize) && s[..k + 1] == s;
      assert Sizes(ms)[..k] == Sizes(ms[..k]);
      TotalNext(s, k);
    }
  }

  /** The size of a file is its fixed part and what is kept of the mappings. */
  lemma FileSize(p: Process, ms: seq<Mapping>, vdso: seq<Phdr>, mem: Memory, prioritize: nat)
    requires p.Valid() && CountOf(p.threads, p.mainPid) <= 1
    ensures |CoreFile(p, Segments(p, ms, vdso, mem, prioritize))|
         == FixedSize(p, |ms|, vdso) + Sum(Sizes(Limited(p, ms, vdso, prioritize)))
  {
    hide CoreHeader, CorePadding, CoreNotes, EncodeNotes, AnnouncedNoteSize, PagePadding, Flatten, Contents,
      MappingSegments, VdsoSegments, Shrink, Sum, DataOffset;
    var final := Limited(p, ms, vdso, prioritize);
    var segments := Segments(p, ms, vdso, mem, prioritize);
    Counts(p, ms, vdso, mem, prioritize);
    FileParts(p, segments);
    VdsoTotals(vdso, mem);
    MappingsTotal(final, mem, p.pagesize);
    SplitData(MappingSegments(final, mem, p.pagesize), VdsoSegments(vdso, mem));
  }

  lemma SizesOfWithSizes(ms: seq<Mapping>, ws: seq<nat>)
    requires |ms| == |ws|
    ensures Sizes(WithSizes(ms, ws)) == ws
  {
  }

  /** A prioritized file: if the part that is never reduced fits, the size is exactly
      the smaller of the full size and the limit; otherwise every mapping is dropped
      and the rest is still too long. */
  lemma PrioritizedSize(p: Process, ms: seq<Mapping>, vdso: seq<Phdr>, mem: Memory, limit: nat)
    requires p.Valid() && CountOf(p.threads, p.mainPid) <= 1 && limit > 0
    ensures var full := |CoreFile(p, Segments(p, ms, vdso, mem, 0))|;
            var size := |CoreFile(p, Segments(p, ms, vdso, mem, limit))|;
            var fixed := FixedSize(p, |ms|, vdso);
            && (fixed <= limit ==> size == if full <= limit then full else limit)
            && (fixed > limit ==> size == fixed)
  {
    hide CoreFile, Segments, FixedSize, Shrink, Sum;
    FileSize(p, ms, vdso, mem, 0);
    FileSize(p, ms, vdso, mem, limit);
    var fixed := FixedSize(p, |ms|, vdso);
    SizesOfWithSizes(ms, Shrink(Sizes(ms), fixed, limit));
    ShrunkTotal(Sizes(ms), fixed, limit);
  }

  // ---------- Alignment ----------

  /** A line as the kernel writes it: whole pages, start not behind end. */
  ghost predicate PageLine(l: Line, pagesize: nat)
    requires pagesize > 0
  {
    l.start <= l.end < SIZE_LIMIT && l.start % pagesize == 0 && l.end % pagesize == 0
  }

  /** A mapping of whole pages of which nothing, or everything, is written. */
  ghost predicate PageMapping(m: Mapping, pagesize: nat)
    requires pagesize > 0
  {
    && m.start <= m.end < SIZE_LIMIT && m.start % pagesize == 0
    && (m.writeSize == 0 || m.writeSize == m.end - m.start)
    && m.writeSize % pagesize == 0
  }

  lemma ModAdd(a: nat, b: nat, m: nat)
    requires m > 0 && a % m == 0
    ensures (a + b) % m == b % m
  {
    var q, r := b / m, b % m;
    assert a == m * (a / m) && b == m * q + r;
    assert a + b == m * (a / m + q) + r by {
      assert m * (a / m + q) == m * (a / m) + m * q;
    }
    DivModUnique(a + b, m, a / m + q, r);
  }

  lemma ModSub(a: nat, b: nat, m: nat)
    requires m > 0 && a >= b && b % m == 0
    ensures (a - b) % m == a % m
  {
    ModAdd(b, a - b, m);
  }

  lemma MultipleIsZero(pagesize: nat, j: nat)
    requires pagesize > 0
    ensures (pagesize * j) % pagesize == 0
  {
    DivModUnique(pagesize * j, pagesize, j, 0);
  }

  /** Trimming leading zero pages keeps a page mapping inside its line. */
  lemma TrimmedLine(l: Line, mem: Memory, access: Access, pagesize: nat)
    requires pagesize > 0 && PageLine(l, pagesize)
    ensures ZerosOf(l, mem, access, pagesize) <= l.end - l.start
    ensures ZerosOf(l, mem, access, pagesize) % pagesize == 0
  {
    var len := l.end - l.start;
    DivModUnique(len, SIZE_LIMIT, 0, len);
    ModSub(l.end, l.start, pagesize);
    var pages := len / pagesize;
    assert len == pagesize * pages;
    var j := LeadingZeroPagesIsLargest(mem, access, l.start, pages, pagesize);
    MulMonotone(pagesize, j, pages);
    MultipleIsZero(pagesize, j);
    MultipleIsZero(pagesize, 0);
  }

  lemma LineMappingIsPaged(l: Line, mem: Memory, access: Access, pagesize: nat)
    requires pagesize > 0 && PageLine(l, pagesize)
    ensures PageMapping(LineMapping(l, ZerosOf(l, mem, access, pagesize)), pagesize)
  {
    hide ZerosOf;
    var zeros := ZerosOf(l, mem, access, pagesize);
    TrimmedLine(l, mem, access, pagesize);
    var start := l.start + zeros;
    DivModUnique(start, SIZE_LIMIT, 0, start);
    DivModUnique(l.end - start, SIZE_LIMIT, 0, l.end - start);
    ModAdd(l.start, zeros, pagesize);
    ModSub(l.end, start, pagesize);
    MultipleIsZero(pagesize, 0);
  }

  /** Every mapping in the table is made of whole pages. */
  lemma {:induction false} TableIsPaged(lines: seq<Line>, mem: Memory, access: Access, pagesize: nat)
    requires pagesize > 0 && forall l :: l in lines ==> PageLine(l, pagesize)
    ensures forall m :: m in Table(lines, mem, access, pagesize) ==> PageMapping(m, pagesize)
  {
    hide PageMapping, LineMapping, ZerosOf;
    if lines != [] {
      var k := |lines| - 1;
      TableIsPaged(lines[..k], mem, access, pagesize);
      LineMappingIsPaged(lines[k], mem, access, pagesize);
    }
  }

  lemma {:induction false} PagedTotal(ms: seq<Mapping>, mem: Memory, pagesize: nat, i: nat)
    requires pagesize > 0 && i <= |ms|
    requires forall k :: 0 <= k < i ==> ms[k].writeSize % pagesize == 0
    ensures Sum(Sizes(ms)[..i]) % pagesize == 0
  {
    if i > 0 {
      PagedTotal(ms, mem, pagesize, i - 1);
      assert Sizes(ms)[..i][..i - 1] == Sizes(ms)[..i - 1];
      ModAdd(Sum(Sizes(ms)[..i - 1]), ms[i - 1].writeSize, pagesize);
    } else {
      MultipleIsZero(pagesize, 0);
    }
  }

  lemma DataStartsOnPage(p: Process, n: nat)
    requires p.Valid()
    ensures DataOffset(n, AnnouncedNoteSize(p), p.pagesize) % p.pagesize == 0
  {
  }

  /** Place and size of mapping `i` in the file: its header in the reader's view. */
  lemma MappingHeader(p: Process, ms: seq<Mapping>, vdso: seq<Phdr>, mem: Memory, i: nat)
    requires p.Valid() && i < |ms|
    ensures var segments := CoreSegments(p, ms, vdso, mem);
            var at := DataOffset(|segments| + 1, AnnouncedNoteSize(p), p.pagesize);
            var h := SegmentViews(segments, at)[i].header;
            && h.offset == at + Sum(Sizes(ms)[..i])
            && h.vaddr == ms[i].start && h.filesz == ms[i].writeSize
            && h.memsz == (ms[i].end - ms[i].start) % SIZE_LIMIT
  {
    hide AnnouncedNoteSize, PagePadding, VdsoSegments, SegmentViews;
    var segments := CoreSegments(p, ms, vdso, mem);
    var at := DataOffset(|segments| + 1, AnnouncedNoteSize(p), p.pagesize);
    ViewsAt(segments, at, i);
    assert segments[..i] == MappingSegments(ms[..i], mem, p.pagesize);
    MappingsTotal(ms[..i], mem, p.pagesize);
    assert Sizes(ms[..i]) == Sizes(ms)[..i];
  }

  /** Without prioritization every mapping of a page-aligned map lies in the file at an
      offset congruent to its address modulo the page size, and no more is stored for
      it than it occupies in memory, as the ABI asks of loadable segments. */
  lemma MappingsAligned(p: Process, ms: seq<Mapping>, vdso: seq<Phdr>, mem: Memory, i: nat)
    requires p.Valid() && i < |ms|
    requires forall m :: m in ms ==> PageMapping(m, p.pagesize)
    ensures var segments := CoreSegments(p, ms, vdso, mem);
            var h := SegmentViews(segments, DataOffset(|segments| + 1, AnnouncedNoteSize(p), p.pagesize))[i].header;
            && h.offset % p.pagesize == h.vaddr % p.pagesize
            && h.filesz <= h.memsz
  {
    hide AnnouncedNoteSize, PagePadding, VdsoSegments, SegmentViews, CoreSegments, Sum, DataOffset;
    var n := |CoreSegments(p, ms, vdso, mem)| + 1;
    MappingHeader(p, ms, vdso, mem, i);
    DataStartsOnPage(p, n);
    assert forall k :: 0 <= k < i ==> ms[k] in ms;
    PagedTotal(ms, mem, p.pagesize, i);
    ModAdd(DataOffset(n, AnnouncedNoteSize(p), p.pagesize), Sum(Sizes(ms)[..i]), p.pagesize);
    assert PageMapping(ms[i], p.pagesize);
    DivModUnique(ms[i].end - ms[i].start, SIZE_LIMIT, 0, ms[i].end - ms[i].start);
  }

  /** With prioritization a mapping keeps at most its size, so that still no more is
      stored than it occupies in memory. */
  lemma LimitedFits(p: Process, ms: seq<Mapping>, vdso: seq<Phdr>, prioritize: nat, i: nat)
    requires p.Valid() && i < |ms|
    requires forall m :: m in ms ==> PageMapping(m, p.pagesize)
    ensures var m := Limited(p, ms, vdso, prioritize)[i];
            m.writeSize <= (m.end - m.start) % SIZE_LIMIT && m.start == ms[i].start
  {
    hide FixedSize, Shrink;
    ShrinkInOrder(Sizes(ms), FixedSize(p, |ms|, vdso), prioritize);
    assert PageMapping(ms[i], p.pagesize);
    DivModUnique(ms[i].end - ms[i].start, SIZE_LIMIT, 0, ms[i].end - ms[i].start);
  }

  /** A mapping's place in the file is congruent to its address. */
  ghost predicate Aligned(p: Process, ms: seq<Mapping>, vdso: seq<Phdr>, mem: Memory, i: nat)
    requires p.Valid() && i < |ms|
  {
    var segments := CoreSegments(p, ms, vdso, mem);
    var at := DataOffset(|segments| + 1, AnnouncedNoteSize(p), p.pagesize);
    var h := SegmentViews(segments, at)[i].header;
    h.offset % p.pagesize == h.vaddr % p.pagesize
  }

  /** By how much the file of a process exceeds a limit. */
  function Excess(p: Process, ms: seq<Mapping>, vdso: seq<Phdr>, limit: nat): int
    requires p.Valid()
  {
    FixedSize(p, |ms|, vdso) + Sum(Sizes(ms)) - limit
  }

  /** With prioritization mapping `i` stays aligned exactly if the excess does not end
      inside a mapping in front of it, or the limit less the vdso is a whole number of
      pages. All of this can be computed before anything is reduced. */
  lemma AlignmentUnderPriority(p: Process, ms: seq<Mapping>, vdso: seq<Phdr>, mem: Memory, limit: nat, i: nat)
    requires p.Valid() && i < |ms| && limit > 0
    requires forall m :: m in ms ==> PageMapping(m, p.pagesize)
    ensures Aligned(p, Limited(p, ms, vdso, limit), vdso, mem, i)
            <==> (forall q :: 0 <= q < i ==> !CutInside(Sizes(ms), Excess(p, ms, vdso, limit), q))
                 || (limit - VdsoSize(vdso)) % p.pagesize == 0
  {
    hide Aligned, PageMapping, CutInside, FixedSize, VdsoSize;
    var final := Limited(p, ms, vdso, limit);
    forall q | 0 <= q < i
      ensures CutInside(Sizes(ms), Excess(p, ms, vdso, limit), q) <==> 0 < final[q].writeSize < ms[q].writeSize
    {
      CutIsPartial(p, ms, vdso, limit, q);
    }
    if q :| 0 <= q < i && 0 < final[q].writeSize < ms[q].writeSize {
      AlignedBehindCut(p, ms, vdso, mem, limit, q, i);
      assert CutInside(Sizes(ms), Excess(p, ms, vdso, limit), q);
    } else {
      AlignedWithoutCut(p, ms, vdso, mem, limit, i);
    }
  }

  function ExampleMappings(): seq<Mapping> {
    [Mapping(0x10000, 0x12000, 0, 0x2000, 6, true), Mapping(0x20000, 0x21000, 0, 0x1000, 6, true)]
  }

  /** A dump in which a mapping is not aligned: the limit leaves room for the headers
      and notes, and cuts the last byte off the larger mapping in front. */
  lemma AlignmentLost(mem: Memory)
    ensures var p, ms, limit := BareProcess([]), ExampleMappings(), 0x3FFF;
            FixedSize(p, |ms|, []) <= limit && !Aligned(p, Limited(p, ms, [], limit), [], mem, 1)
  {
    hide Aligned, Limited, FixedSize, CutInside;
    var p, ms, limit := BareProcess([]), ExampleMappings(), 0x3FFF;
    BareFixedSize();
    ExampleCut(limit);
    AlignmentUnderPriority(p, ms, [], mem, limit, 1);
    assert CutInside(Sizes(ms), Excess(p, ms, [], limit), 0);
  }

  lemma BareFixedSize()
    ensures FixedSize(BareProcess([]), 2, []) == 0x1000
  {
    assert AnnouncedNoteSize(BareProcess([])) == 156;
  }

  lemma ExampleCut(limit: nat)
    requires limit == 0x3FFF
    ensures var ms := ExampleMappings();
            CutInside(Sizes(ms), 0x1000 + Sum(Sizes(ms)) - limit, 0)
  {
    var ws: seq<nat> := [0x2000, 0x1000];
    assert Sizes(ExampleMappings()) == ws;
    assert ws[..1] == [0x2000];
    assert SumBefore(ws, 0, 1) == 0;
  }

  lemma CutIsPartial(p: Process, ms: seq<Mapping>, vdso: seq<Phdr>, limit: nat, q: nat)
    requires p.Valid() && q < |ms| && limit > 0
    ensures CutInside(Sizes(ms), Excess(p, ms, vdso, limit), q)
            <==> 0 < Limited(p, ms, vdso, limit)[q].writeSize < ms[q].writeSize
  {
    hide FixedSize, Shrink, CutInside, Sum;
    ShrinkCuts(Sizes(ms), FixedSize(p, |ms|, vdso), limit, q);
  }

  /** No mapping in front of `i` is cut in two. */
  lemma AlignedWithoutCut(p: Process, ms: seq<Mapping>, vdso: seq<Phdr>, mem: Memory, limit: nat, i: nat)
    requires p.Valid() && i < |ms| && limit > 0
    requires forall m :: m in ms ==> PageMapping(m, p.pagesize)
    requires forall q :: 0 <= q < i ==> !(0 < Limited(p, ms, vdso, limit)[q].writeSize < ms[q].writeSize)
    ensures Aligned(p, Limited(p, ms, vdso, limit), vdso, mem, i)
  {
    hide AnnouncedNoteSize, PagePadding, VdsoSegments, SegmentViews, CoreSegments, Sum, DataOffset, Shrink, FixedSize;
    var final := Limited(p, ms, vdso, limit);
    var n := |CoreSegments(p, final, vdso, mem)| + 1;
    MappingHeader(p, final, vdso, mem, i);
    DataStartsOnPage(p, n);
    MultipleIsZero(p.pagesize, 0);
    forall k | 0 <= k < i
      ensures final[k].writeSize % p.pagesize == 0
    {
      assert ms[k] in ms && PageMapping(ms[k], p.pagesize);
      LimitedFits(p, ms, vdso, limit, k);
      AtMostAll(p, ms, vdso, limit, k);
    }
    PagedTotal(final, mem, p.pagesize, i);
    assert ms[i] in ms && PageMapping(ms[i], p.pagesize);
    ModAdd(DataOffset(n, AnnouncedNoteSize(p), p.pagesize), Sum(Sizes(final)[..i]), p.pagesize);
  }

  lemma AtMostAll(p: Process, ms: seq<Mapping>, vdso: seq<Phdr>, limit: nat, k: nat)
    requires p.Valid() && k < |ms|
    ensures Limited(p, ms, vdso, limit)[k].writeSize <= ms[k].writeSize
  {
    hide FixedSize, Shrink;
    ShrinkInOrder(Sizes(ms), FixedSize(p, |ms|, vdso), limit);
  }

  /** Mapping `q`, in front of `i`, is cut in two. */
  lemma AlignedBehindCut(p: Process, ms: seq<Mapping>, vdso: seq<Phdr>, mem: Memory, limit: nat, q: nat, i: nat)
    requires p.Valid() && q < i < |ms| && limit > 0
    requires forall m :: m in ms ==> PageMapping(m, p.pagesize)
    requires 0 < Limited(p, ms, vdso, limit)[q].writeSize < ms[q].writeSize
    ensures Aligned(p, Limited(p, ms, vdso, limit), vdso, mem, i) <==> (limit - VdsoSize(vdso)) % p.pagesize == 0
  {
    hide AnnouncedNoteSize, PagePadding, VdsoSegments, SegmentViews, CoreSegments, Sum, DataOffset, Shrink;
    var final := Limited(p, ms, vdso, limit);
    var ws := Sizes(final);
    var n := |CoreSegments(p, final, vdso, mem)| + 1;
    var at := DataOffset(n, AnnouncedNoteSize(p), p.pagesize);
    MappingHeader(p, final, vdso, mem, i);
    DataStartsOnPage(p, n);
    OnlyOnePartial(p, ms, vdso, mem, limit, q);
    assert PageMapping(ms[i], p.pagesize);
    PartialSum(ws, q, i, p.pagesize);
    PartialSum(ws, q, |ws|, p.pagesize);
    assert ws[..|ws|] == ws;
    ModAdd(at, Sum(ws[..i]), p.pagesize);
    ModAdd(at, Sum(ws), p.pagesize);
  }

  /** If all sizes but one are whole pages, that one decides the sum's remainder. */
  lemma {:induction false} PartialSum(ws: seq<nat>, q: nat, i: nat, m: nat)
    requires m > 0 && q < |ws| && i <= |ws|
    requires forall k :: 0 <= k < |ws| && k != q ==> ws[k] % m == 0
    ensures Sum(ws[..i]) % m == if q < i then ws[q] % m else 0
  {
    if i > 0 {
      PartialSum(ws, q, i - 1, m);
      assert ws[..i][..i - 1] == ws[..i - 1];
      if i - 1 == q {
        ModAdd(Sum(ws[..q]), ws[q], m);
      } else {
        ModAdd(ws[i - 1], Sum(ws[..i - 1]), m);
      }
    } else {
      MultipleIsZero(m, 0);
    }
  }

  /** All mappings but the one that is cut in two keep whole pages. */
  lemma OthersWhole(ms: seq<Mapping>, r: seq<nat>, pagesize: nat, q: nat)
    requires pagesize > 0 && q < |ms| && forall m :: m in ms ==> PageMapping(m, pagesize)
    requires TakenInOrder(Sizes(ms), r) && 0 < r[q] < ms[q].writeSize
    ensures |r| == |ms| && forall k :: 0 <= k < |ms| ==> r[k] <= ms[k].writeSize
    ensures forall k :: 0 <= k < |ms| && k != q ==> r[k] % pagesize == 0
  {
    MultipleIsZero(pagesize, 0);
    forall k | 0 <= k < |ms| && k != q
      ensures r[k] % pagesize == 0
    {
      assert ms[k] in ms;
      if r[k] < ms[k].writeSize {
        AtMostOnePartial(Sizes(ms), r, q, k);
      }
    }
  }

  lemma OnlyOnePartial(p: Process, ms: seq<Mapping>, vdso: seq<Phdr>, mem: Memory, limit: nat, q: nat)
    requires p.Valid() && q < |ms| && limit > 0
    requires forall m :: m in ms ==> PageMapping(m, p.pagesize)
    requires 0 < Limited(p, ms, vdso, limit)[q].writeSize < ms[q].writeSize
    ensures var final := Limited(p, ms, vdso, limit);
            var at := DataOffset(|CoreSegments(p, final, vdso, mem)| + 1, AnnouncedNoteSize(p), p.pagesize);
            && (forall k :: 0 <= k < |ms| && k != q ==> Sizes(final)[k] % p.pagesize == 0)
            && at + VdsoSize(vdso) + Sum(Sizes(final)) == limit
  {
    hide AnnouncedNoteSize, PagePadding, VdsoSegments, Sum, DataOffset, Shrink, TakenInOrder, PageMapping;
    var fixed := FixedSize(p, |ms|, vdso);
    var ws, r := Sizes(ms), Shrink(Sizes(ms), FixedSize(p, |ms|, vdso), limit);
    var final := Limited(p, ms, vdso, limit);
    assert Sizes(final) == r;
    ShrinkInOrder(ws, fixed, limit);
    ShrunkTotal(ws, fixed, limit);
    OthersWhole(ms, r, p.pagesize, q);
    SumLess(r, ws, q);
    SumAtLeast(r, q);
    Counts(p, ms, vdso, mem, limit);
  }
}
