/** A core dump from the text of the memory map to what a reader of the file sees. */
module CoreDump {
  import opened Bytes
  import opened Writers
  import opened ElfFormat
  import opened ElfReader
  import opened CoreRoundTrip
  import opened MapsReader
  import opened MapsTable
  import opened MapsText
  import opened Vdso
  import opened SegmentWriter
  import opened HeaderWriter
  import opened CoreWriter
  import opened CoreTheorems
  import opened CoreContents
  import opened Prioritize

  // ---------- What fits into the file format ----------

  /** A mapping whose fields are machine words. */
  predicate WordMapping(m: Mapping) {
    m.start < SIZE_LIMIT && m.flags < 8
  }

  lemma LineWords(l: MapLine, mem: Memory, access: Access, pagesize: nat)
    requires pagesize > 0
    ensures WordMapping(LineMapping(Meaning(l), ZerosOf(Meaning(l), mem, access, pagesize)))
  {
    hide ZerosOf, HexValue, FlagBits, IsDevicePath;
  }

  lemma {:induction false} MeaningsAt(ls: seq<MapLine>, i: nat)
    requires i < |ls|
    ensures Meanings(ls)[i] == Meaning(ls[i])
  {
    if i > 0 {
      MeaningsAt(ls[1..], i - 1);
    }
  }

  /** Every mapping that a map of lines leads to has fields that fit. */
  lemma {:induction false} TableWords(lines: seq<Line>, mem: Memory, access: Access, pagesize: nat)
    requires pagesize > 0
    requires forall l :: l in lines ==> WordMapping(LineMapping(l, ZerosOf(l, mem, access, pagesize)))
    ensures forall m :: m in Table(lines, mem, access, pagesize) ==> WordMapping(m)
  {
    hide WordMapping, LineMapping, ZerosOf;
    if lines != [] {
      var k := |lines| - 1;
      TableWords(lines[..k], mem, access, pagesize);
    }
  }

  lemma MapWords(ls: seq<MapLine>, mem: Memory, access: Access, pagesize: nat)
    requires pagesize > 0
    ensures forall m :: m in Table(Meanings(ls), mem, access, pagesize) ==> WordMapping(m)
  {
    hide Table, WordMapping, LineMapping, ZerosOf, Meaning, Meanings;
    forall l | l in Meanings(ls)
      ensures WordMapping(LineMapping(l, ZerosOf(l, mem, access, pagesize)))
    {
      var i :| 0 <= i < |Meanings(ls)| && Meanings(ls)[i] == l;
      MeaningsAt(ls, i);
      LineWords(ls[i], mem, access, pagesize);
    }
    TableWords(Meanings(ls), mem, access, pagesize);
  }

  /** The fields of a program header of the vdso, as wide as in its table. */
  predicate WordHeader(p: Phdr) {
    && FitsField(4, p.ptype) && FitsField(4, p.flags) && FitsField(8, p.vaddr) && FitsField(8, p.memsz)
    && FitsField(8, p.align)
  }

  lemma {:induction false} VdsoSegmentsFit(vdso: seq<Phdr>, mem: Memory)
    requires forall p :: p in vdso ==> WordHeader(p)
    ensures forall s :: s in VdsoSegments(vdso, mem) ==> SegmentFits(s)
  {
    if vdso != [] {
      assert vdso[0] in vdso && forall p :: p in vdso[1..] ==> p in vdso;
      VdsoSegmentsFit(vdso[1..], mem);
    }
  }

  lemma MappingFits(m: Mapping, mem: Memory, pagesize: nat)
    requires WordMapping(m) && pagesize < SIZE_LIMIT
    ensures SegmentFits(MappingSegment(m, mem, pagesize))
  {
  }

  /** What a dump needs so that its file can be read: fewer than 65535 segments, a file
      shorter than 2^64 bytes, and notes shorter than 2^32. */
  ghost predicate Storable(p: Process, segments: seq<Segment>)
    requires p.Valid()
  {
    && FitsField(2, |segments| + 1) && FitsField(8, |CoreFile(p, segments)|)
    && forall n :: n in CoreNotes(p) ==> NoteFits(n)
  }

  lemma LimitedWords(p: Process, ms: seq<Mapping>, vdso: seq<Phdr>, prioritize: nat)
    requires p.Valid() && forall m :: m in ms ==> WordMapping(m)
    ensures forall m :: m in Limited(p, ms, vdso, prioritize) ==> WordMapping(m)
  {
    hide FixedSize;
    var final := Limited(p, ms, vdso, prioritize);
    forall m | m in final
      ensures WordMapping(m)
    {
      var i :| 0 <= i < |final| && final[i] == m;
      assert ms[i] in ms;
    }
  }

  lemma DumpFits(p: Process, ms: seq<Mapping>, vdso: seq<Phdr>, mem: Memory, prioritize: nat)
    requires p.Valid() && (forall m :: m in ms ==> WordMapping(m)) && (forall h :: h in vdso ==> WordHeader(h))
    requires Storable(p, Segments(p, ms, vdso, mem, prioritize))
    ensures Fits(p, Segments(p, ms, vdso, mem, prioritize))
  {
    hide CoreFile, CoreNotes, NoteFits, WordMapping, WordHeader, SegmentFits, Limited, MappingSegment, VdsoSegments;
    var segments, final := Segments(p, ms, vdso, mem, prioritize), Limited(p, ms, vdso, prioritize);
    LimitedWords(p, ms, vdso, prioritize);
    VdsoSegmentsFit(vdso, mem);
    FinalSegments(p, ms, vdso, mem, prioritize);
    forall s | s in segments
      ensures SegmentFits(s)
    {
      var i :| 0 <= i < |segments| && segments[i] == s;
      if i < |final| {
        assert final[i] in final;
        MappingFits(final[i], mem, p.pagesize);
      } else {
        assert s == VdsoSegments(vdso, mem)[i - |final|];
      }
    }
  }

  // ---------- What a reader sees ----------

  /** The header of a mapping of which `size` bytes are left: loadable, at its address,
      with that size in the file and its full size in memory. */
  predicate HeaderOf(h: Header, m: Mapping, size: nat, pagesize: nat) {
    && h.ptype == 1 && h.flags == m.flags && h.vaddr == m.start && h.paddr == 0
    && h.filesz == size && h.memsz == (m.end - m.start) % SIZE_LIMIT && h.align == pagesize
  }

  /** A reader finds the process's notes, the mappings with the sizes left to them, the
      headers of the vdso that are not loadable behind them, and in every segment the
      memory from its address on, as much of it as its header says. */
  ghost predicate Shows(image: CoreImage, p: Process, ms: seq<Mapping>, sizes: seq<nat>, vdso: seq<Phdr>, mem: Memory)
    requires p.Valid() && |sizes| == |ms|
  {
    && (exists main :: NotesShown(image.notes, p, main))
    && |image.segments| == |ms| + ExtraHeaders(vdso)
    && (forall i :: 0 <= i < |image.segments| ==>
          var s := image.segments[i];
          s.data == MemoryRange(mem, s.header.vaddr, s.header.filesz))
    && (forall i :: 0 <= i < |ms| ==> HeaderOf(image.segments[i].header, ms[i], sizes[i], p.pagesize))
    && (forall j :: 0 <= j < |vdso| && vdso[j].ptype != 1 ==>
          var at := |ms| + ExtraHeaders(vdso[..j]);
          at < |image.segments| && CopyOf(image.segments[at].header, vdso[j]))
  }

  /** What the segments are that a dump's headers describe. */
  lemma SegmentsAt(p: Process, ms: seq<Mapping>, vdso: seq<Phdr>, mem: Memory, prioritize: nat)
    requires p.Valid()
    ensures var s, final := Segments(p, ms, vdso, mem, prioritize), Limited(p, ms, vdso, prioritize);
            && |s| == |final| + ExtraHeaders(vdso) && |final| == |ms|
            && (forall i :: 0 <= i < |final| ==> s[i] == MappingSegment(final[i], mem, p.pagesize))
            && (forall j :: 0 <= j < |vdso| && vdso[j].ptype != 1 ==>
                  var at := |final| + ExtraHeaders(vdso[..j]);
                  at < |s| && s[at] == VdsoSegment(vdso[j], mem))
  {
    hide VdsoSegments, VdsoSegment, MappingSegment, Limited, ExtraHeaders;
    PlanHoldsMemory(p, ms, vdso, mem, prioritize);
    VdsoTotals(vdso, mem);
    FinalSegments(p, ms, vdso, mem, prioritize);
    forall j | 0 <= j < |vdso| && vdso[j].ptype != 1
      ensures var at := ExtraHeaders(vdso[..j]);
              at < |VdsoSegments(vdso, mem)| && VdsoSegments(vdso, mem)[at] == VdsoSegment(vdso[j], mem)
    {
      VdsoSegmentAt(vdso, mem, j);
    }
  }

  lemma MappingDescribed(h: Header, m: Mapping, final: Mapping, mem: Memory, pagesize: nat)
    requires Describes(h, MappingSegment(final, mem, pagesize)) && final == m.(writeSize := final.writeSize)
    ensures HeaderOf(h, m, final.writeSize, pagesize)
  {
  }

  /** Limiting a mapping changes nothing but its size. */
  lemma LimitedKeeps(p: Process, ms: seq<Mapping>, vdso: seq<Phdr>, prioritize: nat, i: nat)
    requires p.Valid() && i < |ms|
    ensures var m := Limited(p, ms, vdso, prioritize)[i];
            m == Mapping(ms[i].start, ms[i].end, ms[i].offset, m.writeSize, ms[i].flags, ms[i].anonymous)
  {
    hide FixedSize, Shrink;
  }

  lemma VdsoDescribed(h: Header, v: Phdr, mem: Memory)
    requires Describes(h, VdsoSegment(v, mem))
    ensures CopyOf(h, v)
  {
  }

  /** The mappings and the vdso headers that a memory map of these lines leads to. */
  function MappingsOf(ls: seq<MapLine>, p: Process, mem: Memory, access: Access): seq<Mapping>
    requires p.Valid()
  {
    Table(Meanings(ls), mem, access, p.pagesize)
  }

  ghost function HeadersOfVdso(ls: seq<MapLine>, p: Process, v: Option<Image>, mem: Memory, access: Access): seq<Phdr>
    requires p.Valid()
  {
    TrustedHeaders(MappingsOf(ls, p, mem, access), v)
  }

  ghost function SegmentsOf(ls: seq<MapLine>, p: Process, v: Option<Image>, mem: Memory, access: Access,
                            prioritize: nat): seq<Segment>
    requires p.Valid()
  {
    Segments(p, MappingsOf(ls, p, mem, access), HeadersOfVdso(ls, p, v, mem, access), mem, prioritize)
  }

  /** What such a reader is shown. */
  ghost predicate ShowsDump(image: CoreImage, ls: seq<MapLine>, p: Process, v: Option<Image>, mem: Memory,
                            access: Access, prioritize: nat)
    requires p.Valid()
  {
    var ms, vdso := MappingsOf(ls, p, mem, access), HeadersOfVdso(ls, p, v, mem, access);
    Shows(image, p, ms, Sizes(Limited(p, ms, vdso, prioritize)), vdso, mem)
  }

  /** A vdso whose program headers are as wide as the file format has them. */
  ghost predicate WordImage(v: Option<Image>) {
    v.Some? ==> forall i: nat :: WordHeader(v.value.table(i))
  }

  lemma {:induction false} TrustedWords(ms: seq<Mapping>, v: Option<Image>)
    requires WordImage(v)
    ensures forall h :: h in TrustedHeaders(ms, v) ==> WordHeader(h)
  {
    hide Sane, Covers, WordHeader;
    if v.Some? && v.value.address != 0 && ms != [] && !Covers(ms[0], v.value.address) {
      TrustedWords(ms[1..], v);
    }
  }

  lemma DumpShown(ls: seq<MapLine>, p: Process, v: Option<Image>, mem: Memory, access: Access, prioritize: nat)
    returns (image: CoreImage)
    requires p.Valid() && CountOf(p.threads, p.mainPid) <= 1 && WordImage(v)
    requires Storable(p, SegmentsOf(ls, p, v, mem, access, prioritize))
    ensures ReadCore(CoreFile(p, SegmentsOf(ls, p, v, mem, access, prioritize))) == Some(image)
    ensures ShowsDump(image, ls, p, v, mem, access, prioritize)
  {
    hide ReadCore, CoreFile, Segments, Fits, Storable, CountOf, CoreNotes, NoteViews, Limited, ExtraHeaders, Table,
      Meanings, TrustedHeaders, WordMapping, WordHeader, WordImage;
    var ms, vdso := MappingsOf(ls, p, mem, access), HeadersOfVdso(ls, p, v, mem, access);
    ValidPagesize(p);
    MapWords(ls, mem, access, p.pagesize);
    TrustedWords(ms, v);
    DumpFits(p, ms, vdso, mem, prioritize);
    image := DumpReadBack(p, ms, vdso, mem, prioritize);
    var main := CoreNotesShown(p);
    HeadersShown(image, p, ms, vdso, mem, prioritize);
  }

  lemma HeadersShown(image: CoreImage, p: Process, ms: seq<Mapping>, vdso: seq<Phdr>, mem: Memory, prioritize: nat)
    requires p.Valid() && |image.segments| == |Segments(p, ms, vdso, mem, prioritize)|
    requires forall i :: 0 <= i < |image.segments| ==>
               Describes(image.segments[i].header, Segments(p, ms, vdso, mem, prioritize)[i])
    ensures var sizes := Sizes(Limited(p, ms, vdso, prioritize));
            && |image.segments| == |ms| + ExtraHeaders(vdso)
            && (forall i :: 0 <= i < |ms| ==> HeaderOf(image.segments[i].header, ms[i], sizes[i], p.pagesize))
            && (forall j :: 0 <= j < |vdso| && vdso[j].ptype != 1 ==>
                  var at := |ms| + ExtraHeaders(vdso[..j]);
                  at < |image.segments| && CopyOf(image.segments[at].header, vdso[j]))
  {
    hide Segments, Describes, HeaderOf, CopyOf, MappingSegment, VdsoSegment, ExtraHeaders, Limited;
    var final := Limited(p, ms, vdso, prioritize);
    SegmentsAt(p, ms, vdso, mem, prioritize);
    forall i | 0 <= i < |final|
      ensures HeaderOf(image.segments[i].header, ms[i], final[i].writeSize, p.pagesize)
    {
      LimitedKeeps(p, ms, vdso, prioritize, i);
      MappingDescribed(image.segments[i].header, ms[i], final[i], mem, p.pagesize);
    }
    forall j | 0 <= j < |vdso| && vdso[j].ptype != 1
      ensures CopyOf(image.segments[|final| + ExtraHeaders(vdso[..j])].header, vdso[j])
    {
      VdsoDescribed(image.segments[|final| + ExtraHeaders(vdso[..j])].header, vdso[j], mem);
    }
  }

  lemma PlanOfLines(ls: seq<MapLine>, p: Process, v: Option<Image>, mem: Memory, access: Access, prioritize: nat)
    requires p.Valid() && forall l :: l in ls ==> WellFormed(l)
    ensures Plan(RenderAll(ls), p, v, mem, access, prioritize) == Some(SegmentsOf(ls, p, v, mem, access, prioritize))
  {
    hide WellFormed, RenderAll, MapTable, Table, Meanings, Segments, TrustedHeaders;
    MapReadBack(ls, mem, access, p.pagesize);
  }

  /** Whether the file of a dump has room in what a writer may still take. */
  ghost predicate HasRoom(before: View, file: seq<byte>) {
    before.limited ==> |file| <= before.room
  }

  lemma CompleteDump(before: View, after: View, file: seq<byte>, complete: bool)
    requires Attempt(before, after, file, complete)
    ensures complete ==> after.out == before.out + file
    ensures before.clean && HasRoom(before, file) ==> complete
  {
  }

  /** A dump, from the kernel's text of the memory map to the reader of the file. If it
      is complete, and it is if nothing goes wrong and there is room for it, then what
      it appended to the output can be read: the reader, who follows nothing but the
      headers, is shown the process. */
  method DumpAndReadBack(h: Handle, calls: Calls, first: Io, second: Io, ghost ls: seq<MapLine>, p: Process,
                         v: Option<Image>, mem: Memory, access: Access, prioritize: nat)
    returns (rc: int, ghost complete: bool, ghost file: seq<byte>, ghost image: CoreImage)
    requires p.Valid() && first != second && first.Valid() && second.Valid()
    requires first.Pending() == RenderAll(ls) && second.Pending() == RenderAll(ls)
    requires CountOf(p.threads, p.mainPid) <= 1 && WordImage(v) && forall l :: l in ls ==> WellFormed(l)
    requires Storable(p, SegmentsOf(ls, p, v, mem, access, prioritize))
    modifies h, h.file, first, second
    ensures IsCoreFile(file) && ReadCore(file) == Some(image) && ShowsDump(image, ls, p, v, mem, access, prioritize)
    ensures complete ==> rc == 0 && h.file.contents == old(h.file.contents) + file
    ensures (&& calls == Calls(true, true, true) && Clean(old(first.answers)) && Clean(old(second.answers))
             && Clean(old(h.file.answers)) && HasRoom(old(h.State()), file)) ==>
              complete
  {
    hide *;
    ghost var before := h.State();
    ViewOf(h);
    OutputOf(h);
    file := CoreFile(p, SegmentsOf(ls, p, v, mem, access, prioritize));
    image := DumpShown(ls, p, v, mem, access, prioritize);
    CoreFileIsOne(p, SegmentsOf(ls, p, v, mem, access, prioritize));
    PlanOfLines(ls, p, v, mem, access, prioritize);
    ghost var started: bool;
    rc, started, complete := CreateElfCore(h, calls, first, second, p, v, mem, access, prioritize);
    OutputOf(h);
    if started {
      CompleteDump(before, h.State(), file, complete);
    }
  }

  lemma OutputOf(h: Handle)
    ensures h.State().out == h.file.contents
  {
  }
}
