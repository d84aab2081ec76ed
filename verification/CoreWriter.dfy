/** `CreateElfCore`: reads the memory map, lays the file out, and writes it piece by
    piece through a writer that may stop at any point. */
module CoreWriter {
  import opened Bytes
  import opened Writers
  import opened Emission
  import opened ElfFormat
  import opened MapsReader
  import opened MapsTable
  import opened Prioritize
  import opened Vdso
  import opened SegmentWriter
  import opened NoteWriter
  import opened HeaderWriter

  /** The segments of the file, once mappings and vdso are known. */
  function Segments(p: Process, ms: seq<Mapping>, vdso: seq<Phdr>, mem: Memory, prioritize: nat): seq<Segment>
    requires p.Valid()
  {
    CoreSegments(p, Limited(p, ms, vdso, prioritize), vdso, mem)
  }

  /** What a memory map leads to: the segments to dump, or nothing for a map that
      cannot be parsed. */
  ghost function Plan(text: seq<byte>, p: Process, v: Option<Image>, mem: Memory, access: Access, prioritize: nat)
    : Option<seq<Segment>>
    requires p.Valid()
  {
    var ms := MapTable(Newlines(text), text, mem, access, p.pagesize);
    if ms.None? then None
    else Some(Segments(p, ms.value, TrustedHeaders(ms.value, v), mem, prioritize))
  }

  // ---------- The front of the file ----------

  lemma Counts(p: Process, ms: seq<Mapping>, vdso: seq<Phdr>, mem: Memory, prioritize: nat)
    requires p.Valid()
    ensures var s := Segments(p, ms, vdso, mem, prioritize);
            var final := Limited(p, ms, vdso, prioritize);
            && |s| == |ms| + ExtraHeaders(vdso) && |final| == |ms|
            && s[..|ms|] == MappingSegments(final, mem, p.pagesize)
            && s[|ms|..] == VdsoSegments(vdso, mem)
            && FixedSize(p, |ms|, vdso)
               == DataOffset(|s| + 1, AnnouncedNoteSize(p), p.pagesize) + VdsoSize(vdso)
  {
    hide AnnouncedNoteSize, PagePadding, VdsoSegments, MappingSegment, Shrink;
    VdsoTotals(vdso, mem);
  }

  lemma FrontPrefix(e: seq<byte>, table: seq<byte>, notes: seq<byte>, pad: seq<byte>, data: seq<byte>)
    ensures e <= (e + table) + notes + pad + data && e + table <= (e + table) + notes + pad + data
  {
  }

  lemma FrontInside(p: Process, segments: seq<Segment>)
    requires p.Valid()
    ensures var e := EncodeEhdr(|segments| + 1);
            && e <= CoreFile(p, segments)
            && CoreHeader(p, segments) == e + Flatten(EncodePhdrs(CorePhdrs(p, segments)))
            && e + Flatten(EncodePhdrs(CorePhdrs(p, segments))) <= CoreFile(p, segments)
  {
    hide EncodeEhdr, EncodePhdrs, EncodeNotes, AnnouncedNoteSize, Contents, Flatten, CorePadding, CorePhdrs, CoreNotes;
    FrontPrefix(EncodeEhdr(|segments| + 1), Flatten(EncodePhdrs(CorePhdrs(p, segments))),
                EncodeNotes(CoreNotes(p)), CorePadding(p, segments), Flatten(Contents(segments)));
  }

  lemma StartTable(start: View, now: View, front: seq<byte>, ps: seq<Phdr>, target: seq<byte>)
    requires Reached(start, now, front, target) && front + Flatten(EncodePhdrs(ps)) <= target
    ensures TableReached(start, now, front, ps, 0, target)
  {
    NothingFlattened(front, EncodePhdrs(ps));
  }

  lemma DoneTable(start: View, now: View, front: seq<byte>, ps: seq<Phdr>, target: seq<byte>)
    requires TableReached(start, now, front, ps, |ps|, target)
    ensures Reached(start, now, front + Flatten(EncodePhdrs(ps)), target)
  {
    assert EncodePhdrs(ps)[..|ps|] == EncodePhdrs(ps);
  }

  /** Reduces the mappings if the option is on: the file must fit around the parts
      that are never reduced. */
  method Prioritized(p: Process, mappings: array<Mapping>, num: nat, vdso: seq<Phdr>, fixed: nat, prioritize: nat)
    requires p.Valid() && num <= mappings.Length
    requires fixed + VdsoSize(vdso) == FixedSize(p, num, vdso)
    modifies mappings
    ensures mappings[..num] == Limited(p, old(mappings[..num]), vdso, prioritize)
  {
    hide FixedSize, Shrink;
    if prioritize > 0 {
      var vdsoSize := SumVdso(vdso);
      ShrinkMappings(mappings, num, fixed + vdsoSize, prioritize);
    }
  }

  /** The program headers, behind an ELF header that is already out. */
  method WriteTable(h: Handle, p: Process, mappings: array<Mapping>, num: nat, vdso: seq<Phdr>, mem: Memory,
                    prioritize: nat, n: nat, ghost segments: seq<Segment>, ghost dataAt: nat, ghost ps: seq<Phdr>,
                    ghost start: View, ghost front: seq<byte>, ghost target: seq<byte>)
    returns (ok: bool, noteAlign: nat)
    requires p.Valid() && p.pagesize > 0 && num <= mappings.Length && num <= |segments|
    requires segments[..num] == MappingSegments(Limited(p, mappings[..num], vdso, prioritize), mem, p.pagesize)
    requires segments[num..] == VdsoSegments(vdso, mem)
    requires ps == [NotePhdr(NoteOffset(n), AnnouncedNoteSize(p))] + SegmentPhdrs(segments, dataAt)
    requires |ps| == 1 + |segments| && ps[0] == NotePhdr(NoteOffset(n), AnnouncedNoteSize(p))
    requires dataAt == NoteOffset(n) + AnnouncedNoteSize(p)
                       + PagePadding(NoteOffset(n) + AnnouncedNoteSize(p), p.pagesize)
    requires FixedSize(p, num, vdso) == dataAt + VdsoSize(vdso)
    requires Reached(start, h.State(), front, target) && front + Flatten(EncodePhdrs(ps)) <= target
    modifies h, h.file, mappings
    ensures ok ==> Reached(start, h.State(), front + Flatten(EncodePhdrs(ps)), target)
    ensures !ok ==> Attempt(start, h.State(), target, false)
    ensures ok ==> noteAlign == PagePadding(NoteOffset(n) + AnnouncedNoteSize(p), p.pagesize)
    ensures ok ==> mappings[..num] == Limited(p, old(mappings[..num]), vdso, prioritize)
  {
    hide *;
    noteAlign := 0;
    var offset := NoteOffset(n);
    var filesz := SizeNotes(p);
    StartTable(start, h.State(), front, ps, target);
    ok := WritePhdr(h, NotePhdr(offset, filesz), start, front, ps, 0, target);
    if !ok {
      return;
    }
    noteAlign := AlignNotes(offset + filesz, p.pagesize);
    offset := offset + noteAlign;
    Prioritized(p, mappings, num, vdso, offset + filesz, prioritize);
    ghost var note := ps[0];
    ok, offset, filesz := WriteMappingPhdrs(h, mappings, num, mem, p.pagesize, offset, filesz, segments, note,
                                            start, front, target);
    if !ok {
      return;
    }
    ok := WriteVdsoPhdrs(h, vdso, mem, offset, filesz, num, segments, dataAt, note, start, front, target);
    if ok {
      DoneTable(start, h.State(), front, ps, target);
    }
  }

  /** ELF header and program headers. Returns the padding to be written behind the
      notes; the table of mappings holds the final sizes afterwards. */
  method WriteFront(h: Handle, p: Process, mappings: array<Mapping>, num: nat, vdso: seq<Phdr>, mem: Memory,
                    prioritize: nat, ghost start: View, ghost segments: seq<Segment>, ghost target: seq<byte>)
    returns (ok: bool, noteAlign: nat)
    requires p.Valid() && num <= mappings.Length
    requires segments == Segments(p, mappings[..num], vdso, mem, prioritize) && target == CoreFile(p, segments)
    requires Reached(start, h.State(), [], target)
    modifies h, h.file, mappings
    ensures ok ==> Reached(start, h.State(), CoreHeader(p, segments), target)
    ensures !ok ==> Attempt(start, h.State(), target, false)
    ensures ok ==> noteAlign == PagePadding(NoteOffset(|segments| + 1) + AnnouncedNoteSize(p), p.pagesize)
    ensures ok ==> mappings[..num] == Limited(p, old(mappings[..num]), vdso, prioritize)
  {
    hide *;
    ValidPagesize(p);
    ghost var dataAt := DataOffset(|segments| + 1, AnnouncedNoteSize(p), p.pagesize);
    ghost var front, ps := EncodeEhdr(|segments| + 1), CorePhdrs(p, segments);
    Counts(p, mappings[..num], vdso, mem, prioritize);
    FrontInside(p, segments);
    TableShape(p, segments);
    noteAlign := 0;
    var extra := CountExtra(vdso);
    var n := num + extra + 1;
    ok := EmitFront(h, EncodeEhdr(n), start, target);
    if ok {
      ok, noteAlign := WriteTable(h, p, mappings, num, vdso, mem, prioritize, n, segments, dataAt, ps, start, front,
                                  target);
    }
  }

  lemma ValidPagesize(p: Process)
    requires p.Valid()
    ensures p.pagesize > 0
  {
  }

  /** The first call of the writer. */
  method EmitFront(h: Handle, buf: seq<byte>, ghost start: View, ghost target: seq<byte>) returns (ok: bool)
    requires Reached(start, h.State(), [], target) && buf <= target
    modifies h, h.file
    ensures ok ==> Reached(start, h.State(), buf, target)
    ensures !ok ==> Attempt(start, h.State(), target, false)
  {
    assert [] + buf == buf;
    ok := Emit(h, buf, start, [], target);
  }

  lemma TableShape(p: Process, segments: seq<Segment>)
    requires p.Valid()
    ensures var n, size := |segments| + 1, AnnouncedNoteSize(p);
            var dataAt, ps := DataOffset(n, size, p.pagesize), CorePhdrs(p, segments);
            && ps == [NotePhdr(NoteOffset(n), size)] + SegmentPhdrs(segments, dataAt)
            && |ps| == 1 + |segments| && ps[0] == NotePhdr(NoteOffset(n), size)
            && dataAt == NoteOffset(n) + size + PagePadding(NoteOffset(n) + size, p.pagesize)
  {
    hide AnnouncedNoteSize, PagePadding;
  }

  // ---------- The rest of the file ----------

  lemma BackParts(p: Process, segments: seq<Segment>, ms: seq<Mapping>, vdso: seq<Phdr>, mem: Memory)
    requires p.Valid() && segments == CoreSegments(p, ms, vdso, mem)
    ensures var target := CoreFile(p, segments);
            var a := CoreHeader(p, segments);
            var b := a + EncodeNotes(CoreNotes(p));
            var c := b + CorePadding(p, segments);
            var d := c + Flatten(Contents(MappingSegments(ms, mem, p.pagesize)));
            && b <= target && c <= target && d <= target
            && d + Flatten(Contents(VdsoSegments(vdso, mem))) == target
  {
    hide CoreHeader, EncodeNotes, CorePadding, Flatten, Contents, MappingSegments, VdsoSegments, CoreNotes;
    SplitData(MappingSegments(ms, mem, p.pagesize), VdsoSegments(vdso, mem));
    ChainOfParts(CoreHeader(p, segments), EncodeNotes(CoreNotes(p)), CorePadding(p, segments),
                 Flatten(Contents(MappingSegments(ms, mem, p.pagesize))), Flatten(Contents(VdsoSegments(vdso, mem))));
  }

  lemma SplitData(a: seq<Segment>, b: seq<Segment>)
    ensures Flatten(Contents(a + b)) == Flatten(Contents(a)) + Flatten(Contents(b))
  {
    assert Contents(a + b) == Contents(a) + Contents(b);
    FlattenAppend(Contents(a), Contents(b));
  }

  lemma ChainOfParts(h: seq<byte>, n: seq<byte>, p: seq<byte>, x: seq<byte>, y: seq<byte>)
    ensures var target := h + n + p + (x + y);
            h + n <= target && h + n + p <= target && h + n + p + x <= target && h + n + p + x + y == target
  {
  }

  /** Notes, padding and segments, behind headers that are already out. */
  method WriteBack(h: Handle, p: Process, mappings: array<Mapping>, num: nat, vdso: seq<Phdr>, mem: Memory,
                   noteAlign: nat, ghost segments: seq<Segment>, ghost start: View, ghost target: seq<byte>)
    returns (ok: bool)
    requires p.Valid() && num <= mappings.Length
    requires segments == CoreSegments(p, mappings[..num], vdso, mem) && target == CoreFile(p, segments)
    requires Zeros(noteAlign) == CorePadding(p, segments)
    requires Reached(start, h.State(), CoreHeader(p, segments), target)
    modifies h, h.file
    ensures ok ==> Reached(start, h.State(), target, target)
    ensures !ok ==> Attempt(start, h.State(), target, false)
  {
    hide *;
    ghost var ms := mappings[..num];
    BackParts(p, segments, ms, vdso, mem);
    ghost var done := CoreHeader(p, segments);
    ok := WriteNotes(h, p, start, done, target);
    Concludes(start, h.State(), done + EncodeNotes(CoreNotes(p)), target, ok);
    if ok {
      done := done + EncodeNotes(CoreNotes(p));
      ok := WritePadding(h, noteAlign, start, done, target);
    }
    if ok {
      done := done + CorePadding(p, segments);
      ok := WriteMappings(h, mappings, num, mem, p.pagesize, start, done, target);
      Concludes(start, h.State(), done + Flatten(Contents(MappingSegments(ms, mem, p.pagesize))), target, ok);
    }
    if ok {
      done := done + Flatten(Contents(MappingSegments(ms, mem, p.pagesize)));
      ok := WriteVdso(h, vdso, mem, start, done, target);
      Concludes(start, h.State(), target, target, ok);
    }
  }

  lemma Concludes(start: View, now: View, done: seq<byte>, target: seq<byte>, ok: bool)
    requires Outcome(start, now, done, target, ok)
    ensures ok ==> Reached(start, now, done, target)
    ensures !ok ==> Attempt(start, now, target, false)
  {
  }

  /** Zero bytes up to the next page, if any are needed. */
  method WritePadding(h: Handle, noteAlign: nat, ghost start: View, ghost done: seq<byte>, ghost target: seq<byte>)
    returns (ok: bool)
    requires Reached(start, h.State(), done, target) && done + Zeros(noteAlign) <= target
    modifies h, h.file
    ensures ok ==> Reached(start, h.State(), done + Zeros(noteAlign), target)
    ensures !ok ==> Attempt(start, h.State(), target, false)
  {
    if noteAlign > 0 {
      ok := Emit(h, Zeros(noteAlign), start, done, target);
    } else {
      assert done + Zeros(noteAlign) == done;
      ok := true;
    }
  }

  /** The file, once the memory map is known. */
  method WriteFile(h: Handle, p: Process, mappings: array<Mapping>, num: nat, vdso: seq<Phdr>, mem: Memory,
                   prioritize: nat)
    returns (ok: bool)
    requires p.Valid() && num <= mappings.Length
    modifies h, h.file, mappings
    ensures Attempt(old(h.State()), h.State(),
                    CoreFile(p, Segments(p, old(mappings[..num]), vdso, mem, prioritize)), ok)
  {
    hide *;
    ghost var start := h.State();
    ghost var segments := Segments(p, mappings[..num], vdso, mem, prioritize);
    ghost var target := CoreFile(p, segments);
    assert Reached(start, h.State(), [], target) by {
      NothingReached(start, target);
    }
    var noteAlign: nat;
    ghost var final := Limited(p, mappings[..num], vdso, prioritize);
    FinalSegments(p, mappings[..num], vdso, mem, prioritize);
    ok, noteAlign := WriteFront(h, p, mappings, num, vdso, mem, prioritize, start, segments, target);
    if ok {
      PaddingOf(p, segments, noteAlign);
      ok := WriteBack(h, p, mappings, num, vdso, mem, noteAlign, segments, start, target);
    }
    if ok {
      AllReached(start, h.State(), target);
    }
  }

  lemma NothingReached(start: View, target: seq<byte>)
    ensures Reached(start, start, [], target)
  {
    AttemptNothing(start);
  }

  lemma AllReached(start: View, now: View, target: seq<byte>)
    requires Reached(start, now, target, target)
    ensures Attempt(start, now, target, true)
  {
  }

  lemma FinalSegments(p: Process, ms: seq<Mapping>, vdso: seq<Phdr>, mem: Memory, prioritize: nat)
    requires p.Valid()
    ensures Segments(p, ms, vdso, mem, prioritize) == CoreSegments(p, Limited(p, ms, vdso, prioritize), vdso, mem)
  {
  }

  lemma PaddingOf(p: Process, segments: seq<Segment>, noteAlign: nat)
    requires p.Valid()
    requires p.pagesize > 0 ==> noteAlign == PagePadding(NoteOffset(|segments| + 1) + AnnouncedNoteSize(p), p.pagesize)
    ensures Zeros(noteAlign) == CorePadding(p, segments)
  {
  }

  // ---------- CreateElfCore ----------

  /** Whether the system calls around the reading of the map succeed. */
  datatype Calls = Calls(loopback: bool, firstMaps: bool, secondMaps: bool)

  /** `CreateElfCore`. The map is read twice and does not change in between; each time
      the kernel cuts it up in its own way. `started` tells whether the map could be
      read, so that writing began, and `complete` whether all of the file is out. */
  method CreateElfCore(h: Handle, calls: Calls, first: Io, second: Io, p: Process, v: Option<Image>,
                       mem: Memory, access: Access, prioritize: nat)
    returns (rc: int, ghost started: bool, ghost complete: bool)
    requires p.Valid() && first != second && first.Valid() && second.Valid()
    requires first.Pending() == second.Pending()
    modifies h, h.file, first, second
    ensures var plan := Plan(old(first.Pending()), p, v, mem, access, prioritize);
            && (started ==> plan.Some? && Attempt(old(h.State()), h.State(), CoreFile(p, plan.value), complete))
            && (calls == Calls(true, true, true) && Clean(old(first.answers)) && Clean(old(second.answers)) ==>
                  (started <==> plan.Some?))
    ensures !started ==> !complete && h.State() == old(h.State())
    ensures rc == 0 <==> complete || (h.limited && h.maxLength == 0)
    ensures rc == 0 || rc == -1
    ensures started && Clean(old(h.file.answers)) ==>
              && rc == 0
              && WrittenUpTo(old(h.State()), h.State(),
                             CoreFile(p, Plan(old(first.Pending()), p, v, mem, access, prioritize).value))
  {
    hide *;
    ViewOf(h);
    rc, started, complete := -1, false, false;
    if calls.loopback && calls.firstMaps {
      var ok, count := CountMappings(first);
      if ok && calls.secondMaps {
        var mappings: array<Mapping>, num: nat;
        ghost var text := second.Pending();
        ValidPagesize(p);
        ok, mappings, num := ReadMappings(second, count, mem, access, p.pagesize);
        PlanFrom(text, p, v, mem, access, prioritize);
        if ok {
          started := true;
          var vdso := FindVdso(mappings, num, v);
          var done := WriteFile(h, p, mappings, num, vdso, mem, prioritize);
          complete := done;
          CleanDump(old(h.State()), h.State(),
                    CoreFile(p, Plan(text, p, v, mem, access, prioritize).value), done);
          if done {
            rc := 0;
          }
        }
      }
    }
    ViewOf(h);
    var finished := h.IsDone();
    if finished {
      rc := 0;
    }
  }

  /** The output has grown by the longest front of `file` that the limit allows. */
  ghost predicate WrittenUpTo(before: View, after: View, file: seq<byte>) {
    var n := if before.limited then Min(|file|, before.room) else |file|;
    && after.out == before.out + file[..n]
    && (before.limited ==> |after.out| + after.room == |before.out| + before.room)
  }

  lemma CleanDump(before: View, after: View, file: seq<byte>, complete: bool)
    requires Attempt(before, after, file, complete)
    ensures before.clean ==> WrittenUpTo(before, after, file)
    ensures before.clean && !complete ==> before.limited && after.room == 0 && after.limited
  {
    if before.clean {
      CleanAttemptIsPrefix(before, after, file, complete);
    }
  }

  lemma ViewOf(h: Handle)
    ensures h.State().clean == Clean(h.file.answers)
    ensures h.State().limited == h.limited && h.State().room == h.maxLength
  {
  }

  lemma PlanFrom(text: seq<byte>, p: Process, v: Option<Image>, mem: Memory, access: Access, prioritize: nat)
    requires p.Valid() && p.pagesize > 0
    ensures var ms := MapTable(Newlines(text), text, mem, access, p.pagesize);
            && (ms.None? ==> Plan(text, p, v, mem, access, prioritize).None?)
            && (ms.Some? ==>
                  Plan(text, p, v, mem, access, prioritize)
                  == Some(Segments(p, ms.value, TrustedHeaders(ms.value, v), mem, prioritize)))
  {
  }
}
