/** The part of `CreateElfCore` that lays the file out: it counts, announces and
    limits before anything that is announced gets written. */
module HeaderWriter {
  import opened Bytes
  import opened Writers
  import opened Emission
  import opened ElfFormat
  import opened CoreRoundTrip
  import opened Prioritize
  import opened SegmentWriter

  // ---------- The layout the headers announce ----------

  /** Bytes of the vdso's own segments. */
  function VdsoSize(vdso: seq<Phdr>): nat {
    if vdso == [] then 0
    else VdsoSize(vdso[..|vdso| - 1]) + (if vdso[|vdso| - 1].ptype != PT_LOAD then vdso[|vdso| - 1].filesz else 0)
  }

  function ExtraHeaders(vdso: seq<Phdr>): nat {
    if vdso == [] then 0
    else ExtraHeaders(vdso[..|vdso| - 1]) + (if vdso[|vdso| - 1].ptype != PT_LOAD then 1 else 0)
  }

  /** Everything in the file but the contents of the mappings. */
  function FixedSize(p: Process, mappings: nat, vdso: seq<Phdr>): nat
    requires p.Valid()
  {
    DataOffset(mappings + ExtraHeaders(vdso) + 1, AnnouncedNoteSize(p), p.pagesize) + VdsoSize(vdso)
  }

  /** The mappings as they are dumped; `prioritize` is zero when the option is off. */
  function Limited(p: Process, ms: seq<Mapping>, vdso: seq<Phdr>, prioritize: nat): (r: seq<Mapping>)
    requires p.Valid()
    ensures |r| == |ms|
  {
    if prioritize == 0 then ms
    else WithSizes(ms, Shrink(Sizes(ms), FixedSize(p, |ms|, vdso), prioritize))
  }

  lemma {:induction false} VdsoTotals(vdso: seq<Phdr>, mem: Memory)
    ensures |VdsoSegments(vdso, mem)| == ExtraHeaders(vdso)
    ensures |Flatten(Contents(VdsoSegments(vdso, mem)))| == VdsoSize(vdso)
  {
    if vdso != [] {
      var k := |vdso| - 1;
      VdsoTotals(vdso[..k], mem);
      assert vdso == vdso[..k] + [vdso[k]];
      VdsoAppend(vdso[..k], [vdso[k]], mem);
      var last := VdsoSegments([vdso[k]], mem);
      assert last == if vdso[k].ptype == PT_LOAD then [] else [VdsoSegment(vdso[k], mem)];
      assert Contents(VdsoSegments(vdso, mem)) == Contents(VdsoSegments(vdso[..k], mem)) + Contents(last);
      if last == [] {
        assert VdsoSegments(vdso, mem) == VdsoSegments(vdso[..k], mem);
      } else {
        assert Contents(last) == [last[0].data];
        FlattenSnoc(Contents(VdsoSegments(vdso[..k], mem)), last[0].data);
      }
    }
  }

  // ---------- Counting ----------

  method CountExtra(vdso: seq<Phdr>) returns (extra: nat)
    ensures extra == ExtraHeaders(vdso)
  {
    extra := 0;
    var i := 0;
    while i < |vdso|
      invariant i <= |vdso| && extra == ExtraHeaders(vdso[..i])
    {
      assert vdso[..i + 1][..i] == vdso[..i];
      if vdso[i].ptype == PT_LOAD {
        // Written as a normal mapping.
      } else {
        extra := extra + 1;
      }
      i := i + 1;
    }
    assert vdso[..i] == vdso;
  }

  method SumVdso(vdso: seq<Phdr>) returns (size: nat)
    ensures size == VdsoSize(vdso)
  {
    size := 0;
    var i := 0;
    while i < |vdso|
      invariant i <= |vdso| && size == VdsoSize(vdso[..i])
    {
      assert vdso[..i + 1][..i] == vdso[..i];
      if vdso[i].ptype != PT_LOAD {
        size := size + vdso[i].filesz;
      }
      i := i + 1;
    }
    assert vdso[..i] == vdso;
  }

  /** The size of the note section, from counts and lengths. */
  method SizeNotes(p: Process) returns (filesz: nat)
    ensures filesz == AnnouncedNoteSize(p)
  {
    filesz := NHDR_SIZE + 8 + PRPSINFO_SIZE
              + (if p.user.Some? then NHDR_SIZE + 8 + CORE_USER_SIZE else 0)
              + |p.threads| * (NHDR_SIZE + 8 + PRSTATUS_SIZE + NHDR_SIZE + 8 + FPREGS_SIZE);
    ghost var base := filesz;
    var i := 0;
    while i < |p.notes|
      invariant i <= |p.notes| && filesz == base + UserNotesSize(p.notes[..i])
    {
      assert p.notes[..i + 1][..i] == p.notes[..i];
      var nameSize, descSize := |p.notes[i].name| + 1, |p.notes[i].desc|;
      filesz := filesz + NHDR_SIZE + nameSize + descSize;
      if nameSize % 4 != 0 {
        filesz := filesz + (4 - nameSize % 4);
      }
      if descSize % 4 != 0 {
        filesz := filesz + (4 - descSize % 4);
      }
      i := i + 1;
    }
    assert p.notes[..i] == p.notes;
    if p.auxv != [] {
      filesz := filesz + 8 + NHDR_SIZE + |p.auxv| * AUXV_SIZE;
    }
  }

  /** The padding in front of the first segment, the way it is computed. */
  method AlignNotes(end: nat, pagesize: nat) returns (align: nat)
    requires pagesize > 0
    ensures align == PagePadding(end, pagesize)
  {
    align := pagesize - end % pagesize;
    if align == pagesize {
      align := 0;
    }
  }

  // ---------- Program headers ----------

  function Total(segments: seq<Segment>): nat {
    |Flatten(Contents(segments))|
  }

  lemma TotalNext(segments: seq<Segment>, i: nat)
    requires i < |segments|
    ensures Total(segments[..i + 1]) == Total(segments[..i]) + |segments[i].data|
  {
    assert Contents(segments[..i + 1]) == Contents(segments[..i]) + [segments[i].data];
    FlattenSnoc(Contents(segments[..i]), segments[i].data);
  }

  lemma {:induction false} PhdrAt(segments: seq<Segment>, offset: nat, i: nat)
    requires i < |segments|
    ensures SegmentPhdrs(segments, offset)[i] == SegmentPhdr(segments[i], offset + Total(segments[..i]))
    decreases i
  {
    if i > 0 {
      PhdrAt(segments[1..], offset + |segments[0].data|, i - 1);
      assert segments[1..][..i - 1] == segments[..i][1..];
      ContentsStep(segments[..i]);
    }
  }

  /** The header table behind its first entry, written up to segment `i`. */
  ghost predicate TableReached(start: View, now: View, front: seq<byte>, ps: seq<Phdr>, i: nat, target: seq<byte>)
    requires i <= |ps|
  {
    && front + Flatten(EncodePhdrs(ps)) <= target
    && Reached(start, now, front + Flatten(EncodePhdrs(ps)[..i]), target)
  }

  method WritePhdr(h: Handle, ph: Phdr, ghost start: View, ghost front: seq<byte>, ghost ps: seq<Phdr>,
                   ghost i: nat, ghost target: seq<byte>)
    returns (ok: bool)
    requires i < |ps| && ph == ps[i]
    requires TableReached(start, h.State(), front, ps, i, target)
    modifies h, h.file
    ensures ok ==> TableReached(start, h.State(), front, ps, i + 1, target)
    ensures !ok ==> Attempt(start, h.State(), target, false)
  {
    hide Flatten, Attempt, Reached, EncodePhdr;
    NextPart(front, EncodePhdrs(ps), i, target);
    ok := Emit(h, EncodePhdr(ph), start, front + Flatten(EncodePhdrs(ps)[..i]), target);
  }

  /** The headers of all mappings. `offset` and `filesz` are those of the entry before;
      the next entry starts where that one ends. */
  method WriteMappingPhdrs(h: Handle, mappings: array<Mapping>, num: nat, mem: Memory, pagesize: nat,
                           offset0: nat, filesz0: nat, ghost segments: seq<Segment>, ghost first: Phdr,
                           ghost start: View, ghost front: seq<byte>, ghost target: seq<byte>)
    returns (ok: bool, offset: nat, filesz: nat)
    requires num <= mappings.Length && num <= |segments|
    requires segments[..num] == MappingSegments(mappings[..num], mem, pagesize)
    requires TableReached(start, h.State(), front, [first] + SegmentPhdrs(segments, offset0 + filesz0), 1, target)
    modifies h, h.file
    ensures ok ==> TableReached(start, h.State(), front, [first] + SegmentPhdrs(segments, offset0 + filesz0),
                                1 + num, target)
    ensures ok ==> offset + filesz == offset0 + filesz0 + Total(segments[..num])
    ensures !ok ==> Attempt(start, h.State(), target, false)
  {
    hide TableReached, Attempt, SegmentPhdrs, Total;
    offset, filesz := offset0, filesz0;
    ghost var dataAt := offset0 + filesz0;
    ghost var ps := [first] + SegmentPhdrs(segments, dataAt);
    var i := 0;
    NothingYet(segments);
    while i < num
      invariant i <= num
      invariant offset + filesz == dataAt + Total(segments[..i])
      invariant TableReached(start, h.State(), front, ps, 1 + i, target)
    {
      PhdrAt(segments, dataAt, i);
      TotalNext(segments, i);
      var m := mappings[i];
      assert segments[i] == segments[..num][i] == MappingSegment(m, mem, pagesize);
      offset := offset + filesz;
      filesz := m.writeSize;
      var ph := Phdr(PT_LOAD, m.flags, offset, m.start, 0, filesz, (m.end - m.start) % SIZE_LIMIT, pagesize);
      ok := WritePhdr(h, ph, start, front, ps, 1 + i, target);
      if !ok {
        return;
      }
      i := i + 1;
    }
    return true, offset, filesz;
  }

  lemma NothingYet(segments: seq<Segment>)
    ensures Total(segments[..0]) == 0
  {
  }

  method WriteVdsoPhdrs(h: Handle, vdso: seq<Phdr>, mem: Memory, offset0: nat, filesz0: nat,
                        ghost num: nat, ghost segments: seq<Segment>, ghost dataAt: nat, ghost first: Phdr,
                        ghost start: View, ghost front: seq<byte>, ghost target: seq<byte>)
    returns (ok: bool)
    requires num <= |segments| && segments[num..] == VdsoSegments(vdso, mem)
    requires offset0 + filesz0 == dataAt + Total(segments[..num])
    requires TableReached(start, h.State(), front, [first] + SegmentPhdrs(segments, dataAt), 1 + num, target)
    modifies h, h.file
    ensures ok ==> TableReached(start, h.State(), front, [first] + SegmentPhdrs(segments, dataAt),
                                1 + |segments|, target)
    ensures !ok ==> Attempt(start, h.State(), target, false)
  {
    hide TableReached, Attempt, SegmentPhdrs, Total, VdsoSegments;
    var offset, filesz := offset0, filesz0;
    ghost var ps := [first] + SegmentPhdrs(segments, dataAt);
    var i := 0;
    ghost var k := num;
    VdsoSplit(vdso, mem, 0);
    while i < |vdso|
      invariant i <= |vdso| && num <= k <= |segments|
      invariant k == num + |VdsoSegments(vdso[..i], mem)|
      invariant offset + filesz == dataAt + Total(segments[..k])
      invariant TableReached(start, h.State(), front, ps, 1 + k, target)
    {
      VdsoSplit(vdso, mem, i);
      if vdso[i].ptype != PT_LOAD {
        PhdrAt(segments, dataAt, k);
        TotalNext(segments, k);
        assert segments[k] == segments[num..][k - num] == VdsoSegment(vdso[i], mem);
        offset := offset + filesz;
        filesz := vdso[i].filesz;
        var ph := vdso[i].(offset := offset, paddr := 0);
        ok := WritePhdr(h, ph, start, front, ps, 1 + k, target);
        if !ok {
          return;
        }
        k := k + 1;
      }
      i := i + 1;
    }
    assert vdso[..i] == vdso;
    return true;
  }
}
