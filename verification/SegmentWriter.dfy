/** The loops of `CreateElfCore` that write the contents of the memory segments. */
module SegmentWriter {
  import opened Bytes
  import opened Writers
  import opened Emission
  import opened ElfFormat

  /** Writes the bytes of all mappings that have any to write. */
  method WriteMappings(h: Handle, mappings: array<Mapping>, num: nat, mem: Memory, pagesize: nat,
                       ghost start: View, ghost done: seq<byte>, ghost target: seq<byte>)
    returns (ok: bool)
    requires num <= mappings.Length
    requires Reached(start, h.State(), done, target)
    requires done + Flatten(Contents(MappingSegments(mappings[..num], mem, pagesize))) <= target
    modifies h, h.file
    ensures Outcome(start, h.State(), done + Flatten(Contents(MappingSegments(mappings[..num], mem, pagesize))),
                    target, ok)
  {
    hide Reached, Attempt, Flatten;
    ghost var parts := Contents(MappingSegments(mappings[..num], mem, pagesize));
    var i := 0;
    NothingFlattened(done, parts);
    while i < num
      invariant i <= num
      invariant Reached(start, h.State(), done + Flatten(parts[..i]), target)
    {
      NextPart(done, parts, i, target);
      var m := mappings[i];
      assert parts[i] == MemoryRange(mem, m.start, m.writeSize);
      if m.writeSize > 0 {
        var good := Emit(h, MemoryRange(mem, m.start, m.writeSize), start, done + Flatten(parts[..i]), target);
        if !good {
          return false;
        }
      } else {
        assert done + Flatten(parts[..i]) + parts[i] == done + Flatten(parts[..i]);
      }
      i := i + 1;
    }
    assert parts[..num] == parts;
    return true;
  }

  /** Writes the bytes of the vdso's own segments. */
  method WriteVdso(h: Handle, vdso: seq<Phdr>, mem: Memory,
                   ghost start: View, ghost done: seq<byte>, ghost target: seq<byte>)
    returns (ok: bool)
    requires Reached(start, h.State(), done, target)
    requires done + Flatten(Contents(VdsoSegments(vdso, mem))) <= target
    modifies h, h.file
    ensures Outcome(start, h.State(), done + Flatten(Contents(VdsoSegments(vdso, mem))), target, ok)
  {
    hide Reached, Attempt, Flatten, VdsoSegments;
    ghost var parts := Contents(VdsoSegments(vdso, mem));
    var i := 0;
    ghost var k := 0;
    NothingFlattened(done, parts);
    VdsoSplit(vdso, mem, 0);
    while i < |vdso|
      invariant i <= |vdso|
      invariant k == |VdsoSegments(vdso[..i], mem)| <= |parts|
      invariant Reached(start, h.State(), done + Flatten(parts[..k]), target)
    {
      VdsoSplit(vdso, mem, i);
      if vdso[i].ptype == PT_LOAD {
        // Already written as one of the mappings.
      } else {
        NextPart(done, parts, k, target);
        var good := Emit(h, MemoryRange(mem, vdso[i].vaddr, vdso[i].filesz), start, done + Flatten(parts[..k]), target);
        if !good {
          return false;
        }
        k := k + 1;
      }
      i := i + 1;
    }
    assert vdso[..i] == vdso && parts[..k] == parts;
    return true;
  }

  lemma {:induction false} VdsoAppend(a: seq<Phdr>, b: seq<Phdr>, mem: Memory)
    ensures VdsoSegments(a + b, mem) == VdsoSegments(a, mem) + VdsoSegments(b, mem)
  {
    if a == [] {
      assert a + b == b;
    } else {
      assert (a + b)[1..] == a[1..] + b;
      VdsoAppend(a[1..], b, mem);
    }
  }

  function VdsoSegment(p: Phdr, mem: Memory): Segment {
    Segment(p.ptype, p.flags, p.vaddr, p.memsz, p.align, MemoryRange(mem, p.vaddr, p.filesz))
  }

  /** What header `i` of the vdso adds to the segments of the headers before it. */
  lemma VdsoSplit(vdso: seq<Phdr>, mem: Memory, i: nat)
    requires i <= |vdso|
    ensures VdsoSegments([], mem) == []
    ensures i < |vdso| ==>
              && VdsoSegments(vdso[..i], mem) <= VdsoSegments(vdso[..i + 1], mem) <= VdsoSegments(vdso, mem)
              && (var k := |VdsoSegments(vdso[..i], mem)|;
                  if vdso[i].ptype == PT_LOAD
                  then VdsoSegments(vdso[..i + 1], mem) == VdsoSegments(vdso[..i], mem)
                  else && |VdsoSegments(vdso[..i + 1], mem)| == k + 1
                       && VdsoSegments(vdso, mem)[k] == VdsoSegment(vdso[i], mem))
  {
    if i < |vdso| {
      assert vdso[..i + 1] == vdso[..i] + [vdso[i]];
      VdsoAppend(vdso[..i], [vdso[i]], mem);
      assert vdso == vdso[..i + 1] + vdso[i + 1..];
      VdsoAppend(vdso[..i + 1], vdso[i + 1..], mem);
      var one := VdsoSegments([vdso[i]], mem);
      assert one == if vdso[i].ptype == PT_LOAD then [] else [VdsoSegment(vdso[i], mem)];
    }
  }
}
