/** The vdso: finding the mapping that covers it and checking that its headers can
    be trusted before anything is copied on their word. */
module Vdso {
  import opened Bytes
  import opened ElfFormat
  import opened MapsTable

  /** The ELF image the kernel maps into every process: where it is, where its program
      headers are relative to that, how many it claims to have, and what memory holds
      at each place of that table. */
  datatype Image = Image(address: nat, phoff: nat, phnum: nat, table: nat -> Phdr)

  /** Addition of `size_t` values. */
  function Wrap(n: nat): nat {
    n % SIZE_LIMIT
  }

  function HeadersOf(v: Image): (ps: seq<Phdr>)
    ensures |ps| == v.phnum
    ensures forall i :: 0 <= i < |ps| ==> ps[i] == v.table(i)
  {
    seq(v.phnum, i requires 0 <= i => v.table(i))
  }

  function TableAddress(v: Image): nat {
    Wrap(v.address + v.phoff)
  }

  predicate TablePlaced(v: Image, start: nat, end: nat) {
    && v.address != 0 && v.address % 8 == 0
    && Wrap(v.address + EHDR_SIZE) < end
    && v.phoff % 8 == 0
    && start < TableAddress(v) && Wrap(TableAddress(v) + v.phnum * PHDR_SIZE) < end
  }

  predicate FirstLoads(p: Phdr, start: nat, end: nat) {
    p.ptype == PT_LOAD && p.vaddr == start && Wrap(p.vaddr + p.memsz) < end
  }

  predicate DataPlaced(p: Phdr, start: nat, end: nat) {
    && p.ptype != PT_LOAD && p.vaddr % 8 == 0
    && start < p.vaddr && Wrap(p.vaddr + p.filesz) < end
  }

  /** What the check accepts for a vdso inside the mapping from `start` to `end`. */
  ghost predicate Sane(v: Image, start: nat, end: nat) {
    && TablePlaced(v, start, end)
    && FirstLoads(v.table(0), start, end)
    && forall i :: 1 <= i < v.phnum ==> DataPlaced(v.table(i), start, end)
  }

  method SanitizeVDSO(v: Image, start: nat, end: nat) returns (ok: bool)
    ensures ok <==> Sane(v, start, end)
  {
    if v.address == 0 || v.address % 8 != 0 {
      return false;
    }
    if end <= Wrap(v.address + EHDR_SIZE) {
      return false;
    }
    if v.phoff % 8 != 0 {
      return false;
    }
    var table := TableAddress(v);
    if table <= start || end <= Wrap(table + v.phnum * PHDR_SIZE) {
      return false;
    }
    var first := v.table(0);
    if first.ptype != PT_LOAD || first.vaddr != start || Wrap(first.vaddr + first.memsz) >= end {
      return false;
    }
    var i := 1;
    while i < v.phnum
      invariant 1 <= i
      invariant forall k :: 1 <= k < i && k < v.phnum ==> DataPlaced(v.table(k), start, end)
    {
      var p := v.table(i);
      if p.ptype == PT_LOAD || p.vaddr % 8 != 0 || p.vaddr <= start || end <= Wrap(p.vaddr + p.filesz) {
        assert !DataPlaced(v.table(i), start, end);
        return false;
      }
      i := i + 1;
    }
    return true;
  }

  /** What the check is for: the data of an accepted header lies inside the mapping.
      It does so exactly when its end does not wrap around the address space, which
      the check does not look at. */
  lemma AcceptedDataInside(v: Image, start: nat, end: nat, i: nat)
    requires Sane(v, start, end) && end < SIZE_LIMIT && 1 <= i < v.phnum
    ensures var p := v.table(i);
            (start <= p.vaddr && p.vaddr + p.filesz <= end) <==> p.vaddr + p.filesz < SIZE_LIMIT
  {
    var p := v.table(i);
    assert DataPlaced(p, start, end);
    if p.vaddr + p.filesz < SIZE_LIMIT {
      DivModUnique(p.vaddr + p.filesz, SIZE_LIMIT, 0, p.vaddr + p.filesz);
    }
  }

  /** The sums that the check looks at, none of which wraps around. */
  ghost predicate NothingWraps(v: Image) {
    && v.address + 64 < SIZE_LIMIT && v.address + v.phoff + 56 * v.phnum < SIZE_LIMIT
    && forall i: nat :: v.table(i).vaddr + v.table(i).memsz < SIZE_LIMIT
                        && v.table(i).vaddr + v.table(i).filesz < SIZE_LIMIT
  }

  /** Unless a sum wraps around, the check accepts an image exactly if it is aligned, its
      header and the table of program headers lie inside the mapping, the first of them
      is loadable, starts where the mapping does and ends before it, and no other is
      loadable, and their data is aligned and lies inside the mapping. */
  lemma AcceptedWithoutWrap(v: Image, start: nat, end: nat)
    requires NothingWraps(v)
    ensures Sane(v, start, end) <==>
              && v.address > 0 && v.address % 8 == 0 && v.address + 64 < end
              && v.phoff % 8 == 0 && start < v.address + v.phoff && v.address + v.phoff + 56 * v.phnum < end
              && v.table(0).ptype == 1 && v.table(0).vaddr == start && start + v.table(0).memsz < end
              && forall i :: 1 <= i < v.phnum ==>
                   var p := v.table(i);
                   p.ptype != 1 && p.vaddr % 8 == 0 && start < p.vaddr && p.vaddr + p.filesz < end
  {
    hide Wrap;
    InRange(v.address + 64);
    InRange(v.address + v.phoff);
    InRange(v.address + v.phoff + v.phnum * 56);
    forall i: nat
      ensures Wrap(v.table(i).vaddr + v.table(i).memsz) == v.table(i).vaddr + v.table(i).memsz
      ensures Wrap(v.table(i).vaddr + v.table(i).filesz) == v.table(i).vaddr + v.table(i).filesz
    {
      InRange(v.table(i).vaddr + v.table(i).memsz);
      InRange(v.table(i).vaddr + v.table(i).filesz);
    }
  }

  lemma InRange(n: nat)
    requires n < SIZE_LIMIT
    ensures Wrap(n) == n
  {
    DivModUnique(n, SIZE_LIMIT, 0, n);
  }

  /** An image with one loadable header and one whose data reaches far beyond the
      mapping. */
  function WrappingImage(): Image {
    Image(0x1008, 64, 2,
          i => if i == 0 then Phdr(PT_LOAD, PF_R, 0, 0x1000, 0, 0x10, 0x10, 8)
               else Phdr(PT_NOTE, PF_R, 0, 0x2000, 0, SIZE_LIMIT - 0x1000, 0, 8))
  }

  /** The check accepts it. */
  lemma WrappingDataAccepted()
    ensures Sane(WrappingImage(), 0x1000, 0x3000)
    ensures var p := WrappingImage().table(1);
            p.vaddr + p.filesz > 0x3000
  {
    assert (0x2000 + (SIZE_LIMIT - 0x1000)) % SIZE_LIMIT == 0x1000;
  }

  predicate Covers(m: Mapping, address: nat) {
    Readable(m.flags) && m.start <= address < m.end
  }

  /** The headers that are dumped: those of the vdso if the first mapping that covers
      it vouches for it. */
  ghost function TrustedHeaders(ms: seq<Mapping>, v: Option<Image>): seq<Phdr> {
    if v.None? || v.value.address == 0 || ms == [] then []
    else if Covers(ms[0], v.value.address) then
      (if Sane(v.value, ms[0].start, ms[0].end) then HeadersOf(v.value) else [])
    else TrustedHeaders(ms[1..], v)
  }

  /** The mapping at `k` is the first that can be read and has the address in it. */
  ghost predicate FirstWith(ms: seq<Mapping>, address: nat, k: nat) {
    && k <= |ms|
    && (forall j :: 0 <= j < k ==> !(ms[j].flags / 4 % 2 == 1 && ms[j].start <= address < ms[j].end))
    && (k < |ms| ==> ms[k].flags / 4 % 2 == 1 && ms[k].start <= address < ms[k].end)
  }

  /** That mapping alone decides whether the headers are dumped. */
  lemma {:induction false} FirstDecides(ms: seq<Mapping>, v: Image, k: nat)
    requires v.address > 0 && FirstWith(ms, v.address, k)
    ensures TrustedHeaders(ms, Some(v))
         == if k < |ms| && Sane(v, ms[k].start, ms[k].end) then HeadersOf(v) else []
  {
    hide Sane;
    if k > 0 {
      FirstDecides(ms[1..], v, k - 1);
    }
  }

  method FindVdso(mappings: array<Mapping>, num: nat, v: Option<Image>) returns (headers: seq<Phdr>)
    requires num <= mappings.Length
    ensures headers == TrustedHeaders(mappings[..num], v)
  {
    if v.None? || v.value.address == 0 {
      return [];
    }
    var i := 0;
    assert mappings[0..num] == mappings[..num];
    while i < num
      invariant i <= num
      invariant TrustedHeaders(mappings[..num], v) == TrustedHeaders(mappings[i..num], v)
    {
      var m := mappings[i];
      assert mappings[i..num][1..] == mappings[i + 1..num];
      if Covers(m, v.value.address) {
        var ok := SanitizeVDSO(v.value, m.start, m.end);
        return if ok then HeadersOf(v.value) else [];
      }
      i := i + 1;
    }
    return [];
  }
}
