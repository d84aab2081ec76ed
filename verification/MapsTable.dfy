/** From the lines of `/proc/self/maps` to the table of mappings to dump: trimming
    leading zero pages, deciding what is kept, and filling the table in place. */
module MapsTable {
  import opened Bytes
  import opened Writers
  import opened ElfFormat
  import opened MapsReader

  // ---------- Leading zero pages ----------

  /** Which pages the kernel lets us read, by address. */
  type Access = int -> bool

  predicate AllZero(mem: Memory, start: nat, size: nat) {
    forall a :: start <= a < start + size ==> mem(a) == 0
  }

  /** Bytes of leading pages that are zero or cannot be read, for any length. A last,
      incomplete page is counted in full when it cannot be read and not at all
      otherwise. */
  function LeadingZeroPages(mem: Memory, access: Access, start: nat, len: nat, pagesize: nat): nat
    requires pagesize > 0
    decreases len
  {
    if len == 0 then 0
    else if !access(start) then
      pagesize + LeadingZeroPages(mem, access, start + pagesize, if len > pagesize then len - pagesize else 0, pagesize)
    else if len >= pagesize && AllZero(mem, start, pagesize) then
      pagesize + LeadingZeroPages(mem, access, start + pagesize, len - pagesize, pagesize)
    else 0
  }

  lemma OffsetInPage(base: nat, pagesize: nat, off: nat)
    requires off < pagesize && base % pagesize == 0
    ensures (base + off) % pagesize == off
    ensures (base + pagesize) % pagesize == 0
  {
    var q := base / pagesize;
    assert base == pagesize * q;
    DivModUnique(base + off, pagesize, q, off);
    NextPage(q, pagesize);
    DivModUnique(base + pagesize, pagesize, q + 1, 0);
  }

  /** The scan is `off` bytes into a page it holds in its buffer, all zero so far. */
  ghost predicate ScanningPage(mem: Memory, access: Access, page: nat, pagesize: nat, buf: seq<byte>,
                               ptr: nat, off: nat)
  {
    access(page) && ptr == off && buf == MemoryRange(mem, page, pagesize) && AllZero(mem, page, off)
  }

  function Left(len: nat, done: nat): nat {
    if len > done then len - done else 0
  }

  /** Where the scan stands: `base` bytes of whole pages count, and `off` bytes of the
      page behind them have been found zero. */
  ghost predicate Scanning(mem: Memory, access: Access, start: nat, len: nat, pagesize: nat, base: nat, off: nat,
                           buf: seq<byte>, ptr: nat)
    requires pagesize > 0
  {
    && off < pagesize && base % pagesize == 0
    && LeadingZeroPages(mem, access, start, len, pagesize)
       == base + LeadingZeroPages(mem, access, start + base, Left(len, base), pagesize)
    && (off > 0 ==> ScanningPage(mem, access, start + base, pagesize, buf, ptr, off) && base + off <= len)
  }

  lemma UnreadablePage(mem: Memory, access: Access, start: nat, len: nat, pagesize: nat, base: nat,
                       buf: seq<byte>, ptr: nat)
    requires pagesize > 0 && Scanning(mem, access, start, len, pagesize, base, 0, buf, ptr) && base < len
    requires !access(start + base)
    ensures Scanning(mem, access, start, len, pagesize, base + pagesize, 0, buf, ptr)
  {
    OffsetInPage(base, pagesize, 0);
  }

  /** A byte of a page in the buffer: it ends the scan, or the scan goes on behind it. */
  lemma NextByte(mem: Memory, access: Access, start: nat, len: nat, pagesize: nat, base: nat, off: nat,
                 buf: seq<byte>, ptr: nat)
    requires pagesize > 0 && Scanning(mem, access, start, len, pagesize, base, off, buf, ptr) && base + off < len
    requires off < pagesize && ScanningPage(mem, access, start + base, pagesize, buf, ptr, off)
    ensures ptr < |buf|
    ensures buf[ptr] != 0 ==> LeadingZeroPages(mem, access, start, len, pagesize) == base
    ensures buf[ptr] == 0 ==>
              if off + 1 == pagesize then Scanning(mem, access, start, len, pagesize, base + pagesize, 0, buf, ptr + 1)
              else Scanning(mem, access, start, len, pagesize, base, off + 1, buf, ptr + 1)
  {
    hide LeadingZeroPages, Scanning;
    ByteOfPage(mem, access, start + base, pagesize, buf, ptr, off);
    if buf[ptr] != 0 {
      ScanStops(mem, access, start, len, pagesize, base, off, buf, ptr);
    } else if off + 1 == pagesize {
      PageDone(mem, access, start, len, pagesize, base, off, buf, ptr);
    } else {
      ByteDone(mem, access, start, len, pagesize, base, off, buf, ptr);
    }
  }

  lemma ByteOfPage(mem: Memory, access: Access, page: nat, pagesize: nat, buf: seq<byte>, ptr: nat, off: nat)
    requires ScanningPage(mem, access, page, pagesize, buf, ptr, off) && off < pagesize
    ensures access(page) && ptr == off < |buf| && buf[ptr] == mem(page + off)
    ensures mem(page + off) == 0 ==>
              ScanningPage(mem, access, page, pagesize, buf, ptr + 1, off + 1) && AllZero(mem, page, off + 1)
  {
  }

  lemma ScanStops(mem: Memory, access: Access, start: nat, len: nat, pagesize: nat, base: nat, off: nat,
                  buf: seq<byte>, ptr: nat)
    requires pagesize > 0 && Scanning(mem, access, start, len, pagesize, base, off, buf, ptr)
    requires access(start + base) && mem(start + base + off) != 0
    ensures LeadingZeroPages(mem, access, start, len, pagesize) == base
  {
    hide LeadingZeroPages;
    PageEndsScan(mem, access, start + base, Left(len, base), pagesize, off);
  }

  lemma PageDone(mem: Memory, access: Access, start: nat, len: nat, pagesize: nat, base: nat, off: nat,
                 buf: seq<byte>, ptr: nat)
    requires pagesize > 0 && Scanning(mem, access, start, len, pagesize, base, off, buf, ptr) && base + off < len
    requires access(start + base) && off + 1 == pagesize && AllZero(mem, start + base, pagesize)
    ensures Scanning(mem, access, start, len, pagesize, base + pagesize, 0, buf, ptr + 1)
  {
    hide LeadingZeroPages, AllZero;
    OffsetInPage(base, pagesize, off);
    BlankPageCounts(mem, access, start + base, Left(len, base), pagesize);
  }

  lemma ByteDone(mem: Memory, access: Access, start: nat, len: nat, pagesize: nat, base: nat, off: nat,
                 buf: seq<byte>, ptr: nat)
    requires pagesize > 0 && Scanning(mem, access, start, len, pagesize, base, off, buf, ptr) && base + off < len
    requires off + 1 < pagesize && ScanningPage(mem, access, start + base, pagesize, buf, ptr + 1, off + 1)
    ensures Scanning(mem, access, start, len, pagesize, base, off + 1, buf, ptr + 1)
  {
    hide LeadingZeroPages, ScanningPage;
  }

  lemma PageEndsScan(mem: Memory, access: Access, page: nat, len: nat, pagesize: nat, off: nat)
    requires pagesize > 0 && access(page) && off < pagesize && mem(page + off) != 0
    ensures LeadingZeroPages(mem, access, page, len, pagesize) == 0
  {
    assert !AllZero(mem, page, pagesize);
  }

  lemma BlankPageCounts(mem: Memory, access: Access, page: nat, len: nat, pagesize: nat)
    requires pagesize > 0 && access(page) && AllZero(mem, page, pagesize) && len >= pagesize
    ensures LeadingZeroPages(mem, access, page, len, pagesize)
         == pagesize + LeadingZeroPages(mem, access, page + pagesize, len - pagesize, pagesize)
  {
  }

  lemma ScanEnds(mem: Memory, access: Access, start: nat, len: nat, pagesize: nat, base: nat, off: nat,
                 buf: seq<byte>, ptr: nat)
    requires pagesize > 0 && Scanning(mem, access, start, len, pagesize, base, off, buf, ptr) && base + off >= len
    ensures LeadingZeroPages(mem, access, start, len, pagesize) == base
  {
  }

  lemma ScanBegins(mem: Memory, access: Access, start: nat, len: nat, pagesize: nat)
    requires pagesize > 0
    ensures Scanning(mem, access, start, len, pagesize, 0, 0, [], 0)
  {
    assert 0 % pagesize == 0;
  }

  lemma ScanBounds(mem: Memory, access: Access, start: nat, len: nat, pagesize: nat, base: nat, off: nat,
                   buf: seq<byte>, ptr: nat)
    requires pagesize > 0 && Scanning(mem, access, start, len, pagesize, base, off, buf, ptr)
    ensures off < pagesize && (base + off) % pagesize == off
    ensures off > 0 ==> ScanningPage(mem, access, start + base, pagesize, buf, ptr, off)
  {
    OffsetInPage(base, pagesize, off);
  }

  lemma PageRead(mem: Memory, access: Access, page: nat, pagesize: nat)
    requires access(page)
    ensures ScanningPage(mem, access, page, pagesize, MemoryRange(mem, page, pagesize), 0, 0)
  {
  }

  /** Where the buffer points to does not matter between two pages. */
  lemma ScanningFresh(mem: Memory, access: Access, start: nat, len: nat, pagesize: nat, base: nat,
                      buf: seq<byte>, ptr: nat, now: seq<byte>)
    requires pagesize > 0 && Scanning(mem, access, start, len, pagesize, base, 0, buf, ptr)
    ensures Scanning(mem, access, start, len, pagesize, base, 0, now, 0)
  {
  }

  /** `LeadingZeros`: scans byte by byte, a page at a time. */
  method LeadingZeros(mem: Memory, access: Access, start: nat, len: nat, pagesize: nat)
    returns (zeros: nat)
    requires pagesize > 0
    ensures zeros == LeadingZeroPages(mem, access, start, len, pagesize)
  {
    hide *;
    var count, ptr, buf := 0, 0, [];
    ghost var base, off := 0, 0;
    ScanBegins(mem, access, start, len, pagesize);
    while count < len
      invariant count == base + off && Scanning(mem, access, start, len, pagesize, base, off, buf, ptr)
      decreases len - count
    {
      ScanBounds(mem, access, start, len, pagesize, base, off, buf, ptr);
      if count % pagesize == 0 {
        if !access(start + count) {
          UnreadablePage(mem, access, start, len, pagesize, base, buf, ptr);
          count := count + pagesize;
          base := base + pagesize;
          continue;
        }
        PageRead(mem, access, start + count, pagesize);
        ScanningFresh(mem, access, start, len, pagesize, base, buf, ptr, MemoryRange(mem, start + count, pagesize));
        buf, ptr := MemoryRange(mem, start + count, pagesize), 0;
      }
      NextByte(mem, access, start, len, pagesize, base, off, buf, ptr);
      if buf[ptr] != 0 {
        break;
      }
      ptr, count := ptr + 1, count + 1;
      off := off + 1;
      if off == pagesize {
        base, off := base + pagesize, 0;
      }
    }
    if count >= len {
      ScanEnds(mem, access, start, len, pagesize, base, off, buf, ptr);
    }
    ScanBounds(mem, access, start, len, pagesize, base, off, buf, ptr);
    zeros := count - count % pagesize;
  }

  lemma NextPage(q: nat, pagesize: nat)
    ensures pagesize * (q + 1) == pagesize * q + pagesize
  {
  }

  /** Page number `k` from `start` holds only zeros, or cannot be read. */
  ghost predicate BlankPage(mem: Memory, access: Access, start: nat, pagesize: nat, k: nat) {
    access(start + pagesize * k) ==> AllZero(mem, start + pagesize * k, pagesize)
  }

  /** For a whole number of pages the result is the largest number of pages, not
      above the length, before which every page is blank. */
  lemma {:induction false} LeadingZeroPagesIsLargest(mem: Memory, access: Access, start: nat, pages: nat, pagesize: nat)
    returns (j: nat)
    requires pagesize > 0
    ensures LeadingZeroPages(mem, access, start, pagesize * pages, pagesize) == pagesize * j
    ensures j <= pages
    ensures forall k :: 0 <= k < j ==> BlankPage(mem, access, start, pagesize, k)
    ensures j < pages ==> !BlankPage(mem, access, start, pagesize, j)
    decreases pages
  {
    j := 0;
    if pages > 0 {
      NextPage(pages - 1, pagesize);
      MulAtLeast(pagesize, pages);
      assert start + pagesize * 0 == start;
      if BlankPage(mem, access, start, pagesize, 0) {
        var i := LeadingZeroPagesIsLargest(mem, access, start + pagesize, pages - 1, pagesize);
        j := i + 1;
        NextPage(i, pagesize);
        forall k | 0 <= k < pages
          ensures k > 0 ==> (BlankPage(mem, access, start, pagesize, k)
                             <==> BlankPage(mem, access, start + pagesize, pagesize, k - 1))
        {
          if k > 0 {
            NextPage(k - 1, pagesize);
          }
        }
        assert pagesize * pages - pagesize == pagesize * (pages - 1);
      }
    }
  }

  // ---------- From a line to a mapping ----------

  predicate Readable(flags: nat) {
    flags / PF_R % 2 == 1
  }

  predicate Writable(flags: nat) {
    flags / PF_W % 2 == 1
  }

  function ZerosOf(l: Line, mem: Memory, access: Access, pagesize: nat): nat
    requires pagesize > 0
  {
    if Readable(l.flags) && !l.device
    then LeadingZeroPages(mem, access, l.start, (l.end - l.start) % SIZE_LIMIT, pagesize)
    else 0
  }

  /** The mapping made of a line whose first `zeros` bytes are left out. */
  function LineMapping(l: Line, zeros: nat): Mapping {
    var start := (l.start + zeros) % SIZE_LIMIT;
    Mapping(start, l.end, l.offset,
            if !l.anonymous && !Writable(l.flags) then 0 else (l.end - start) % SIZE_LIMIT,
            l.flags, l.anonymous)
  }

  /** Unreadable mappings, empty ones and devices are not dumped. */
  predicate Keep(l: Line, m: Mapping) {
    Readable(l.flags) && m.start != m.end && !l.device
  }

  /** The order-preserving filter of the per-line translation. */
  function Table(lines: seq<Line>, mem: Memory, access: Access, pagesize: nat): seq<Mapping>
    requires pagesize > 0
  {
    if lines == [] then []
    else
      var l := lines[|lines| - 1];
      var m := LineMapping(l, ZerosOf(l, mem, access, pagesize));
      Table(lines[..|lines| - 1], mem, access, pagesize) + (if Keep(l, m) then [m] else [])
  }

  // ---------- Reading the whole file ----------

  function Newlines(s: seq<byte>): nat {
    if s == [] then 0 else (if s[0] == NEWLINE then 1 else 0) + Newlines(s[1..])
  }

  /** The first pass: counts lines; fails on a read error, and only then. */
  method CountMappings(io: Io) returns (ok: bool, count: nat)
    requires io.Valid()
    modifies io
    ensures io.Valid()
    ensures Clean(old(io.answers)) ==> ok
    ensures ok ==> count == Newlines(old(io.Pending()))
  {
    ghost var clean := Clean(io.answers);
    count := 0;
    var ch := io.GetChar();
    while ch >= 0
      invariant io.Valid() && -1 <= ch < 256
      invariant clean ==> Clean(io.answers)
      invariant ch >= 0 ==> Newlines(old(io.Pending())) == count + Newlines([ch] + io.Pending())
      invariant ch < 0 ==> (io.failed && !clean) || Newlines(old(io.Pending())) == count
      invariant ch < 0 && clean ==> !io.failed
      decreases |io.Pending()|, ch
    {
      ghost var t := [ch] + io.Pending();
      assert t[1..] == io.Pending();
      count := count + (if ch == NEWLINE then 1 else 0);
      ch := io.GetChar();
    }
    ok := !io.failed;
  }

  /** `n` lines from the front of `s`. */
  function ScanLines(n: nat, s: seq<byte>): (r: Scan<seq<Line>>)
    ensures r.Scanned? ==> |r.value| == n
  {
    if n == 0 then Scanned([], s)
    else
      var first := ScanLine(s);
      if first.Malformed? then Malformed
      else Before([first.value], ScanLines(n - 1, first.rest))
  }

  function Before(lines: seq<Line>, r: Scan<seq<Line>>): Scan<seq<Line>> {
    if r.Malformed? then Malformed else Scanned(lines + r.value, r.rest)
  }

  lemma BeforeNothing(r: Scan<seq<Line>>)
    ensures Before([], r) == r
  {
    if r.Scanned? {
      assert [] + r.value == r.value;
    }
  }

  /** Taking one more line off the front. */
  lemma ScanStep(lines: seq<Line>, k: nat, s: seq<byte>)
    requires k > 0
    ensures ScanLine(s).Malformed? ==> Before(lines, ScanLines(k, s)).Malformed?
    ensures ScanLine(s).Scanned? ==>
              Before(lines, ScanLines(k, s))
              == Before(lines + [ScanLine(s).value], ScanLines(k - 1, ScanLine(s).rest))
  {
    if ScanLine(s).Scanned? {
      BeforeBefore(lines, [ScanLine(s).value], ScanLines(k - 1, ScanLine(s).rest));
    }
  }

  lemma TableOfNothing(mem: Memory, access: Access, pagesize: nat)
    requires pagesize > 0
    ensures Table([], mem, access, pagesize) == []
  {
  }

  lemma TableSnoc(lines: seq<Line>, l: Line, mem: Memory, access: Access, pagesize: nat)
    requires pagesize > 0
    ensures var m := LineMapping(l, ZerosOf(l, mem, access, pagesize));
            Table(lines + [l], mem, access, pagesize)
            == Table(lines, mem, access, pagesize) + (if Keep(l, m) then [m] else [])
  {
    assert (lines + [l])[..|lines + [l]| - 1] == lines;
  }

  lemma BeforeBefore(a: seq<Line>, b: seq<Line>, r: Scan<seq<Line>>)
    ensures Before(a, Before(b, r)) == Before(a + b, r)
  {
    if r.Scanned? {
      Assoc(a, b, r.value);
    }
  }

  /** What the table holds after reading map `s` of `n` lines. */
  function MapTable(n: nat, s: seq<byte>, mem: Memory, access: Access, pagesize: nat): Option<seq<Mapping>>
    requires pagesize > 0
  {
    var lines := ScanLines(n, s);
    if lines.Malformed? then None else Some(Table(lines.value, mem, access, pagesize))
  }

  /** Puts the mapping of one line into slot `i` and tells whether it is to stay. */
  method FillSlot(mappings: array<Mapping>, i: nat, l: Line, mem: Memory, access: Access, pagesize: nat)
    returns (kept: bool)
    requires i < mappings.Length && pagesize > 0
    modifies mappings
    ensures mappings[..i] == old(mappings[..i])
    ensures kept <==> Keep(l, LineMapping(l, ZerosOf(l, mem, access, pagesize)))
    ensures mappings[..i + 1] == old(mappings[..i]) + [LineMapping(l, ZerosOf(l, mem, access, pagesize))]
  {
    var zeros := 0;
    if Readable(l.flags) && !l.device {
      zeros := LeadingZeros(mem, access, l.start, (l.end - l.start) % SIZE_LIMIT, pagesize);
    }
    mappings[i] := LineMapping(l, zeros);
    kept := Keep(l, mappings[i]);
  }

  /** The second pass. Each line is parsed into the next free slot of the table; the
      slot is kept, or given up by lowering the number of mappings. */
  method ReadMappings(io: Io, n: nat, mem: Memory, access: Access, pagesize: nat)
    returns (ok: bool, mappings: array<Mapping>, num: nat)
    requires io.Valid() && pagesize > 0
    modifies io
    ensures io.Valid() && fresh(mappings) && num <= mappings.Length
    ensures ok ==> MapTable(n, old(io.Pending()), mem, access, pagesize) == Some(mappings[..num])
    ensures !ok && Clean(old(io.answers)) ==> MapTable(n, old(io.Pending()), mem, access, pagesize).None?
  {
    hide ScanLine, ScanLines, Table, LineMapping, ZerosOf, Keep, Clean, Before;
    mappings := new Mapping[n](_ => Mapping(0, 0, 0, 0, 0, false));
    num, ok := n, true;
    var i := 0;
    ghost var clean, lines, whole, rest := Clean(io.answers), [], io.Pending(), io.Pending();
    BeforeNothing(ScanLines(n, whole));
    TableOfNothing(mem, access, pagesize);
    while i < num
      invariant io.Valid() && (clean ==> Clean(io.answers)) && io.Pending() == rest
      invariant i <= num <= n == mappings.Length
      invariant ScanLines(n, whole) == Before(lines, ScanLines(num - i, rest))
      invariant mappings[..i] == Table(lines, mem, access, pagesize)
      decreases num - i
    {
      ScanStep(lines, num - i, rest);
      var good, l := ReadLine(io);
      if !good {
        ok, num := false, i;
        return;
      }
      rest := io.Pending();
      TableSnoc(lines, l, mem, access, pagesize);
      lines := lines + [l];
      var kept := FillSlot(mappings, i, l, mem, access, pagesize);
      if kept {
        i := i + 1;
      } else {
        num := num - 1;
      }
    }
    ScansDone(lines, rest);
  }

  lemma ScansDone(lines: seq<Line>, s: seq<byte>)
    ensures Before(lines, ScanLines(0, s)) == Scanned(lines, s)
  {
    assert lines + [] == lines;
  }
}
