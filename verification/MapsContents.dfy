/** What the text of `/proc/self/maps` says about the table of mappings: which lines
    have an entry, where, and what the entry holds. */
module MapsContents {
  import opened Bytes
  import opened ElfFormat
  import opened MapsReader
  import opened MapsTable
  import opened MapsText

  /** A line of the file, and the region it is about: the number of its pages, its first
      address and its place in the mapped file. */
  datatype Region = Region(text: MapLine, start: nat, pages: nat, offset: nat)

  /** Hexadecimal digits of `n`, with or without zeros in front. */
  ghost predicate Writes(digits: seq<byte>, n: nat) {
    exists zeros :: digits == HexPadded(zeros, n)
  }

  /** The text has the addresses in hexadecimal, of any width, and four permissions. */
  ghost predicate Tells(r: Region, pagesize: nat) {
    && WellFormed(r.text) && |r.text.perms| == 4
    && r.start + pagesize * r.pages < SIZE_LIMIT && r.offset < SIZE_LIMIT
    && Writes(r.text.start, r.start) && Writes(r.text.end, r.start + pagesize * r.pages)
    && Writes(r.text.offset, r.offset)
  }

  /** The path leads under "/dev/", but it is not "/dev/zero", nor that with a space and
      a remark behind it. */
  predicate Device(path: seq<byte>) {
    && |path| >= 5 && path[..5] == [0x2F, 0x64, 0x65, 0x76, 0x2F]
    && !(|path| >= 9 && path[5..9] == [0x7A, 0x65, 0x72, 0x6F] && (|path| == 9 || path[9] == 0x20))
  }

  /** Without a path, or with a remark in brackets in place of it. */
  predicate Anonymous(path: seq<byte>) {
    path == [] || path[0] == 0x5B
  }

  /** Permission number `i` is given: reading, writing, executing. */
  predicate Grants(perms: seq<byte>, i: nat) {
    i < |perms| && perms[i] != 0x2D
  }

  /** The region has an entry in the table: it can be read, is no device, and some page
      of it is not blank. */
  ghost predicate Entered(r: Region, mem: Memory, access: Access, pagesize: nat) {
    && Grants(r.text.perms, 0) && !Device(r.text.path)
    && exists k :: 0 <= k < r.pages && !BlankPage(mem, access, r.start, pagesize, k)
  }

  /** The first page that is not blank. */
  ghost predicate FirstPage(r: Region, mem: Memory, access: Access, pagesize: nat, j: nat) {
    && j < r.pages && !BlankPage(mem, access, r.start, pagesize, j)
    && forall k :: 0 <= k < j ==> BlankPage(mem, access, r.start, pagesize, k)
  }

  /** The entry of a region: from its first page that is not blank to its end. Nothing is
      to be written for it exactly if it is neither anonymous nor writable. */
  ghost predicate EntryOf(m: Mapping, r: Region, mem: Memory, access: Access, pagesize: nat) {
    var perms, anonymous := r.text.perms, Anonymous(r.text.path);
    && (exists j :: FirstPage(r, mem, access, pagesize, j) && m.start == r.start + pagesize * j)
    && m.end == r.start + pagesize * r.pages && m.offset == r.offset
    && m.writeSize == (if !anonymous && !Grants(perms, 1) then 0 else m.end - m.start)
    && m.flags == (if Grants(perms, 0) then 4 else 0) + (if Grants(perms, 1) then 2 else 0)
                  + (if Grants(perms, 2) then 1 else 0)
    && m.anonymous == anonymous
  }

  /** How many regions have an entry. */
  ghost function Entries(rs: seq<Region>, mem: Memory, access: Access, pagesize: nat): nat {
    if rs == [] then 0
    else
      Entries(rs[..|rs| - 1], mem, access, pagesize)
      + (if Entered(rs[|rs| - 1], mem, access, pagesize) then 1 else 0)
  }

  lemma DeviceText(path: seq<byte>)
    ensures IsDevicePath(path) <==> Device(path)
  {
    var zero := DevZero();
    assert zero[..5] == [0x2F, 0x64, 0x65, 0x76, 0x2F] && zero[5..9] == [0x7A, 0x65, 0x72, 0x6F];
    SameOrLonger(path, zero);
    if |path| >= 9 {
      assert path[..9] == path[..5] + path[5..9] && zero == zero[..5] + zero[5..9];
      assert path[..9] == zero <==> path[..5] == zero[..5] && path[5..9] == zero[5..9] by {
        assert path[..9][..5] == path[..5] && path[..9][5..9] == path[5..9];
      }
    }
  }

  /** The sixteen digits, as the kernel prints them. */
  lemma HexDigits(d: nat)
    requires d < 16
    ensures HexPadded(0, d)
         == [[0x30, 0x31, 0x32, 0x33, 0x34, 0x35, 0x36, 0x37, 0x38, 0x39, 0x61, 0x62, 0x63, 0x64, 0x65, 0x66][d]]
    ensures HexPadded(1, 0x9F) == [0x30, 0x39, 0x66]
  {
    assert HexNumeral(0x9F) == [0x39, 0x66];
  }

  lemma Written(digits: seq<byte>, n: nat)
    requires Writes(digits, n) && n < SIZE_LIMIT
    ensures HexValue(digits) == n
  {
    var zeros :| digits == HexPadded(zeros, n);
    HexPaddedValue(zeros, n);
  }

  /** What the line of a region is read as. */
  lemma LineTold(r: Region, pagesize: nat)
    requires Tells(r, pagesize)
    ensures var l := Meaning(r.text);
            && l.start == r.start && l.end == r.start + pagesize * r.pages && l.offset == r.offset
            && l.anonymous == Anonymous(r.text.path) && (l.device <==> Device(r.text.path))
            && l.flags == (if Grants(r.text.perms, 0) then 4 else 0) + (if Grants(r.text.perms, 1) then 2 else 0)
                          + (if Grants(r.text.perms, 2) then 1 else 0)
  {
    hide WellFormed, Writes, HexValue, FlagBits, IsDevicePath, Device;
    Written(r.text.start, r.start);
    Written(r.text.end, r.start + pagesize * r.pages);
    Written(r.text.offset, r.offset);
    PermissionBits(r.text.perms);
    DeviceText(r.text.path);
  }

  lemma FirstAt(r: Region, mem: Memory, access: Access, pagesize: nat) returns (j: nat)
    requires pagesize > 0
    ensures LeadingZeroPages(mem, access, r.start, pagesize * r.pages, pagesize) == pagesize * j && j <= r.pages
    ensures j < r.pages ==> FirstPage(r, mem, access, pagesize, j)
    ensures j < r.pages <==> exists k :: 0 <= k < r.pages && !BlankPage(mem, access, r.start, pagesize, k)
  {
    hide BlankPage;
    j := LeadingZeroPagesIsLargest(mem, access, r.start, r.pages, pagesize);
  }

  lemma PagesLeft(pagesize: nat, j: nat, pages: nat)
    requires pagesize > 0 && j <= pages
    ensures pagesize * j <= pagesize * pages
    ensures pagesize * j == pagesize * pages <==> j == pages
  {
    MulMonotone(pagesize, j, pages);
    if j < pages {
      MulAtLeast(pagesize, pages - j);
      assert pagesize * (pages - j) == pagesize * pages - pagesize * j;
    }
  }

  lemma InRange(n: nat)
    requires n < SIZE_LIMIT
    ensures n % SIZE_LIMIT == n
  {
    DivModUnique(n, SIZE_LIMIT, 0, n);
  }

  /** One line: it has an entry exactly if its region is to have one, with what that is
      to hold. */
  lemma LineEntered(r: Region, mem: Memory, access: Access, pagesize: nat)
    requires pagesize > 0 && Tells(r, pagesize)
    ensures var l := Meaning(r.text);
            var m := LineMapping(l, ZerosOf(l, mem, access, pagesize));
            && (Keep(l, m) <==> Entered(r, mem, access, pagesize))
            && (Entered(r, mem, access, pagesize) ==> EntryOf(m, r, mem, access, pagesize))
  {
    hide Meaning, WellFormed, Writes, Device, BlankPage, FirstPage, LeadingZeroPages;
    var size := pagesize * r.pages;
    LineTold(r, pagesize);
    var j := FirstAt(r, mem, access, pagesize);
    PagesLeft(pagesize, j, r.pages);
    InRange(size);
    InRange(r.start);
    InRange(r.start + pagesize * j);
    InRange(size - pagesize * j);
  }

  lemma MeaningsSnoc(ls: seq<MapLine>, l: MapLine)
    ensures Meanings(ls + [l]) == Meanings(ls) + [Meaning(l)]
  {
    if ls == [] {
      assert ls + [l] == [l] && Meanings([l]) == [Meaning(l)];
    } else {
      assert (ls + [l])[1..] == ls[1..] + [l];
      MeaningsSnoc(ls[1..], l);
    }
  }

  /** The lines of the regions. */
  function Texts(rs: seq<Region>): (ls: seq<MapLine>)
    ensures |ls| == |rs|
    ensures forall i :: 0 <= i < |ls| ==> ls[i] == rs[i].text
  {
    seq(|rs|, i requires 0 <= i < |rs| => rs[i].text)
  }

  lemma {:induction false} TableEntries(rs: seq<Region>, mem: Memory, access: Access, pagesize: nat)
    requires pagesize > 0 && forall r :: r in rs ==> Tells(r, pagesize)
    ensures |Table(Meanings(Texts(rs)), mem, access, pagesize)| == Entries(rs, mem, access, pagesize)
  {
    hide Tells, Entered, EntryOf, Keep, LineMapping, ZerosOf, Meaning;
    if rs != [] {
      var k := |rs| - 1;
      TableEntries(rs[..k], mem, access, pagesize);
      LineEntered(rs[k], mem, access, pagesize);
      TableOfMore(rs, mem, access, pagesize);
    }
  }

  lemma TableOfMore(rs: seq<Region>, mem: Memory, access: Access, pagesize: nat)
    requires pagesize > 0 && rs != []
    ensures var k := |rs| - 1;
            var l := Meaning(rs[k].text);
            var m := LineMapping(l, ZerosOf(l, mem, access, pagesize));
            Table(Meanings(Texts(rs)), mem, access, pagesize)
            == Table(Meanings(Texts(rs[..k])), mem, access, pagesize) + if Keep(l, m) then [m] else []
  {
    hide Table, Keep, LineMapping, ZerosOf, Meaning, Meanings;
    var k := |rs| - 1;
    assert Texts(rs) == Texts(rs[..k]) + [rs[k].text];
    MeaningsSnoc(Texts(rs[..k]), rs[k].text);
    TableSnoc(Meanings(Texts(rs[..k])), Meaning(rs[k].text), mem, access, pagesize);
  }

  /** The entry of region `i` comes behind those of the regions before. */
  lemma {:induction false} TableEntryAt(rs: seq<Region>, mem: Memory, access: Access, pagesize: nat, i: nat)
    requires pagesize > 0 && i < |rs| && (forall r :: r in rs ==> Tells(r, pagesize))
    requires Entered(rs[i], mem, access, pagesize)
    ensures var table, at := Table(Meanings(Texts(rs)), mem, access, pagesize),
                             Entries(rs[..i], mem, access, pagesize);
            at < |table| && EntryOf(table[at], rs[i], mem, access, pagesize)
  {
    hide Tells, Entered, EntryOf, Keep, LineMapping, ZerosOf, Meaning;
    var k := |rs| - 1;
    TableOfMore(rs, mem, access, pagesize);
    if i == k {
      LineEntered(rs[k], mem, access, pagesize);
      TableEntries(rs[..k], mem, access, pagesize);
    } else {
      assert rs[..k][..i] == rs[..i];
      TableEntryAt(rs[..k], mem, access, pagesize, i);
    }
  }

  /** The table has an entry for every region that is to have one, in order, and no
      others. */
  ghost predicate TableOf(table: seq<Mapping>, rs: seq<Region>, mem: Memory, access: Access, pagesize: nat) {
    && |table| == Entries(rs, mem, access, pagesize)
    && (forall i :: 0 <= i < |rs| && Entered(rs[i], mem, access, pagesize) ==>
          var at := Entries(rs[..i], mem, access, pagesize);
          at < |table| && EntryOf(table[at], rs[i], mem, access, pagesize))
  }

  lemma TableOfRegions(rs: seq<Region>, mem: Memory, access: Access, pagesize: nat)
    requires pagesize > 0 && forall r :: r in rs ==> Tells(r, pagesize)
    ensures TableOf(Table(Meanings(Texts(rs)), mem, access, pagesize), rs, mem, access, pagesize)
  {
    hide Tells, Entered, EntryOf, Table, Entries, Meanings, Texts;
    TableEntries(rs, mem, access, pagesize);
    forall i | 0 <= i < |rs| && Entered(rs[i], mem, access, pagesize)
      ensures var table, at := Table(Meanings(Texts(rs)), mem, access, pagesize),
                               Entries(rs[..i], mem, access, pagesize);
              at < |table| && EntryOf(table[at], rs[i], mem, access, pagesize)
    {
      TableEntryAt(rs, mem, access, pagesize, i);
    }
  }

  /** From the text of the map alone: what the two passes over it leave in the table. */
  lemma TableOfText(rs: seq<Region>, mem: Memory, access: Access, pagesize: nat)
    requires pagesize > 0 && forall r :: r in rs ==> Tells(r, pagesize)
    ensures var text := RenderAll(Texts(rs));
            var read := MapTable(Newlines(text), text, mem, access, pagesize);
            read.Some? && TableOf(read.value, rs, mem, access, pagesize)
  {
    hide TableOf, Table, Meanings, RenderAll, MapTable, Newlines, WellFormed;
    TableOfRegions(rs, mem, access, pagesize);
    forall l | l in Texts(rs)
      ensures WellFormed(l)
    {
      var i :| 0 <= i < |rs| && rs[i].text == l;
      assert rs[i] in rs;
    }
    MapReadBack(Texts(rs), mem, access, pagesize);
  }
}
