/** The text of `/proc/self/maps` as the kernel writes it, and the proof that the
    scanner reads every such text back. */
module MapsText {
  import opened Bytes
  import opened ElfFormat
  import opened MapsReader
  import opened MapsTable

  /** One line of the file, as text. */
  datatype MapLine = MapLine(start: seq<byte>, end: seq<byte>, perms: seq<byte>, offset: seq<byte>,
                             device: seq<byte>, inode: seq<byte>, gap: nat, path: seq<byte>)

  ghost predicate AllHex(s: seq<byte>) {
    forall i :: 0 <= i < |s| ==> IsHex(s[i])
  }

  /** Neither a space nor a newline occurs. */
  ghost predicate IsWord(s: seq<byte>) {
    forall i :: 0 <= i < |s| ==> s[i] != SPACE && s[i] != NEWLINE
  }

  ghost predicate OneLine(s: seq<byte>) {
    forall i :: 0 <= i < |s| ==> s[i] != NEWLINE
  }

  ghost predicate WellFormed(l: MapLine) {
    && AllHex(l.start) && AllHex(l.end) && AllHex(l.offset)
    && IsWord(l.perms) && IsWord(l.device) && IsWord(l.inode)
    && l.device != [] && l.inode != []
    && OneLine(l.path) && (l.path != [] ==> l.gap > 0 && l.path[0] != SPACE)
  }

  function Spaces(n: nat): (s: seq<byte>)
    ensures |s| == n
  {
    seq(n, _ => 0x20)
  }

  function Tail(l: MapLine, rest: seq<byte>): seq<byte> {
    l.path + [0x0A] + rest
  }

  /** The characters of one line, followed by `rest`. */
  function Render(l: MapLine, rest: seq<byte>): seq<byte> {
    l.start + ([0x2D] + (l.end + ([0x20] + (l.perms + ([0x20] + (l.offset + ([0x20] +
    (l.device + ([0x20] + (l.inode + (Spaces(l.gap) + Tail(l, rest))))))))))))
  }

  function RenderAll(ls: seq<MapLine>): seq<byte> {
    if ls == [] then [] else Render(ls[0], RenderAll(ls[1..]))
  }

  predicate StartsWith(s: seq<byte>, prefix: seq<byte>) {
    |prefix| <= |s| && s[..|prefix|] == prefix
  }

  /** Under /dev/, and not /dev/zero itself, with or without a remark behind it. */
  predicate IsDevicePath(path: seq<byte>) {
    StartsWith(path, DevZero()[..5]) && path != DevZero() && !StartsWith(path, DevZero() + [0x20])
  }

  /** What a line says. */
  function Meaning(l: MapLine): Line {
    Line(HexValue(l.start), HexValue(l.end), HexValue(l.offset), FlagBits(l.perms) / 2 % 8,
         l.path == [] || l.path[0] == BRACKET, IsDevicePath(l.path))
  }

  /** The four permission characters become the R, W and X bits of ELF; the
      private/shared character is dropped. */
  lemma PermissionBits(perms: seq<byte>)
    requires |perms| == 4
    ensures FlagBits(perms) / 2 % 8 == (if perms[0] != DASH then PF_R else 0)
                                       + (if perms[1] != DASH then PF_W else 0)
                                       + (if perms[2] != DASH then PF_X else 0)
  {
    var b := perms[..1];
    assert perms[..3][..2] == perms[..2] && perms[..2][..1] == b && b[..0] == [];
    assert FlagBits(b) == if perms[0] != DASH then 1 else 0;
    assert FlagBits(perms[..2]) == FlagBits(b) * 2 + if perms[1] != DASH then 1 else 0;
    assert FlagBits(perms[..3]) == FlagBits(perms[..2]) * 2 + if perms[2] != DASH then 1 else 0;
  }

  // ---------- Reading a rendered line ----------

  lemma HexThen(digits: seq<byte>, terminator: byte, rest: seq<byte>)
    requires AllHex(digits) && !IsHex(terminator)
    ensures ScanHex(digits + ([terminator] + rest), terminator) == Scanned(HexValue(digits), rest)
  {
    var s := digits + ([terminator] + rest);
    LeadingHexIs(s, |digits|);
    assert s[..|digits|] == digits && s[|digits| + 1..] == rest;
  }

  lemma FlagsThen(perms: seq<byte>, rest: seq<byte>)
    requires IsWord(perms)
    ensures ScanFlags(perms + ([0x20] + rest)) == Scanned(FlagBits(perms), rest)
  {
    var s := perms + ([0x20] + rest);
    UntilSpaceIs(s, |perms|);
    assert s[..|perms|] == perms && s[|perms| + 1..] == rest;
  }

  lemma {:induction false} DropSpacesThen(n: nat, s: seq<byte>)
    requires s != [] ==> s[0] != SPACE
    ensures DropSpaces(Spaces(n) + s) == s
  {
    if n == 0 {
      assert Spaces(0) + s == s;
    } else {
      assert (Spaces(n) + s)[1..] == Spaces(n - 1) + s;
      DropSpacesThen(n - 1, s);
    }
  }

  lemma {:induction false} DropFieldThen(word: seq<byte>, s: seq<byte>)
    requires IsWord(word) && s != [] && (s[0] == SPACE || s[0] == NEWLINE)
    ensures DropField(word + s) == s
  {
    if word == [] {
      assert word + s == s;
    } else {
      assert (word + s)[1..] == word[1..] + s;
      DropFieldThen(word[1..], s);
    }
  }

  lemma {:induction false} DropLineThen(text: seq<byte>, rest: seq<byte>)
    requires OneLine(text)
    ensures DropToNewline(text + [0x0A] + rest) == [0x0A] + rest
  {
    if text == [] {
      assert text + [0x0A] + rest == [0x0A] + rest;
    } else {
      assert (text + [0x0A] + rest)[1..] == text[1..] + [0x0A] + rest;
      DropLineThen(text[1..], rest);
    }
  }

  lemma NumberThen(word: seq<byte>, gap: nat, s: seq<byte>)
    requires IsWord(word) && word != []
    requires s != [] && s[0] != SPACE && (gap > 0 || s[0] == NEWLINE)
    ensures SkipNumber([0x20] + (word + (Spaces(gap) + s))) == s
  {
    var after := Spaces(gap) + s;
    assert [0x20] + (word + after) == Spaces(1) + (word + after);
    DropSpacesThen(1, word + after);
    DropFieldThen(word, after);
    DropSpacesThen(gap, s);
  }

  lemma PathThen(path: seq<byte>, rest: seq<byte>)
    requires OneLine(path)
    ensures ScanPath(path + [0x0A] + rest)
         == Scanned((path == [] || path[0] == BRACKET, IsDevicePath(path)), rest)
  {
    hide IsDevicePath;
    var s := path + [0x0A] + rest;
    var n := Matching(path, DevZero());
    assert s[..n] == path[..n];
    assert n < |path| ==> s[n] == path[n];
    MatchingIs(s, DevZero(), n);
    assert s[n..] == path[n..] + [0x0A] + rest;
    DropLineThen(path[n..], rest);
    DeviceByMatching(path);
    assert ([0x0A] + rest)[1..] == rest;
  }

  lemma {:induction false} MatchingAtLeast(s: seq<byte>, pattern: seq<byte>, k: nat)
    requires k <= |pattern|
    ensures Matching(s, pattern) >= k <==> StartsWith(s, pattern[..k])
  {
    if k > 0 && s != [] {
      MatchingAtLeast(s[1..], pattern[1..], k - 1);
      assert k <= |s| ==> s[..k] == [s[0]] + s[1..][..k - 1];
      assert pattern[..k] == [pattern[0]] + pattern[1..][..k - 1];
    }
  }

  /** The code's test on the matched length is the test on the path. */
  lemma DeviceByMatching(path: seq<byte>)
    ensures var n := Matching(path, DevZero());
            IsDevicePath(path) <==> n >= 5 && (n < 9 || (n < |path| && path[n] != SPACE))
  {
    hide DevZero, Matching, StartsWith;
    MatchingAtLeast(path, DevZero(), 5);
    MatchingAtLeast(path, DevZero(), 9);
    SameOrLonger(path, DevZero());
    LongerPath(path, DevZero());
  }

  lemma LongerPath(path: seq<byte>, zero: seq<byte>)
    requires |zero| == 9
    ensures StartsWith(path, zero) ==> |path| >= 9
    ensures Matching(path, zero) <= 9 && Matching(path, zero) <= |path|
  {
  }

  lemma SameOrLonger(path: seq<byte>, zero: seq<byte>)
    requires |zero| == 9
    ensures StartsWith(path, zero[..9]) <==> StartsWith(path, zero)
    ensures StartsWith(path, zero) ==> (path == zero <==> |path| == 9)
    ensures StartsWith(path, zero + [0x20]) <==> StartsWith(path, zero) && |path| > 9 && path[9] == 0x20
    ensures path == zero ==> StartsWith(path, zero)
  {
    assert zero[..9] == zero;
    if |path| > 9 {
      assert path[..10] == path[..9] + [path[9]];
      assert (zero + [0x20])[..9] == zero;
    }
    if |path| == 9 {
      assert path[..9] == path;
    }
  }

  /** The scanner reads back every well-formed line, whatever follows it. */
  lemma LineReadBack(l: MapLine, rest: seq<byte>)
    requires WellFormed(l)
    ensures ScanLine(Render(l, rest)) == Scanned(Meaning(l), rest)
  {
    hide AllHex, IsWord, OneLine, ScanHex, ScanFlags, SkipNumber, ScanPath, IsDevicePath, FlagBits, HexValue;
    var tail := Tail(l, rest);
    var s4 := [0x20] + (l.inode + (Spaces(l.gap) + tail));
    var s3 := l.device + s4;
    var s2 := l.perms + ([0x20] + (l.offset + ([0x20] + s3)));
    HexThen(l.start, 0x2D, l.end + ([0x20] + s2));
    HexThen(l.end, 0x20, s2);
    FlagsThen(l.perms, l.offset + ([0x20] + s3));
    HexThen(l.offset, 0x20, s3);
    NumbersThen(l, tail);
    PathThen(l.path, rest);
  }

  /** A line with these addresses, in whatever width, is read back as them. */
  lemma AddressesReadBack(l: MapLine, rest: seq<byte>, start: nat, end: nat, offset: nat, a: nat, b: nat, c: nat)
    requires WellFormed(l) && start < SIZE_LIMIT && end < SIZE_LIMIT && offset < SIZE_LIMIT
    requires l.start == HexPadded(a, start) && l.end == HexPadded(b, end) && l.offset == HexPadded(c, offset)
    ensures ScanLine(Render(l, rest)) == Scanned(Meaning(l), rest)
    ensures Meaning(l).start == start && Meaning(l).end == end && Meaning(l).offset == offset
  {
    hide ScanLine, Render, WellFormed, HexPadded, HexValue;
    HexPaddedValue(a, start);
    HexPaddedValue(b, end);
    HexPaddedValue(c, offset);
    LineReadBack(l, rest);
  }

  lemma NumbersThen(l: MapLine, tail: seq<byte>)
    requires IsWord(l.device) && IsWord(l.inode) && l.device != [] && l.inode != []
    requires tail != [] && tail[0] != SPACE && (l.gap > 0 || tail[0] == NEWLINE)
    ensures SkipNumber(SkipNumber([0x20] + (l.device + ([0x20] + (l.inode + (Spaces(l.gap) + tail)))))) == tail
  {
    var s := l.inode + (Spaces(l.gap) + tail);
    assert [0x20] + s == Spaces(1) + s;
    NumberThen(l.device, 1, s);
    // Behind the device number the spaces are already gone.
    SkipNumberUnspaced(l.inode, l.gap, tail);
  }

  lemma SkipNumberUnspaced(word: seq<byte>, gap: nat, s: seq<byte>)
    requires IsWord(word) && word != []
    requires s != [] && s[0] != SPACE && (gap > 0 || s[0] == NEWLINE)
    ensures SkipNumber(word + (Spaces(gap) + s)) == s
  {
    var after := Spaces(gap) + s;
    assert Spaces(0) + (word + after) == word + after;
    DropSpacesThen(0, word + after);
    DropFieldThen(word, after);
    DropSpacesThen(gap, s);
  }

  function Meanings(ls: seq<MapLine>): (r: seq<Line>)
    ensures |r| == |ls|
  {
    if ls == [] then [] else [Meaning(ls[0])] + Meanings(ls[1..])
  }

  /** A map of well-formed lines is read back line by line, and all of it is used. */
  lemma {:induction false} LinesReadBack(ls: seq<MapLine>)
    requires forall l :: l in ls ==> WellFormed(l)
    ensures ScanLines(|ls|, RenderAll(ls)) == Scanned(Meanings(ls), [])
  {
    if ls != [] {
      LineReadBack(ls[0], RenderAll(ls[1..]));
      LinesReadBack(ls[1..]);
    }
  }

  lemma {:induction false} NewlinesAppend(a: seq<byte>, b: seq<byte>)
    ensures Newlines(a + b) == Newlines(a) + Newlines(b)
  {
    if a == [] {
      assert a + b == b;
    } else {
      assert (a + b)[1..] == a[1..] + b;
      NewlinesAppend(a[1..], b);
    }
  }

  lemma {:induction false} NoNewlines(s: seq<byte>)
    requires OneLine(s)
    ensures Newlines(s) == 0
  {
    if s != [] {
      NoNewlines(s[1..]);
    }
  }

  lemma NewlinesAfter(s: seq<byte>, rest: seq<byte>)
    requires OneLine(s)
    ensures Newlines(s + rest) == Newlines(rest)
  {
    NoNewlines(s);
    NewlinesAppend(s, rest);
  }

  lemma NewlinesRendered(l: MapLine, rest: seq<byte>)
    requires WellFormed(l)
    ensures Newlines(Render(l, rest)) == 1 + Newlines(rest)
  {
    assert OneLine(l.start) && OneLine(l.end) && OneLine(l.offset);
    hide Newlines, AllHex, IsWord;
    var tail := Tail(l, rest);
    var s5 := Spaces(l.gap) + tail;
    var s4 := l.inode + s5;
    var s3 := l.device + ([0x20] + s4);
    var s2 := l.perms + ([0x20] + (l.offset + ([0x20] + s3)));
    NewlinesAfter(l.start, [0x2D] + (l.end + ([0x20] + s2)));
    NewlinesAfter([0x2D], l.end + ([0x20] + s2));
    NewlinesAfter(l.end, [0x20] + s2);
    NewlinesAfter([0x20], s2);
    NewlinesAfter(l.perms, [0x20] + (l.offset + ([0x20] + s3)));
    NewlinesAfter([0x20], l.offset + ([0x20] + s3));
    NewlinesAfter(l.offset, [0x20] + s3);
    NewlinesAfter([0x20], s3);
    NewlinesAfter(l.device, [0x20] + s4);
    NewlinesAfter([0x20], s4);
    NewlinesAfter(l.inode, s5);
    NewlinesAfter(Spaces(l.gap), tail);
    Assoc(l.path, [0x0A], rest);
    NewlinesAfter(l.path, [0x0A] + rest);
    NewlineFirst(rest);
  }

  lemma NewlineFirst(rest: seq<byte>)
    ensures Newlines([0x0A] + rest) == 1 + Newlines(rest)
  {
    assert ([0x0A] + rest)[1..] == rest;
  }

  lemma {:induction false} NewlinesCounted(ls: seq<MapLine>)
    requires forall l :: l in ls ==> WellFormed(l)
    ensures Newlines(RenderAll(ls)) == |ls|
  {
    if ls != [] {
      NewlinesRendered(ls[0], RenderAll(ls[1..]));
      NewlinesCounted(ls[1..]);
    }
  }

  /** The two passes together: the number of mappings counted in the first pass is the
      number of lines, and the table the second pass fills is the filter of what the
      lines say, in their order. */
  lemma MapReadBack(ls: seq<MapLine>, mem: Memory, access: Access, pagesize: nat)
    requires forall l :: l in ls ==> WellFormed(l)
    requires pagesize > 0
    ensures MapTable(Newlines(RenderAll(ls)), RenderAll(ls), mem, access, pagesize)
         == Some(Table(Meanings(ls), mem, access, pagesize))
  {
    NewlinesCounted(ls);
    LinesReadBack(ls);
  }
}
