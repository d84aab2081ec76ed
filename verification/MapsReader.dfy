/** Reading `/proc/self/maps`: buffered characters, hexadecimal numbers, and the
    loop that turns lines into the mappings to dump. */
module MapsReader {
  import opened Bytes
  import opened Writers

  const SPACE: int := 0x20
  const NEWLINE: int := 0x0A
  const DASH: int := 0x2D
  const BRACKET: int := 0x5B
  const BUFFER_SIZE: nat := 4096

  // ---------- Characters ----------

  /** `struct io`: the file, and the part of the last chunk not yet consumed. */
  class Io {
    var remaining: seq<byte>     // what the kernel has not handed out yet
    var answers: seq<Answer>     // how it will answer the coming reads
    var buf: seq<byte>           // the last chunk read
    var data: nat                // index of the next character in `buf`
    var failed: bool             // errno, as far as the callers look at it

    constructor (file: seq<byte>, answers: seq<Answer>)
      ensures Valid() && Pending() == file && this.answers == answers
    {
      remaining, this.answers, buf, data, failed := file, answers, [], 0, false;
    }

    ghost predicate Valid()
      reads this
    {
      data <= |buf|
    }

    /** The characters still to come. */
    ghost function Pending(): seq<byte>
      reads this
      requires Valid()
    {
      buf[data..] + remaining
    }

    /** `c_read` into the buffer: -1 on error, 0 at the end of the file only. */
    method Refill() returns (n: int)
      requires Valid() && data == |buf|
      modifies this
      ensures Valid()
      ensures Clean(old(answers)) ==> Clean(answers) && n >= 0
      ensures n < 0 ==> Pending() == old(Pending()) && data == |buf| && failed
      ensures n == 0 ==> Pending() == old(Pending()) == [] && data == |buf|
      ensures n > 0 ==> data == 0 && |buf| == n && Pending() == old(Pending())
    {
      while answers != [] && answers[0].Interrupted?
        invariant Valid() && remaining == old(remaining) && buf == old(buf) && data == old(data)
        invariant Clean(old(answers)) ==> Clean(answers)
        decreases |answers|
      {
        answers := answers[1..];
      }
      if answers != [] && answers[0].Failed? {
        assert answers[0] in answers;
        answers, failed := answers[1..], true;
        return -1;
      }
      if remaining == [] {
        return 0;
      }
      var chunk := Min(BUFFER_SIZE, |remaining|);
      if answers != [] && answers[0].Moved? {
        chunk := if answers[0].count == 0 then 1 else Min(answers[0].count, chunk);
        answers := answers[1..];
      }
      buf, remaining, data := remaining[..chunk], remaining[chunk..], 0;
      return chunk;
    }

    /** `GetChar`: the next character, or -1 at the end of the file or on error. */
    method GetChar() returns (ch: int)
      requires Valid()
      modifies this
      ensures Valid() && (Clean(old(answers)) ==> Clean(answers))
      ensures -1 <= ch < 256
      ensures ch >= 0 ==> old(Pending()) == [ch] + Pending()
      ensures ch < 0 ==> Pending() == old(Pending()) && (failed || Pending() == [])
      ensures ch < 0 && Clean(old(answers)) ==> !failed
    {
      if data == |buf| {
        var n := Refill();
        if n <= 0 {
          if n == 0 {
            failed := false;
          }
          return -1;
        }
      }
      ch := buf[data];
      data := data + 1;
    }
  }

  // ---------- Hexadecimal numbers ----------

  predicate IsHex(ch: int) {
    0x30 <= ch <= 0x39 || 0x41 <= ch <= 0x46 || 0x61 <= ch <= 0x66
  }

  /** The value of a hexadecimal digit as the code computes it. */
  function HexDigit(ch: byte): nat {
    if ch < 0x41 then (if ch >= 0x30 then ch - 0x30 else 0) else ch % 16 + 9
  }

  /** A `size_t` shifted left by four bits to take in a digit, wrapping around. */
  function ShiftIn(value: nat, ch: byte): nat {
    (value * 16 + HexDigit(ch)) % SIZE_LIMIT
  }

  function HexValue(digits: seq<byte>): nat {
    if digits == [] then 0 else ShiftIn(HexValue(digits[..|digits| - 1]), digits[|digits| - 1])
  }

  function HexCharacter(d: nat): (ch: byte)
    requires d < 16
    ensures IsHex(ch) && HexDigit(ch) == d
  {
    if d < 10 then 0x30 + d else 0x61 + (d - 10)
  }

  /** Hexadecimal notation as the kernel prints it, without leading zeros. */
  function HexNumeral(n: nat): (s: seq<byte>)
    ensures s != [] && forall i :: 0 <= i < |s| ==> IsHex(s[i])
  {
    if n < 16 then [HexCharacter(n)] else HexNumeral(n / 16) + [HexCharacter(n % 16)]
  }

  /** The same, filled up with zeros in front. */
  function HexPadded(zeros: nat, n: nat): (s: seq<byte>)
    ensures forall i :: 0 <= i < |s| ==> IsHex(s[i])
  {
    seq(zeros, _ => 0x30) + HexNumeral(n)
  }

  lemma {:induction false} ZerosValue(zeros: nat)
    ensures HexValue(seq(zeros, _ => 0x30)) == 0
  {
    if zeros > 0 {
      var s: seq<byte> := seq(zeros, _ => 0x30);
      ZerosValue(zeros - 1);
      assert s[..zeros - 1] == seq(zeros - 1, _ => 0x30);
    }
  }

  /** Every address is the value of its hexadecimal notation. */
  lemma {:induction false} HexPaddedValue(zeros: nat, n: nat)
    requires n < SIZE_LIMIT
    ensures HexValue(HexPadded(zeros, n)) == n
    decreases n
  {
    var padding: seq<byte> := seq(zeros, _ => 0x30);
    var s := HexPadded(zeros, n);
    if n < 16 {
      ZerosValue(zeros);
      assert s[..|s| - 1] == padding;
      LastDigit(0, n);
    } else {
      HexPaddedValue(zeros, n / 16);
      assert s[..|s| - 1] == HexPadded(zeros, n / 16);
      assert n == n / 16 * 16 + n % 16;
      LastDigit(n / 16, n % 16);
    }
  }

  lemma LastDigit(value: nat, d: nat)
    requires d < 16 && value * 16 + d < SIZE_LIMIT
    ensures ShiftIn(value, HexCharacter(d)) == value * 16 + d
  {
    DivModUnique(value * 16 + d, SIZE_LIMIT, 0, value * 16 + d);
  }

  /** Number of hexadecimal digits at the front. */
  function LeadingHex(s: seq<byte>): (n: nat)
    ensures n <= |s|
    ensures forall i :: 0 <= i < n ==> IsHex(s[i])
    ensures n < |s| ==> !IsHex(s[n])
  {
    if s == [] || !IsHex(s[0]) then 0 else 1 + LeadingHex(s[1..])
  }

  lemma {:induction false} LeadingHexIs(s: seq<byte>, n: nat)
    requires n <= |s| && (forall i :: 0 <= i < n ==> IsHex(s[i])) && (n < |s| ==> !IsHex(s[n]))
    ensures LeadingHex(s) == n
  {
    if n > 0 {
      LeadingHexIs(s[1..], n - 1);
    }
  }

  /** `n` digits have been read from the front of `s`, and character `ch` behind them. */
  ghost predicate HexUpTo(s: seq<byte>, n: nat, hex: nat, ch: int, pending: seq<byte>) {
    && -1 <= ch < 256 && n <= |s| && (forall i :: 0 <= i < n ==> IsHex(s[i]))
    && hex == HexValue(s[..n])
    && (ch >= 0 ==> n < |s| && s[n] == ch && s[n + 1..] == pending)
  }

  lemma HexBegins(s: seq<byte>, ch: int, pending: seq<byte>)
    requires -1 <= ch < 256 && (ch >= 0 ==> s == [ch] + pending)
    ensures HexUpTo(s, 0, 0, ch, pending)
    ensures ch < 0 && s == [] ==> 0 == |s|
  {
    if ch >= 0 {
      assert s[0] == ch && s[1..] == pending;
    }
  }

  lemma HexBound(s: seq<byte>, n: nat, hex: nat, ch: int, pending: seq<byte>)
    requires HexUpTo(s, n, hex, ch, pending) && IsHex(ch)
    ensures n < |s| && 0 <= ch < 256 && s[n + 1..] == pending
  {
  }

  lemma HexNext(s: seq<byte>, n: nat, hex: nat, ch: byte, pending: seq<byte>, next: int, rest: seq<byte>)
    requires HexUpTo(s, n, hex, ch, pending) && IsHex(ch)
    requires -1 <= next < 256 && (next >= 0 ==> pending == [next] + rest)
    ensures HexUpTo(s, n + 1, ShiftIn(hex, ch), next, rest) && n < |s|
    ensures next < 0 && pending == [] ==> n + 1 == |s|
  {
    hide ShiftIn;
    assert s[..n + 1][..n] == s[..n];
    if next >= 0 {
      assert s[n + 1..][0] == next && s[n + 1..][1..] == rest;
    } else if pending == [] {
      assert |s[n + 1..]| == 0;
    }
  }

  lemma HexEnds(s: seq<byte>, n: nat, hex: nat, ch: int, pending: seq<byte>)
    requires HexUpTo(s, n, hex, ch, pending) && !IsHex(ch)
    ensures -1 <= ch < 256
    ensures ch >= 0 || n == |s| ==> n == LeadingHex(s)
    ensures ch >= 0 ==> n < |s| && hex == HexValue(s[..n]) && s[n] == ch && pending == s[n + 1..]
    ensures forall t: byte :: ch == t ==> ScanHex(s, t) == Scanned(hex, pending)
    ensures forall t: byte :: ch != t && (ch >= 0 || n == |s|) ==> ScanHex(s, t).Malformed?
  {
    if ch >= 0 || n == |s| {
      LeadingHexIs(s, n);
    }
  }

  /** `GetHex`: the number, and the first character behind it. */
  method GetHex(io: Io) returns (hex: nat, ch: int)
    requires io.Valid()
    modifies io
    ensures io.Valid() && (Clean(old(io.answers)) ==> Clean(io.answers))
    ensures -1 <= ch < 256
    ensures var s := old(io.Pending()); var n := LeadingHex(s);
            && (ch >= 0 ==> n < |s| && hex == HexValue(s[..n]) && s[n] == ch && io.Pending() == s[n + 1..])
            && (ch < 0 && Clean(old(io.answers)) ==> n == |s|)
    ensures forall t: byte :: ch == t ==> ScanHex(old(io.Pending()), t) == Scanned(hex, io.Pending())
    ensures forall t: byte :: ch != t && (ch >= 0 || Clean(old(io.answers))) ==>
              ScanHex(old(io.Pending()), t).Malformed?
  {
    hide *;
    hex := 0;
    ghost var s := io.Pending();
    ghost var n := 0;
    ch := io.GetChar();
    HexBegins(s, ch, io.Pending());
    while IsHex(ch)
      invariant io.Valid() && (Clean(old(io.answers)) ==> Clean(io.answers))
      invariant HexUpTo(s, n, hex, ch, io.Pending())
      invariant ch < 0 && Clean(old(io.answers)) ==> n == |s|
      decreases |s| - n
    {
      ghost var was, before, pending := hex, ch, io.Pending();
      HexBound(s, n, hex, ch, io.Pending());
      hex := ShiftIn(hex, ch);
      ch := io.GetChar();
      HexNext(s, n, was, before, pending, ch, io.Pending());
      n := n + 1;
    }
    HexEnds(s, n, hex, ch, io.Pending());
  }

  // ---------- Scanning one line ----------

  function DropSpaces(s: seq<byte>): (r: seq<byte>)
    ensures |r| <= |s|
  {
    if s != [] && s[0] == SPACE then DropSpaces(s[1..]) else s
  }

  function DropField(s: seq<byte>): (r: seq<byte>)
    ensures |r| <= |s|
  {
    if s != [] && s[0] != SPACE && s[0] != NEWLINE then DropField(s[1..]) else s
  }

  function DropToNewline(s: seq<byte>): (r: seq<byte>)
    ensures |r| <= |s|
    ensures r != [] ==> r[0] == NEWLINE
  {
    if s != [] && s[0] != NEWLINE then DropToNewline(s[1..]) else s
  }

  function DevZero(): (s: seq<byte>)
    ensures |s| == 9
  {
    [0x2F, 0x64, 0x65, 0x76, 0x2F, 0x7A, 0x65, 0x72, 0x6F]  // "/dev/zero"
  }

  /** Length of the longest common prefix. */
  function Matching(s: seq<byte>, pattern: seq<byte>): (n: nat)
    ensures n <= |s| && n <= |pattern|
    ensures s[..n] == pattern[..n]
    ensures n < |s| && n < |pattern| ==> s[n] != pattern[n]
  {
    if s == [] || pattern == [] || s[0] != pattern[0] then 0
    else
      assert s[..1 + Matching(s[1..], pattern[1..])] == [s[0]] + s[1..][..Matching(s[1..], pattern[1..])];
      1 + Matching(s[1..], pattern[1..])
  }

  lemma {:induction false} MatchingIs(s: seq<byte>, pattern: seq<byte>, n: nat)
    requires n <= |s| && n <= |pattern| && s[..n] == pattern[..n]
    requires n < |s| && n < |pattern| ==> s[n] != pattern[n]
    ensures Matching(s, pattern) == n
  {
    if n > 0 {
      assert s[0] == s[..n][0] && pattern[0] == pattern[..n][0];
      assert s[1..][..n - 1] == s[..n][1..] && pattern[1..][..n - 1] == pattern[..n][1..];
      MatchingIs(s[1..], pattern[1..], n - 1);
    }
  }

  /** The permission characters, one bit each, a dash being a zero. */
  function FlagBits(chars: seq<byte>): nat {
    if chars == [] then 0
    else FlagBits(chars[..|chars| - 1]) * 2 + (if chars[|chars| - 1] != DASH then 1 else 0)
  }

  /** Number of characters before the first space. */
  function UntilSpace(s: seq<byte>): (n: nat)
    ensures n <= |s|
    ensures forall i :: 0 <= i < n ==> s[i] != SPACE
    ensures n < |s| ==> s[n] == SPACE
  {
    if s == [] || s[0] == SPACE then 0 else 1 + UntilSpace(s[1..])
  }

  lemma {:induction false} UntilSpaceIs(s: seq<byte>, n: nat)
    requires n <= |s| && (forall i :: 0 <= i < n ==> s[i] != SPACE) && (n < |s| ==> s[n] == SPACE)
    ensures UntilSpace(s) == n
  {
    if n > 0 {
      UntilSpaceIs(s[1..], n - 1);
    }
  }

  /** One line of the file, taken apart. */
  datatype Line = Line(start: nat, end: nat, offset: nat, flags: nat, anonymous: bool, device: bool)

  datatype Scan<T> = Malformed | Scanned(value: T, rest: seq<byte>)

  function ScanHex(s: seq<byte>, terminator: byte): Scan<nat> {
    var n := LeadingHex(s);
    if n < |s| && s[n] == terminator then Scanned(HexValue(s[..n]), s[n + 1..]) else Malformed
  }

  function ScanFlags(s: seq<byte>): Scan<nat> {
    var n := UntilSpace(s);
    if n < |s| then Scanned(FlagBits(s[..n]), s[n + 1..]) else Malformed
  }

  /** Skips the device number or the inode number; `s` starts at the space before it. */
  function SkipNumber(s: seq<byte>): seq<byte> {
    var field := DropField(DropSpaces(s));
    if field == [] then [] else DropSpaces(field)
  }

  lemma NothingToSkip()
    ensures SkipNumber([]) == []
  {
  }

  /** The path: whether it is absent or bracketed, and whether it is a device. */
  function ScanPath(s: seq<byte>): Scan<(bool, bool)>
    requires s != []
  {
    var n := Matching(s, DevZero());
    var after := s[n..];
    var device := n >= 5 && ((after == [] || (after[0] != NEWLINE && after[0] != SPACE)) || n < 9);
    var eol := DropToNewline(after);
    if eol == [] then Malformed
    else Scanned((s[0] == NEWLINE || s[0] == BRACKET, device), eol[1..])
  }

  function ScanLine(s: seq<byte>): Scan<Line> {
    var start := ScanHex(s, DASH);
    if start.Malformed? then Malformed else
    var end := ScanHex(start.rest, SPACE);
    if end.Malformed? then Malformed else
    var flags := ScanFlags(end.rest);
    if flags.Malformed? then Malformed else
    var offset := ScanHex(flags.rest, SPACE);
    if offset.Malformed? then Malformed else
    var path := SkipNumber(SkipNumber([SPACE] + offset.rest));
    if path == [] then Malformed else
    var p := ScanPath(path);
    if p.Malformed? then Malformed
    else Scanned(Line(start.value, end.value, offset.value, flags.value / 2 % 8, p.value.0, p.value.1), p.rest)
  }

  // ---------- The scanner, character by character ----------

  /** The state of the parser between two of its loops: `t` is what it has ahead,
      unless reading failed, in which case it sees the end of the file. */
  ghost predicate Holds(io: Io, ch: int, t: seq<byte>, clean: bool)
    reads io
  {
    && io.Valid()
    && -1 <= ch < 256
    && (clean ==> Clean(io.answers))
    && (ch >= 0 ==> t == [ch] + io.Pending())
    && (ch < 0 && clean ==> t == [])
  }

  method SkipSpaces(io: Io, ch0: int, ghost t: seq<byte>, ghost clean: bool) returns (ch: int)
    requires Holds(io, ch0, t, clean)
    modifies io
    ensures Holds(io, ch, DropSpaces(t), clean)
  {
    ch := ch0;
    ghost var u := t;
    while ch == SPACE
      invariant Holds(io, ch, u, clean)
      invariant DropSpaces(u) == DropSpaces(t)
      decreases |u|
    {
      u := u[1..];
      ch := io.GetChar();
    }
  }

  method SkipField(io: Io, ch0: int, ghost t: seq<byte>, ghost clean: bool) returns (ch: int)
    requires Holds(io, ch0, t, clean)
    modifies io
    ensures Holds(io, ch, DropField(t), clean)
  {
    ch := ch0;
    ghost var u := t;
    while ch != SPACE && ch != NEWLINE && ch >= 0
      invariant Holds(io, ch, u, clean)
      invariant DropField(u) == DropField(t)
      decreases |u|
    {
      u := u[1..];
      ch := io.GetChar();
    }
  }

  method SkipToNewline(io: Io, ch0: int, ghost t: seq<byte>, ghost clean: bool) returns (ch: int)
    requires Holds(io, ch0, t, clean)
    modifies io
    ensures Holds(io, ch, DropToNewline(t), clean)
    ensures ch >= 0 ==> ch == NEWLINE && ch0 >= 0
  {
    ch := ch0;
    ghost var u := t;
    while ch != NEWLINE && ch >= 0
      invariant ch0 < 0 ==> ch < 0
      invariant Holds(io, ch, u, clean)
      invariant DropToNewline(u) == DropToNewline(t)
      decreases |u|
    {
      u := u[1..];
      ch := io.GetChar();
    }
  }

  /** Matches the path against "/dev/zero" as far as it goes. */
  method MatchDevice(io: Io, ch0: int, ghost t: seq<byte>, ghost clean: bool)
    returns (ch: int, matched: nat)
    requires Holds(io, ch0, t, clean) && ch0 >= 0
    modifies io
    ensures matched <= |t| && (ch >= 0 || clean ==> matched == Matching(t, DevZero()))
    ensures Holds(io, ch, t[matched..], clean)
  {
    ch, matched := ch0, 0;
    while matched < 9 && ch == DevZero()[matched]
      invariant 0 <= matched <= 9 && matched <= |t|
      invariant Holds(io, ch, t[matched..], clean)
      invariant t[..matched] == DevZero()[..matched]
      decreases 9 - matched
    {
      assert t[matched..][0] == t[matched];
      assert t[..matched + 1] == t[..matched] + [t[matched]];
      assert t[matched + 1..] == t[matched..][1..];
      matched := matched + 1;
      ch := io.GetChar();
    }
    if ch >= 0 || clean {
      assert matched < |t| && ch >= 0 ==> t[matched] == ch;
      MatchingIs(t, DevZero(), matched);
    }
  }

  method ReadFlags(io: Io) returns (ok: bool, flags: nat)
    requires io.Valid()
    modifies io
    ensures io.Valid() && (Clean(old(io.answers)) ==> Clean(io.answers))
    ensures ok ==> ScanFlags(old(io.Pending())) == Scanned(flags, io.Pending())
    ensures !ok && Clean(old(io.answers)) ==> ScanFlags(old(io.Pending())).Malformed?
  {
    ghost var s, n := io.Pending(), 0;
    flags := 0;
    var ch := io.GetChar();
    while ch != SPACE
      invariant io.Valid() && (Clean(old(io.answers)) ==> Clean(io.answers))
      invariant -1 <= ch < 256 && n <= |s|
      invariant forall i :: 0 <= i < n ==> s[i] != SPACE
      invariant flags == FlagBits(s[..n])
      invariant ch >= 0 ==> n < |s| && s[n] == ch && io.Pending() == s[n + 1..]
      invariant ch < 0 && Clean(old(io.answers)) ==> n == |s|
      decreases |s| - n, ch
    {
      if ch < 0 {
        if Clean(old(io.answers)) {
          UntilSpaceIs(s, n);
        }
        return false, 0;
      }
      flags := flags * 2 + (if ch != DASH then 1 else 0);
      assert s[..n + 1][..n] == s[..n];
      n := n + 1;
      ch := io.GetChar();
    }
    UntilSpaceIs(s, n);
    return true, flags;
  }

  /** `SkipNumber` in the program's own steps. */
  method SkipOneNumber(io: Io, ch0: int, ghost t: seq<byte>, ghost clean: bool) returns (ch: int)
    requires Holds(io, ch0, t, clean)
    modifies io
    ensures Holds(io, ch, SkipNumber(t), clean)
  {
    ch := SkipSpaces(io, ch0, t, clean);
    ch := SkipField(io, ch, DropSpaces(t), clean);
    if ch < 0 {
      return;
    }
    ch := SkipSpaces(io, ch, DropField(DropSpaces(t)), clean);
  }

  method ReadPath(io: Io, ch0: int, ghost t: seq<byte>, ghost clean: bool)
    returns (ok: bool, anonymous: bool, device: bool)
    requires Holds(io, ch0, t, clean) && ch0 >= 0
    modifies io
    ensures io.Valid() && (clean ==> Clean(io.answers))
    ensures ok ==> ScanPath(t) == Scanned((anonymous, device), io.Pending())
    ensures !ok && clean ==> ScanPath(t).Malformed?
  {
    anonymous := ch0 == NEWLINE || ch0 == BRACKET;
    var ch, matched := MatchDevice(io, ch0, t, clean);
    device := matched >= 5 && ((ch != NEWLINE && ch != SPACE) || matched < 9);
    ghost var after := t[matched..];
    ch := SkipToNewline(io, ch, after, clean);
    ok := ch >= 0;
  }

  /** Reads one line of the map. Whatever the kernel's chunking, an accepted line is
      what `ScanLine` makes of the characters, and without read errors exactly the
      well-formed lines are accepted. */
  method ReadLine(io: Io) returns (ok: bool, line: Line)
    requires io.Valid()
    modifies io
    ensures io.Valid() && (Clean(old(io.answers)) ==> Clean(io.answers))
    ensures ok ==> ScanLine(old(io.Pending())) == Scanned(line, io.Pending())
    ensures !ok && Clean(old(io.answers)) ==> ScanLine(old(io.Pending())).Malformed?
  {
    hide ScanFlags, ScanPath, SkipNumber, LeadingHex, HexValue, Clean;
    ghost var clean, s := Clean(io.answers), io.Pending();
    line := Line(0, 0, 0, 0, false, false);
    var start, ch := GetHex(io);
    if ch != DASH {
      return false, line;
    }
    var end: nat;
    end, ch := GetHex(io);
    if ch != SPACE {
      return false, line;
    }
    var flags: nat;
    ok, flags := ReadFlags(io);
    if !ok {
      return;
    }
    var offset: nat;
    offset, ch := GetHex(io);
    if ch != SPACE {
      return false, line;
    }
    ghost var t := [ch] + io.Pending();
    ch := SkipOneNumber(io, ch, t, clean);
    NothingToSkip();
    if ch < 0 {
      return false, line;
    }
    ch := SkipOneNumber(io, ch, SkipNumber(t), clean);
    if ch < 0 {
      return false, line;
    }
    var anonymous, device;
    ok, anonymous, device := ReadPath(io, ch, SkipNumber(SkipNumber(t)), clean);
    line := Line(start, end, offset, flags / 2 % 8, anonymous, device);
  }
}
