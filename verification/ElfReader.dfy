/** A small reader of ELF core files. It knows nothing about how a core file was
    laid out: it follows e_phoff, e_phnum and e_phentsize to the program headers,
    p_offset and p_filesz to the segments, and the sizes in each note header to the
    next note. */
module ElfReader {
  import opened Bytes

  function Field(s: seq<byte>, at: nat, width: nat): nat
    requires at + width <= |s|
  {
    FromLittleEndian(s[at..at + width])
  }

  datatype Header = Header(ptype: nat, flags: nat, offset: nat, vaddr: nat, paddr: nat, filesz: nat, memsz: nat,
                           align: nat)

  function ReadHeader(s: seq<byte>): Header
    requires |s| == 56
  {
    Header(Field(s, 0, 4), Field(s, 4, 4), Field(s, 8, 8), Field(s, 16, 8), Field(s, 24, 8),
           Field(s, 32, 8), Field(s, 40, 8), Field(s, 48, 8))
  }

  /** The `count` program headers of `size` bytes each that start at offset `at`. */
  function ReadHeaders(file: seq<byte>, at: nat, size: nat, count: nat): (hs: Option<seq<Header>>)
    ensures hs.Some? ==> |hs.value| == count
    decreases count
  {
    if count == 0 then Some([])
    else if size != 56 || at + size > |file| then None
    else
      var rest := ReadHeaders(file, at + size, size, count - 1);
      if rest.None? then None else Some([ReadHeader(file[at..at + 56])] + rest.value)
  }

  datatype ReadNote = ReadNote(name: seq<byte>, ntype: nat, desc: seq<byte>)

  function RoundUp4(n: nat): nat {
    (n + 3) / 4 * 4
  }

  /** The notes of a note segment; the terminator is dropped from each name. */
  function ReadNotes(s: seq<byte>): Option<seq<ReadNote>>
    decreases |s|
  {
    if s == [] then Some([])
    else if |s| < 12 then None
    else
      var namesz, descsz, ntype := Field(s, 0, 4), Field(s, 4, 4), Field(s, 8, 4);
      var descAt := 12 + RoundUp4(namesz);
      var end := descAt + RoundUp4(descsz);
      if namesz == 0 || end > |s| then None
      else
        var rest := ReadNotes(s[end..]);
        if rest.None? then None
        else Some([ReadNote(s[12..12 + namesz - 1], ntype, s[descAt..descAt + descsz])] + rest.value)
  }

  /** A segment as found in the file: where it lies and the bytes stored for it. */
  datatype ReadSegment = ReadSegment(header: Header, data: seq<byte>)

  function ReadSegments(file: seq<byte>, hs: seq<Header>): (r: Option<seq<ReadSegment>>)
    ensures r.Some? ==> |r.value| == |hs|
  {
    if hs == [] then Some([])
    else
      var h := hs[0];
      if h.offset + h.filesz > |file| then None
      else
        var rest := ReadSegments(file, hs[1..]);
        if rest.None? then None
        else Some([ReadSegment(h, file[h.offset..h.offset + h.filesz])] + rest.value)
  }

  /** The file says that it is a core file (type 4) of a 64-bit little-endian machine
      (class 2, data 1), an x86-64 (machine 62), in version 1 of the format, without an
      entry point, flags, sections or an operating system's extensions. */
  predicate IsCoreFile(file: seq<byte>) {
    && |file| >= 64 && file[..4] == [0x7F, 0x45, 0x4C, 0x46] && file[4..7] == [2, 1, 1]
    && (forall i :: 7 <= i < 16 ==> file[i] == 0)
    && Field(file, 16, 2) == 4 && Field(file, 18, 2) == 62 && Field(file, 20, 4) == 1
    && Field(file, 24, 8) == 0 && Field(file, 40, 8) == 0 && Field(file, 48, 4) == 0
    && Field(file, 52, 2) == 64 && Field(file, 58, 2) == 64 && Field(file, 60, 2) == 0 && Field(file, 62, 2) == 0
  }

  datatype CoreImage = CoreImage(notes: seq<ReadNote>, segments: seq<ReadSegment>)

  /** Reads a core file whose first program header describes its notes. */
  function ReadCore(file: seq<byte>): Option<CoreImage> {
    if |file| < 64 || file[..4] != [0x7F, 0x45, 0x4C, 0x46] then None
    else
      var phoff, phentsize, phnum := Field(file, 32, 8), Field(file, 54, 2), Field(file, 56, 2);
      var hs := ReadHeaders(file, phoff, phentsize, phnum);
      if hs.None? || hs.value == [] || hs.value[0].ptype != 4 then None
      else
        var segments := ReadSegments(file, hs.value);
        if segments.None? then None
        else
          var notes := ReadNotes(segments.value[0].data);
          if notes.None? then None else Some(CoreImage(notes.value, segments.value[1..]))
  }
}
