/** The byte images of the ELF structures an x86-64 core file is made of (System V
    ABI, chapters 4 and 5), and the layout of a core file as a function of the
    process it describes. */
module ElfFormat {
  import opened Bytes

  const EHDR_SIZE: nat := 64
  const PHDR_SIZE: nat := 56
  const NHDR_SIZE: nat := 12
  const AUXV_SIZE: nat := 16
  const PRPSINFO_SIZE: nat := 136
  const PRSTATUS_SIZE: nat := 336
  const FPREGS_SIZE: nat := 512
  const REGS_SIZE: nat := 216
  const CORE_USER_SIZE: nat := 928

  const PT_LOAD: nat := 1
  const PT_NOTE: nat := 4

  const NT_PRSTATUS: nat := 1
  const NT_FPREGSET: nat := 2
  const NT_PRPSINFO: nat := 3
  const NT_PRXREG: nat := 4
  const NT_AUXV: nat := 6

  const PF_X: nat := 1
  const PF_W: nat := 2
  const PF_R: nat := 4

  datatype Phdr = Phdr(ptype: nat, flags: nat, offset: nat, vaddr: nat, paddr: nat,
                       filesz: nat, memsz: nat, align: nat)

  /** A note as a reader of the file is meant to see it. */
  datatype Note = Note(name: seq<byte>, ntype: nat, desc: seq<byte>)

  /** One memory mapping to be dumped; `writeSize` bytes of it go to the file. */
  datatype Mapping = Mapping(start: nat, end: nat, offset: nat, writeSize: nat,
                             flags: nat, anonymous: bool)

  /** One suspended thread: its id and the registers read from it. */
  datatype Thread = Thread(pid: nat, regs: seq<byte>, fpregs: seq<byte>)

  /** A note handed in by the user; the name is a C string without its terminator. */
  datatype UserNote = UserNote(name: seq<byte>, ntype: nat, desc: seq<byte>)

  /** Everything `CreateElfCore` is told about the process, apart from its memory
      map and its vdso. */
  datatype Process = Process(prpsinfo: seq<byte>, user: Option<seq<byte>>,
                             prstatus: seq<byte>, threads: seq<Thread>, mainPid: nat,
                             auxv: seq<seq<byte>>, notes: seq<UserNote>, pagesize: nat)
  {
    /** The sizes are those of the C structures. */
    ghost predicate Valid() {
      && |prpsinfo| == PRPSINFO_SIZE
      && (user.Some? ==> |user.value| == CORE_USER_SIZE)
      && |prstatus| == PRSTATUS_SIZE
      && (forall t :: t in threads ==> |t.regs| == REGS_SIZE && |t.fpregs| == FPREGS_SIZE)
      && (forall a :: a in auxv ==> |a| == AUXV_SIZE)
      && 0 < pagesize < SIZE_LIMIT
    }
  }

  // ---------- Program headers ----------

  function Ident(): (s: seq<byte>)
    ensures |s| == 16
  {
    [0x7F, 0x45, 0x4C, 0x46, 2, 1, 1] + Zeros(9)
  }

  /** The ELF header: 64-bit, little-endian, ET_CORE, EM_X86_64, `phnum` program
      headers right behind it. The count is stored in 16 bits. */
  function EncodeEhdr(phnum: nat): (s: seq<byte>)
    ensures |s| == EHDR_SIZE
  {
    Ident() +
    LittleEndian(2, 4) + LittleEndian(2, 62) + LittleEndian(4, 1) +
    LittleEndian(8, 0) + LittleEndian(8, EHDR_SIZE) + LittleEndian(8, 0) + LittleEndian(4, 0) +
    LittleEndian(2, EHDR_SIZE) + LittleEndian(2, PHDR_SIZE) + LittleEndian(2, phnum) +
    LittleEndian(2, 64) + LittleEndian(2, 0) + LittleEndian(2, 0)
  }

  function EncodePhdr(p: Phdr): (s: seq<byte>)
    ensures |s| == PHDR_SIZE
  {
    LittleEndian(4, p.ptype) + LittleEndian(4, p.flags) + LittleEndian(8, p.offset) +
    LittleEndian(8, p.vaddr) + LittleEndian(8, p.paddr) + LittleEndian(8, p.filesz) +
    LittleEndian(8, p.memsz) + LittleEndian(8, p.align)
  }

  function EncodePhdrs(ps: seq<Phdr>): (s: seq<seq<byte>>)
    ensures |s| == |ps|
    ensures forall i :: 0 <= i < |s| ==> s[i] == EncodePhdr(ps[i])
  {
    seq(|ps|, i requires 0 <= i < |ps| => EncodePhdr(ps[i]))
  }

  /** A segment of the core file: the fields of its program header that do not
      depend on its place in the file, and its bytes. */
  datatype Segment = Segment(ptype: nat, flags: nat, vaddr: nat, memsz: nat, align: nat,
                             data: seq<byte>)

  function SegmentPhdr(s: Segment, offset: nat): Phdr {
    Phdr(s.ptype, s.flags, offset, s.vaddr, 0, |s.data|, s.memsz, s.align)
  }

  /** Program headers of segments stored back to back from `offset` on. */
  function SegmentPhdrs(segments: seq<Segment>, offset: nat): (ps: seq<Phdr>)
    ensures |ps| == |segments|
  {
    if segments == [] then []
    else [SegmentPhdr(segments[0], offset)]
         + SegmentPhdrs(segments[1..], offset + |segments[0].data|)
  }

  function Contents(segments: seq<Segment>): (s: seq<seq<byte>>)
    ensures |s| == |segments|
    ensures forall i :: 0 <= i < |s| ==> s[i] == segments[i].data
  {
    seq(|segments|, i requires 0 <= i < |segments| => segments[i].data)
  }

  function MappingSegment(m: Mapping, mem: Memory, pagesize: nat): Segment {
    Segment(PT_LOAD, m.flags, m.start, (m.end - m.start) % SIZE_LIMIT, pagesize,
            MemoryRange(mem, m.start, m.writeSize))
  }

  function MappingSegments(ms: seq<Mapping>, mem: Memory, pagesize: nat): (s: seq<Segment>)
    ensures |s| == |ms|
    ensures forall i :: 0 <= i < |s| ==> s[i] == MappingSegment(ms[i], mem, pagesize)
  {
    seq(|ms|, i requires 0 <= i < |ms| => MappingSegment(ms[i], mem, pagesize))
  }

  /** The vdso's own program headers are copied, except its loadable segment, which
      is one of the ordinary mappings. */
  function VdsoSegments(vdso: seq<Phdr>, mem: Memory): seq<Segment> {
    if vdso == [] then []
    else
      var p := vdso[0];
      (if p.ptype == PT_LOAD then []
       else [Segment(p.ptype, p.flags, p.vaddr, p.memsz, p.align, MemoryRange(mem, p.vaddr, p.filesz))])
      + VdsoSegments(vdso[1..], mem)
  }

  // ---------- Notes ----------

  function CoreName(): seq<byte> {
    [0x43, 0x4F, 0x52, 0x45]  // "CORE"
  }

  function EncodeNhdr(namesz: nat, descsz: nat, ntype: nat): (s: seq<byte>)
    ensures |s| == NHDR_SIZE
  {
    LittleEndian(4, namesz) + LittleEndian(4, descsz) + LittleEndian(4, ntype)
  }

  /** A note with its terminated name and its description each padded to four. */
  function EncodeNote(n: Note): seq<byte> {
    EncodeNhdr(|n.name| + 1, |n.desc|, n.ntype) +
    (n.name + [0]) + Zeros(Pad4(|n.name| + 1)) +
    n.desc + Zeros(Pad4(|n.desc|))
  }

  function EncodeNotes(ns: seq<Note>): seq<byte> {
    if ns == [] then [] else EncodeNote(ns[0]) + EncodeNotes(ns[1..])
  }

  /** The process status block of one thread: the shared block with this thread's
      id (bytes 32 to 35) and general registers (bytes 112 to 327) filled in. */
  function ThreadStatus(prstatus: seq<byte>, t: Thread): (s: seq<byte>)
    requires |prstatus| == PRSTATUS_SIZE && |t.regs| == REGS_SIZE
    ensures |s| == PRSTATUS_SIZE
  {
    prstatus[..32] + LittleEndian(4, t.pid) + prstatus[36..112] + t.regs + prstatus[328..]
  }

  function ThreadNotes(prstatus: seq<byte>, t: Thread): seq<Note>
    requires |prstatus| == PRSTATUS_SIZE && |t.regs| == REGS_SIZE
  {
    [Note(CoreName(), NT_PRSTATUS, ThreadStatus(prstatus, t)), Note(CoreName(), NT_FPREGSET, t.fpregs)]
  }

  function ThreadsNotes(prstatus: seq<byte>, ts: seq<Thread>): seq<Note>
    requires |prstatus| == PRSTATUS_SIZE && forall t :: t in ts ==> |t.regs| == REGS_SIZE
  {
    if ts == [] then [] else ThreadNotes(prstatus, ts[0]) + ThreadsNotes(prstatus, ts[1..])
  }

  /** The threads with id `pid`, last one first. */
  function LastWith(ts: seq<Thread>, pid: nat): (r: seq<Thread>)
    ensures forall t :: t in r ==> t in ts && t.pid == pid
    ensures |r| <= 1
    ensures r == [] <==> forall t :: t in ts ==> t.pid != pid
  {
    if ts == [] then []
    else if ts[|ts| - 1].pid == pid then [ts[|ts| - 1]]
    else LastWith(ts[..|ts| - 1], pid)
  }

  /** All threads but those with id `pid`, in reverse. */
  function ReversedWithout(ts: seq<Thread>, pid: nat): (r: seq<Thread>)
    ensures forall t :: t in r ==> t in ts && t.pid != pid
  {
    if ts == [] then []
    else (if ts[|ts| - 1].pid != pid then [ts[|ts| - 1]] else [])
         + ReversedWithout(ts[..|ts| - 1], pid)
  }

  /** The order in which register blocks are written: the crashing thread first. */
  function DumpOrder(ts: seq<Thread>, mainPid: nat): (r: seq<Thread>)
    ensures forall t :: t in r ==> t in ts
  {
    LastWith(ts, mainPid) + ReversedWithout(ts, mainPid)
  }

  function UserNotes(ns: seq<UserNote>): (r: seq<Note>)
    ensures |r| == |ns|
    ensures forall i :: 0 <= i < |r| ==> r[i] == Note(ns[i].name, ns[i].ntype, ns[i].desc)
  {
    seq(|ns|, i requires 0 <= i < |ns| => Note(ns[i].name, ns[i].ntype, ns[i].desc))
  }

  /** The notes of a core file, in the order the file has them. */
  function CoreNotes(p: Process): seq<Note>
    requires p.Valid()
  {
    [Note(CoreName(), NT_PRPSINFO, p.prpsinfo)]
    + (if p.user.Some? then [Note(CoreName(), NT_PRXREG, p.user.value)] else [])
    + (if p.auxv != [] then [Note(CoreName(), NT_AUXV, Flatten(p.auxv))] else [])
    + ThreadsNotes(p.prstatus, DumpOrder(p.threads, p.mainPid))
    + UserNotes(p.notes)
  }

  // ---------- The whole file ----------

  /** The size announced for the note segment, computed from counts and lengths
      before any note is written. */
  function AnnouncedNoteSize(p: Process): nat {
    NHDR_SIZE + 8 + PRPSINFO_SIZE
    + (if p.user.Some? then NHDR_SIZE + 8 + CORE_USER_SIZE else 0)
    + |p.threads| * (NHDR_SIZE + 8 + PRSTATUS_SIZE + NHDR_SIZE + 8 + FPREGS_SIZE)
    + UserNotesSize(p.notes)
    + (if p.auxv != [] then 8 + NHDR_SIZE + |p.auxv| * AUXV_SIZE else 0)
  }

  function UserNotesSize(ns: seq<UserNote>): nat {
    if ns == [] then 0
    else
      var n := ns[|ns| - 1];
      UserNotesSize(ns[..|ns| - 1])
      + NHDR_SIZE + (|n.name| + 1) + |n.desc| + Pad4(|n.name| + 1) + Pad4(|n.desc|)
  }

  /** Padding behind the notes that brings the first memory segment to a page. */
  function PagePadding(end: nat, pagesize: nat): (p: nat)
    requires pagesize > 0
    ensures p < pagesize && (end + p) % pagesize == 0
  {
    PaddingReachesPage(end, pagesize);
    if end % pagesize == 0 then 0 else pagesize - end % pagesize
  }

  lemma PaddingReachesPage(end: nat, pagesize: nat)
    requires pagesize > 0
    ensures end % pagesize == 0 || (end + (pagesize - end % pagesize)) % pagesize == 0
  {
    var q, r := end / pagesize, end % pagesize;
    if r != 0 {
      assert end + (pagesize - r) == pagesize * (q + 1) + 0 by {
        assert end == pagesize * q + r;
        assert pagesize * (q + 1) == pagesize * q + pagesize;
      }
      DivModUnique(end + (pagesize - r), pagesize, q + 1, 0);
    }
  }

  /** File offset of the note segment: behind the `n` program headers. */
  function NoteOffset(n: nat): nat {
    64 + 56 * n
  }

  function NotePhdr(offset: nat, size: nat): Phdr {
    Phdr(PT_NOTE, 0, offset, 0, 0, size, 0, 0)
  }

  /** File offset of the first memory segment. */
  function DataOffset(n: nat, noteSize: nat, pagesize: nat): nat
    requires pagesize > 0
  {
    var end := NoteOffset(n) + noteSize;
    end + PagePadding(end, pagesize)
  }

  function CoreSegments(p: Process, ms: seq<Mapping>, vdso: seq<Phdr>, mem: Memory): seq<Segment> {
    MappingSegments(ms, mem, p.pagesize) + VdsoSegments(vdso, mem)
  }

  /** The program headers, announced before anything they describe is written. */
  function CorePhdrs(p: Process, segments: seq<Segment>): (ps: seq<Phdr>)
    requires p.Valid()
    ensures |ps| == |segments| + 1
  {
    var n := |segments| + 1;
    var size := AnnouncedNoteSize(p);
    [NotePhdr(NoteOffset(n), size)] + SegmentPhdrs(segments, DataOffset(n, size, p.pagesize))
  }

  function CoreHeader(p: Process, segments: seq<Segment>): seq<byte>
    requires p.Valid()
  {
    EncodeEhdr(|segments| + 1) + Flatten(EncodePhdrs(CorePhdrs(p, segments)))
  }

  function CorePadding(p: Process, segments: seq<Segment>): seq<byte>
    requires p.Valid()
  {
    Zeros(PagePadding(NoteOffset(|segments| + 1) + AnnouncedNoteSize(p), p.pagesize))
  }

  /** The file that is written when nothing limits it. */
  function CoreFile(p: Process, segments: seq<Segment>): seq<byte>
    requires p.Valid()
  {
    CoreHeader(p, segments) + EncodeNotes(CoreNotes(p)) + CorePadding(p, segments)
    + Flatten(Contents(segments))
  }
}
