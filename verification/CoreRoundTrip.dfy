/** What a reader finds in a complete core file is what the writer was given. */
module CoreRoundTrip {
  import opened Bytes
  import opened ElfFormat
  import opened ElfReader

  // ---------- Note accounting ----------

  lemma {:induction false} EncodeNotesAppend(a: seq<Note>, b: seq<Note>)
    ensures EncodeNotes(a + b) == EncodeNotes(a) + EncodeNotes(b)
  {
    if a == [] {
      assert a + b == b;
    } else {
      assert (a + b)[1..] == a[1..] + b;
      EncodeNotesAppend(a[1..], b);
      Assoc(EncodeNote(a[0]), EncodeNotes(a[1..]), EncodeNotes(b));
    }
  }

  lemma EncodeNotesOne(n: Note)
    ensures EncodeNotes([n]) == EncodeNote(n)
  {
    assert EncodeNotes([n]) == EncodeNote(n) + EncodeNotes([]);
  }

  /** A note named CORE whose description is a multiple of four long. */
  lemma CoreNoteSize(ntype: nat, desc: seq<byte>)
    requires |desc| % 4 == 0
    ensures EncodeNotes([Note(CoreName(), ntype, desc)])
         == EncodeNhdr(5, |desc|, ntype) + (CoreName() + [0, 0, 0, 0]) + desc
    ensures |EncodeNotes([Note(CoreName(), ntype, desc)])| == NHDR_SIZE + 8 + |desc|
  {
    EncodeNotesOne(Note(CoreName(), ntype, desc));
    assert Zeros(0) == [] && Zeros(3) == [0, 0, 0];
    assert (CoreName() + [0]) + Zeros(3) == CoreName() + [0, 0, 0, 0];
  }

  const THREAD_NOTES_SIZE: nat := 888

  lemma ThreadNotesSize(prstatus: seq<byte>, t: Thread)
    requires |prstatus| == PRSTATUS_SIZE && |t.regs| == REGS_SIZE && |t.fpregs| == FPREGS_SIZE
    ensures |EncodeNotes(ThreadNotes(prstatus, t))| == THREAD_NOTES_SIZE
  {
    var status := ThreadStatus(prstatus, t);
    CoreNoteSize(NT_PRSTATUS, status);
    CoreNoteSize(NT_FPREGSET, t.fpregs);
    EncodeNotesAppend([Note(CoreName(), NT_PRSTATUS, status)], [Note(CoreName(), NT_FPREGSET, t.fpregs)]);
  }

  lemma {:induction false} ThreadsNotesSize(prstatus: seq<byte>, ts: seq<Thread>)
    requires |prstatus| == PRSTATUS_SIZE
    requires forall t :: t in ts ==> |t.regs| == REGS_SIZE && |t.fpregs| == FPREGS_SIZE
    ensures |EncodeNotes(ThreadsNotes(prstatus, ts))| == |ts| * THREAD_NOTES_SIZE
  {
    if ts != [] {
      ThreadNotesSize(prstatus, ts[0]);
      ThreadsNotesSize(prstatus, ts[1..]);
      EncodeNotesAppend(ThreadNotes(prstatus, ts[0]), ThreadsNotes(prstatus, ts[1..]));
    }
  }

  lemma {:induction false} UserNotesAnnounced(ns: seq<UserNote>)
    ensures |EncodeNotes(UserNotes(ns))| == UserNotesSize(ns)
  {
    if ns != [] {
      var k := |ns| - 1;
      var last := Note(ns[k].name, ns[k].ntype, ns[k].desc);
      UserNotesAnnounced(ns[..k]);
      assert UserNotes(ns) == UserNotes(ns[..k]) + [last];
      EncodeNotesAppend(UserNotes(ns[..k]), [last]);
      EncodeNotesOne(last);
    }
  }

  lemma MulStep(n: nat, m: nat)
    ensures (n + 1) * m == n * m + m
  {
  }

  lemma {:induction false} FlattenUniform(parts: seq<seq<byte>>, size: nat)
    requires forall s :: s in parts ==> |s| == size
    ensures |Flatten(parts)| == |parts| * size
  {
    if parts != [] {
      FlattenUniform(parts[1..], size);
      assert |Flatten(parts)| == size + |Flatten(parts[1..])|;
      MulStep(|parts| - 1, size);
    }
  }

  /** How many threads carry the id `pid`. */
  function CountOf(ts: seq<Thread>, pid: nat): nat {
    if ts == [] then 0
    else CountOf(ts[..|ts| - 1], pid) + (if ts[|ts| - 1].pid == pid then 1 else 0)
  }

  lemma {:induction false} CountPositive(ts: seq<Thread>, pid: nat)
    ensures CountOf(ts, pid) == 0 <==> LastWith(ts, pid) == []
  {
    if ts != [] {
      CountPositive(ts[..|ts| - 1], pid);
    }
  }

  lemma {:induction false} CountRest(ts: seq<Thread>, pid: nat)
    ensures |ReversedWithout(ts, pid)| + CountOf(ts, pid) == |ts|
  {
    if ts != [] {
      CountRest(ts[..|ts| - 1], pid);
    }
  }

  lemma BlocksWritten(ts: seq<Thread>, mainPid: nat)
    ensures |DumpOrder(ts, mainPid)| == |ts| <==> CountOf(ts, mainPid) <= 1
    ensures |DumpOrder(ts, mainPid)| <= |ts|
  {
    CountPositive(ts, mainPid);
    CountRest(ts, mainPid);
  }

  lemma {:induction false} CountDistinct(ts: seq<Thread>, pid: nat)
    requires forall i, j :: 0 <= i < j < |ts| ==> ts[i].pid != ts[j].pid
    ensures CountOf(ts, pid) <= 1
  {
    if ts != [] && ts[|ts| - 1].pid == pid {
      assert forall t :: t in ts[..|ts| - 1] ==> t.pid != pid;
      CountPositive(ts[..|ts| - 1], pid);
    } else if ts != [] {
      CountDistinct(ts[..|ts| - 1], pid);
    }
  }

  lemma {:induction false} FiveNotesSize(a: seq<Note>, b: seq<Note>, c: seq<Note>, d: seq<Note>, e: seq<Note>)
    ensures |EncodeNotes(a + b + c + d + e)|
         == |EncodeNotes(a)| + |EncodeNotes(b)| + |EncodeNotes(c)| + |EncodeNotes(d)| + |EncodeNotes(e)|
  {
    EncodeNotesAppend(a, b);
    EncodeNotesAppend(a + b, c);
    EncodeNotesAppend(a + b + c, d);
    EncodeNotesAppend(a + b + c + d, e);
  }

  function UserPart(p: Process): seq<Note> {
    if p.user.Some? then [Note(CoreName(), NT_PRXREG, p.user.value)] else []
  }

  function AuxvPart(p: Process): seq<Note> {
    if p.auxv != [] then [Note(CoreName(), NT_AUXV, Flatten(p.auxv))] else []
  }

  lemma FixedPartsSize(p: Process)
    requires p.Valid()
    ensures |EncodeNotes([Note(CoreName(), NT_PRPSINFO, p.prpsinfo)])| == 156
    ensures |EncodeNotes(UserPart(p))| == if p.user.Some? then 948 else 0
    ensures |EncodeNotes(AuxvPart(p))| == if p.auxv != [] then 20 + |p.auxv| * AUXV_SIZE else 0
  {
    CoreNoteSize(NT_PRPSINFO, p.prpsinfo);
    if p.user.Some? {
      CoreNoteSize(NT_PRXREG, p.user.value);
    }
    if p.auxv != [] {
      FlattenUniform(p.auxv, AUXV_SIZE);
      CoreNoteSize(NT_AUXV, Flatten(p.auxv));
    }
  }

  lemma NotesSize(p: Process)
    requires p.Valid()
    ensures |EncodeNotes(CoreNotes(p))| + |p.threads| * THREAD_NOTES_SIZE
         == AnnouncedNoteSize(p) + |DumpOrder(p.threads, p.mainPid)| * THREAD_NOTES_SIZE
  {
    var order := DumpOrder(p.threads, p.mainPid);
    FixedPartsSize(p);
    ThreadsNotesSize(p.prstatus, order);
    UserNotesAnnounced(p.notes);
    FiveNotesSize([Note(CoreName(), NT_PRPSINFO, p.prpsinfo)], UserPart(p), AuxvPart(p),
                  ThreadsNotes(p.prstatus, order), UserNotes(p.notes));
  }

  /** The note size announced in the program header is the number of bytes the note
      loops write, exactly when at most one thread carries the main thread's id. */
  lemma NoteAccounting(p: Process)
    requires p.Valid()
    ensures |EncodeNotes(CoreNotes(p))| == AnnouncedNoteSize(p) <==> CountOf(p.threads, p.mainPid) <= 1
  {
    NotesSize(p);
    BlocksWritten(p.threads, p.mainPid);
  }

  /** With two threads that both have the main thread's id the announced size is wrong. */
  lemma NotesMiscounted(t: Thread)
    requires |t.regs| == REGS_SIZE && |t.fpregs| == FPREGS_SIZE && t.pid == 1
    ensures |EncodeNotes(CoreNotes(BareProcess([t, t])))| != AnnouncedNoteSize(BareProcess([t, t]))
  {
    hide EncodeNotes, CoreNotes, AnnouncedNoteSize;
    NoteAccounting(BareProcess([t, t]));
    assert [t, t][1..] == [t] && CountOf([t], 1) == 1;
  }

  lemma {:induction false} ReversedMembers(ts: seq<Thread>, pid: nat)
    ensures multiset(ReversedWithout(ts, pid)) + multiset(LastWith(ts, pid)) <= multiset(ts)
    ensures CountOf(ts, pid) <= 1 ==>
              multiset(ReversedWithout(ts, pid)) + multiset(LastWith(ts, pid)) == multiset(ts)
  {
    if ts != [] {
      var k := |ts| - 1;
      assert ts == ts[..k] + [ts[k]];
      ReversedMembers(ts[..k], pid);
      CountPositive(ts[..k], pid);
    }
  }

  /** With distinct ids every thread has exactly one register block in the file, and
      the crashing thread's block comes first whenever that thread is present. */
  lemma EveryThreadOnceMainFirst(ts: seq<Thread>, mainPid: nat)
    requires forall i, j :: 0 <= i < j < |ts| ==> ts[i].pid != ts[j].pid
    ensures multiset(DumpOrder(ts, mainPid)) == multiset(ts)
    ensures (exists t :: t in ts && t.pid == mainPid) ==> DumpOrder(ts, mainPid)[0].pid == mainPid
  {
    CountDistinct(ts, mainPid);
    ReversedMembers(ts, mainPid);
  }

  // ---------- Reading notes back ----------

  ghost predicate NoteFits(n: Note) {
    FitsField(4, |n.name| + 1) && FitsField(4, |n.desc|) && FitsField(4, n.ntype)
  }

  function NoteView(n: Note): ReadNote {
    ReadNote(n.name, n.ntype, n.desc)
  }

  function NoteViews(ns: seq<Note>): seq<ReadNote> {
    seq(|ns|, i requires 0 <= i < |ns| => NoteView(ns[i]))
  }

  lemma FieldOf(s: seq<byte>, at: nat, width: nat, n: nat)
    requires at + width <= |s| && s[at..at + width] == LittleEndian(width, n)
    requires FitsField(width, n)
    ensures Field(s, at, width) == n
  {
    FieldExact(width, n);
  }

  lemma PaddedIsRounded(n: nat)
    ensures n + Pad4(n) == RoundUp4(n)
  {
  }

  lemma NhdrFields(namesz: nat, descsz: nat, ntype: nat, rest: seq<byte>)
    requires FitsField(4, namesz) && FitsField(4, descsz) && FitsField(4, ntype)
    ensures var s := EncodeNhdr(namesz, descsz, ntype) + rest;
            Field(s, 0, 4) == namesz && Field(s, 4, 4) == descsz && Field(s, 8, 4) == ntype
  {
    var s := EncodeNhdr(namesz, descsz, ntype) + rest;
    assert s[0..4] == LittleEndian(4, namesz);
    assert s[4..8] == LittleEndian(4, descsz);
    assert s[8..12] == LittleEndian(4, ntype);
    FieldOf(s, 0, 4, namesz);
    FieldOf(s, 4, 4, descsz);
    FieldOf(s, 8, 4, ntype);
  }

  lemma FourParts(h: seq<byte>, name: seq<byte>, pad: seq<byte>, desc: seq<byte>, pad2: seq<byte>,
                  rest: seq<byte>)
    ensures var s := h + (name + [0]) + pad + desc + pad2 + rest;
            var descAt := |h| + |name| + 1 + |pad|;
            && s == h + ((name + [0]) + pad + desc + pad2 + rest)
            && s[|h|..|h| + |name|] == name
            && s[descAt..descAt + |desc|] == desc
            && s[descAt + |desc| + |pad2|..] == rest
  {
  }

  /** `s` starts with the image of note `n`, as a reader takes it apart. */
  ghost predicate NoteAt(s: seq<byte>, n: Note, rest: seq<byte>) {
    var descAt := 12 + RoundUp4(|n.name| + 1);
    var end := descAt + RoundUp4(|n.desc|);
    && end <= |s|
    && Field(s, 0, 4) == |n.name| + 1 && Field(s, 4, 4) == |n.desc| && Field(s, 8, 4) == n.ntype
    && s[12..12 + |n.name|] == n.name
    && s[descAt..descAt + |n.desc|] == n.desc
    && s[end..] == rest
  }

  lemma NoteParts(n: Note, rest: seq<byte>)
    requires NoteFits(n)
    ensures NoteAt(EncodeNote(n) + rest, n, rest)
  {
    var h := EncodeNhdr(|n.name| + 1, |n.desc|, n.ntype);
    var pad, pad2 := Zeros(Pad4(|n.name| + 1)), Zeros(Pad4(|n.desc|));
    PaddedIsRounded(|n.name| + 1);
    PaddedIsRounded(|n.desc|);
    FourParts(h, n.name, pad, n.desc, pad2, rest);
    NhdrFields(|n.name| + 1, |n.desc|, n.ntype, (n.name + [0]) + pad + n.desc + pad2 + rest);
  }

  /** Following the sizes in the headers through the note section recovers every
      note, in order. */
  lemma {:induction false} ReadNotesBack(ns: seq<Note>)
    requires forall n :: n in ns ==> NoteFits(n)
    ensures ReadNotes(EncodeNotes(ns)) == Some(NoteViews(ns))
    decreases |ns|
  {
    if ns != [] {
      NoteParts(ns[0], EncodeNotes(ns[1..]));
      ReadNotesBack(ns[1..]);
      ReadOneNote(EncodeNotes(ns), ns[0], EncodeNotes(ns[1..]), NoteViews(ns[1..]));
      assert NoteViews(ns) == [NoteView(ns[0])] + NoteViews(ns[1..]);
    }
  }

  /** The reader's step over one note. */
  lemma ReadOneNote(s: seq<byte>, n: Note, rest: seq<byte>, tail: seq<ReadNote>)
    requires NoteAt(s, n, rest) && ReadNotes(rest) == Some(tail)
    ensures ReadNotes(s) == Some([NoteView(n)] + tail)
  {
    hide Field, RoundUp4;
    assert |s| >= 12 by {
      RoundUpAtLeast(|n.name| + 1);
      RoundUpAtLeast(|n.desc|);
    }
  }

  lemma RoundUpAtLeast(n: nat)
    ensures RoundUp4(n) >= n
  {
  }

  // ---------- Reading program headers back ----------

  function HeaderView(p: Phdr): Header {
    Header(p.ptype, p.flags, p.offset, p.vaddr, p.paddr, p.filesz, p.memsz, p.align)
  }

  function HeaderViews(ps: seq<Phdr>): (hs: seq<Header>)
    ensures |hs| == |ps|
    ensures forall i :: 0 <= i < |hs| ==> hs[i] == HeaderView(ps[i])
  {
    seq(|ps|, i requires 0 <= i < |ps| => HeaderView(ps[i]))
  }

  ghost predicate PhdrFits(p: Phdr) {
    && FitsField(4, p.ptype) && FitsField(4, p.flags)
    && FitsField(8, p.offset) && FitsField(8, p.vaddr)
    && FitsField(8, p.paddr) && FitsField(8, p.filesz) && FitsField(8, p.memsz) && FitsField(8, p.align)
  }

  lemma ReadHeaderBack(p: Phdr)
    requires PhdrFits(p)
    ensures ReadHeader(EncodePhdr(p)) == HeaderView(p)
  {
    var s := EncodePhdr(p);
    assert s[0..4] == LittleEndian(4, p.ptype);
    assert s[4..8] == LittleEndian(4, p.flags);
    assert s[8..16] == LittleEndian(8, p.offset);
    assert s[16..24] == LittleEndian(8, p.vaddr);
    assert s[24..32] == LittleEndian(8, p.paddr);
    assert s[32..40] == LittleEndian(8, p.filesz);
    assert s[40..48] == LittleEndian(8, p.memsz);
    assert s[48..56] == LittleEndian(8, p.align);
    FieldOf(s, 0, 4, p.ptype);
    FieldOf(s, 4, 4, p.flags);
    FieldOf(s, 8, 8, p.offset);
    FieldOf(s, 16, 8, p.vaddr);
    FieldOf(s, 24, 8, p.paddr);
    FieldOf(s, 32, 8, p.filesz);
    FieldOf(s, 40, 8, p.memsz);
    FieldOf(s, 48, 8, p.align);
  }

  lemma {:induction false} ReadHeadersBack(ps: seq<Phdr>, before: seq<byte>, after: seq<byte>)
    requires forall p :: p in ps ==> PhdrFits(p)
    ensures ReadHeaders(before + Flatten(EncodePhdrs(ps)) + after, |before|, 56, |ps|)
         == Some(HeaderViews(ps))
    decreases |ps|
  {
    hide PhdrFits, EncodePhdr, ReadHeader, HeaderView;
    if ps != [] {
      var file := before + Flatten(EncodePhdrs(ps)) + after;
      var h := EncodePhdr(ps[0]);
      assert EncodePhdrs(ps)[1..] == EncodePhdrs(ps[1..]);
      assert file == (before + h) + Flatten(EncodePhdrs(ps[1..])) + after;
      assert file[|before|..|before| + 56] == h;
      ReadHeaderBack(ps[0]);
      ReadHeadersBack(ps[1..], before + h, after);
      assert HeaderViews(ps) == [HeaderView(ps[0])] + HeaderViews(ps[1..]);
    }
  }

  // ---------- Reading segments back ----------

  function SegmentViews(segments: seq<Segment>, offset: nat): (r: seq<ReadSegment>)
    ensures |r| == |segments|
  {
    if segments == [] then []
    else [ReadSegment(HeaderView(SegmentPhdr(segments[0], offset)), segments[0].data)]
         + SegmentViews(segments[1..], offset + |segments[0].data|)
  }

  lemma {:induction false} ReadSegmentsBack(segments: seq<Segment>, before: seq<byte>)
    ensures ReadSegments(before + Flatten(Contents(segments)),
                         HeaderViews(SegmentPhdrs(segments, |before|)))
         == Some(SegmentViews(segments, |before|))
    decreases |segments|
  {
    if segments != [] {
      var file := before + Flatten(Contents(segments));
      var data := segments[0].data;
      var hs := HeaderViews(SegmentPhdrs(segments, |before|));
      assert Contents(segments)[1..] == Contents(segments[1..]);
      assert file == (before + data) + Flatten(Contents(segments[1..]));
      assert file[|before|..|before| + |data|] == data;
      ReadSegmentsBack(segments[1..], before + data);
      assert hs[1..] == HeaderViews(SegmentPhdrs(segments[1..], |before + data|));
    }
  }

  // ---------- The whole file ----------

  ghost predicate SegmentFits(s: Segment) {
    && FitsField(4, s.ptype) && FitsField(4, s.flags) && FitsField(8, s.vaddr) && FitsField(8, s.memsz)
    && FitsField(8, s.align)
  }

  /** The sizes that the fields of the file format can hold. `segments` may come
      from any memory map and any vdso. */
  ghost predicate Fits(p: Process, segments: seq<Segment>)
    requires p.Valid()
  {
    && FitsField(2, |segments| + 1)
    && FitsField(8, |CoreFile(p, segments)|)
    && (forall n :: n in CoreNotes(p) ==> NoteFits(n))
    && (forall s :: s in segments ==> SegmentFits(s))
  }

  /** A process with these threads, its other data blank. */
  function BareProcess(threads: seq<Thread>): Process {
    Process(Zeros(PRPSINFO_SIZE), None, Zeros(PRSTATUS_SIZE), threads, 1, [], [], 4096)
  }

  /** There are such dumps: here, of a process without threads and mappings. */
  lemma SomeDumpFits() returns (p: Process)
    ensures p.Valid() && CountOf(p.threads, p.mainPid) <= 1 && Fits(p, [])
  {
    hide CoreFile, CoreNotes, NoteFits, CountOf;
    p := BareProcess([]);
    OneNote(p);
    NoThreads(p);
    SmallestFile(p);
  }

  lemma OneNote(p: Process)
    requires p.Valid() && p.threads == [] && p.user.None? && p.auxv == [] && p.notes == []
    ensures forall n :: n in CoreNotes(p) ==> NoteFits(n)
  {
    assert CoreNotes(p) == [Note(CoreName(), NT_PRPSINFO, p.prpsinfo)];
  }

  lemma SmallestFile(p: Process)
    requires p.Valid() && p.threads == [] && p.user.None? && p.auxv == [] && p.notes == [] && p.pagesize == 4096
    ensures |CoreFile(p, [])| < SIZE_LIMIT
  {
    hide CoreHeader, EncodeNotes, CoreNotes, PagePadding, CountOf;
    NoThreads(p);
    FileParts(p, []);
    NoContents();
    assert CoreFile(p, [])
        == CoreHeader(p, []) + EncodeNotes(CoreNotes(p)) + CorePadding(p, []) + Flatten(Contents([]));
  }

  lemma NoThreads(p: Process)
    requires p.threads == []
    ensures CountOf(p.threads, p.mainPid) == 0
  {
  }

  lemma NoContents()
    ensures Flatten(Contents([])) == []
  {
  }

  lemma ContentsStep(segments: seq<Segment>)
    requires segments != []
    ensures Flatten(Contents(segments)) == segments[0].data + Flatten(Contents(segments[1..]))
  {
    assert Contents(segments)[1..] == Contents(segments[1..]);
  }

  lemma {:induction false} SegmentPhdrsFit(segments: seq<Segment>, offset: nat)
    requires FitsField(8, offset + |Flatten(Contents(segments))|)
    requires forall s :: s in segments ==> SegmentFits(s)
    ensures forall p :: p in SegmentPhdrs(segments, offset) ==> PhdrFits(p)
    decreases |segments|
  {
    if segments != [] {
      ContentsStep(segments);
      assert segments[0] in segments;
      SegmentPhdrsFit(segments[1..], offset + |segments[0].data|);
      assert PhdrFits(SegmentPhdr(segments[0], offset));
    }
  }

  lemma FieldPrefix(s: seq<byte>, rest: seq<byte>, at: nat, width: nat)
    requires at + width <= |s|
    ensures Field(s + rest, at, width) == Field(s, at, width)
  {
    assert (s + rest)[at..at + width] == s[at..at + width];
  }

  lemma HeaderFields(phnum: nat)
    ensures var s := EncodeEhdr(phnum);
            && s[..4] == [0x7F, 0x45, 0x4C, 0x46]
            && Field(s, 32, 8) == 64 && Field(s, 54, 2) == 56
            && Field(s, 56, 2) == phnum % 0x1_0000
  {
    var s := EncodeEhdr(phnum);
    assert s[..4] == Ident()[..4];
    assert s[32..40] == LittleEndian(8, EHDR_SIZE);
    assert s[54..56] == LittleEndian(2, PHDR_SIZE);
    assert s[56..58] == LittleEndian(2, phnum);
    FieldOf(s, 32, 8, EHDR_SIZE);
    FieldOf(s, 54, 2, PHDR_SIZE);
    LittleEndianTruncates(2, phnum);
    Pow256Values();
  }

  lemma SmallHeaderFields(phnum: nat)
    requires FitsField(2, phnum)
    ensures |EncodeEhdr(phnum)| == 64 && StartsLikeElf(EncodeEhdr(phnum), phnum)
  {
    HeaderFields(phnum);
    DivModUnique(phnum, 0x1_0000, 0, phnum);
  }

  lemma HeaderTable(p: Process, segments: seq<Segment>)
    requires p.Valid()
    ensures var n, size := |segments| + 1, AnnouncedNoteSize(p);
            && DataOffset(n, size, p.pagesize) == 64 + 56 * n + size + |CorePadding(p, segments)|
            && CorePhdrs(p, segments) == [NotePhdr(64 + 56 * n, size)]
                 + SegmentPhdrs(segments, DataOffset(n, size, p.pagesize))
  {
  }

  lemma HeaderSize(p: Process, segments: seq<Segment>)
    requires p.Valid()
    ensures |CoreHeader(p, segments)| == NoteOffset(|segments| + 1)
  {
    FlattenUniform(EncodePhdrs(CorePhdrs(p, segments)), PHDR_SIZE);
  }

  /** Where the parts of the file lie, when the note size was announced correctly. */
  lemma FileParts(p: Process, segments: seq<Segment>)
    requires p.Valid() && CountOf(p.threads, p.mainPid) <= 1
    ensures var n := |segments| + 1;
            var notes := EncodeNotes(CoreNotes(p));
            var file := CoreFile(p, segments);
            && |notes| == AnnouncedNoteSize(p)
            && NoteOffset(n) + |notes| <= |file|
            && file[NoteOffset(n)..NoteOffset(n) + |notes|] == notes
            && |CoreHeader(p, segments) + notes + CorePadding(p, segments)|
               == DataOffset(n, AnnouncedNoteSize(p), p.pagesize)
  {
    hide CoreHeader, EncodeNotes, CoreNotes, AnnouncedNoteSize, PagePadding;
    NoteAccounting(p);
    HeaderSize(p, segments);
    CutNotes(CoreHeader(p, segments), EncodeNotes(CoreNotes(p)), CorePadding(p, segments),
             Flatten(Contents(segments)));
  }

  lemma CutNotes(header: seq<byte>, notes: seq<byte>, pad: seq<byte>, data: seq<byte>)
    ensures (header + notes + pad + data)[|header|..|header| + |notes|] == notes
  {
  }

  lemma PhdrsFit(p: Process, segments: seq<Segment>)
    requires p.Valid() && Fits(p, segments)
    requires CountOf(p.threads, p.mainPid) <= 1
    ensures forall ph :: ph in CorePhdrs(p, segments) ==> PhdrFits(ph)
  {
    hide EncodeNotes, CoreNotes, AnnouncedNoteSize, PagePadding;
    FileParts(p, segments);
    SegmentPhdrsFit(segments, DataOffset(|segments| + 1, AnnouncedNoteSize(p), p.pagesize));
  }

  /** The reader's way to the program headers succeeds and yields `hs`. */
  ghost predicate HeadersFound(file: seq<byte>, hs: seq<Header>) {
    && StartsLikeElf(file, |hs|)
    && ReadHeaders(file, 64, 56, |hs|) == Some(hs)
  }

  ghost predicate StartsLikeElf(file: seq<byte>, phnum: nat) {
    && |file| >= 64 && file[..4] == [0x7F, 0x45, 0x4C, 0x46]
    && Field(file, 32, 8) == 64 && Field(file, 54, 2) == 56 && Field(file, 56, 2) == phnum
  }

  /** The steps of the reader, put together. */
  lemma ReaderSteps(file: seq<byte>, hs: seq<Header>, segments: seq<ReadSegment>, notes: seq<ReadNote>)
    requires HeadersFound(file, hs) && hs != [] && hs[0].ptype == 4
    requires ReadSegments(file, hs) == Some(segments) && ReadNotes(segments[0].data) == Some(notes)
    ensures ReadCore(file) == Some(CoreImage(notes, segments[1..]))
  {
  }

  /** Reading a file made of an ELF header, a table of program headers, notes, padding
      and segments stored back to back, when the table tells where they are. */
  lemma ReadLaidOut(e: seq<byte>, ps: seq<Phdr>, ns: seq<Note>, pad: seq<byte>, segments: seq<Segment>,
                    noteAt: nat, dataAt: nat)
    requires |e| == 64 && StartsLikeElf(e, |ps|)
    requires forall p :: p in ps ==> PhdrFits(p)
    requires forall n :: n in ns ==> NoteFits(n)
    requires noteAt == 64 + 56 * |ps| && dataAt == noteAt + |EncodeNotes(ns)| + |pad|
    requires ps == [NotePhdr(noteAt, |EncodeNotes(ns)|)] + SegmentPhdrs(segments, dataAt)
    ensures ReadCore(e + Flatten(EncodePhdrs(ps)) + EncodeNotes(ns) + pad + Flatten(Contents(segments)))
         == Some(CoreImage(NoteViews(ns), SegmentViews(segments, dataAt)))
  {
    hide *;
    var table, notes, data := Flatten(EncodePhdrs(ps)), EncodeNotes(ns), Flatten(Contents(segments));
    ReadTable(e, ps, notes + pad + data);
    Regroup(e, table, notes, pad, data);
    HeaderViewsStep(NotePhdr(noteAt, |notes|), SegmentPhdrs(segments, dataAt));
    ReadNotesBack(ns);
    ReadDescribed(e + table + notes + pad + data, e + table, notes, pad, segments, HeaderViews(ps),
                  noteAt, dataAt, NoteViews(ns));
  }

  /** Following the ELF header to the table yields the headers, whatever follows. */
  lemma ReadTable(e: seq<byte>, ps: seq<Phdr>, rest: seq<byte>)
    requires |e| == 64 && StartsLikeElf(e, |ps|)
    requires forall p :: p in ps ==> PhdrFits(p)
    ensures HeadersFound(e + Flatten(EncodePhdrs(ps)) + rest, HeaderViews(ps))
    ensures |e + Flatten(EncodePhdrs(ps))| == 64 + 56 * |ps|
  {
    var table := Flatten(EncodePhdrs(ps));
    FlattenUniform(EncodePhdrs(ps), 56);
    Assoc(e, table, rest);
    FieldPrefix(e, table + rest, 32, 8);
    FieldPrefix(e, table + rest, 54, 2);
    FieldPrefix(e, table + rest, 56, 2);
    ReadHeadersBack(ps, e, rest);
  }

  lemma HeaderViewsStep(first: Phdr, rest: seq<Phdr>)
    ensures HeaderViews([first] + rest) == [HeaderView(first)] + HeaderViews(rest)
  {
  }

  lemma ReadDescribed(file: seq<byte>, front: seq<byte>, notes: seq<byte>, pad: seq<byte>,
                      segments: seq<Segment>, hs: seq<Header>, noteAt: nat, dataAt: nat,
                      views: seq<ReadNote>)
    requires file == front + notes + pad + Flatten(Contents(segments))
    requires HeadersFound(file, hs)
    requires noteAt == |front| && dataAt == noteAt + |notes| + |pad|
    requires hs == [HeaderView(NotePhdr(noteAt, |notes|))] + HeaderViews(SegmentPhdrs(segments, dataAt))
    requires ReadNotes(notes) == Some(views)
    ensures ReadCore(file) == Some(CoreImage(views, SegmentViews(segments, dataAt)))
  {
    hide *;
    var at := front + notes + pad;
    ReadSegmentsBack(segments, at);
    CutNotes(front, notes, pad, Flatten(Contents(segments)));
    Lengths3(front, notes, pad);
    NoteHeader(noteAt, |notes|);
    ReadOneMore(file, hs[0], |front|, |front| + |notes|, notes, HeaderViews(SegmentPhdrs(segments, dataAt)),
                SegmentViews(segments, dataAt));
    ReaderSteps(file, hs, [ReadSegment(hs[0], notes)] + SegmentViews(segments, dataAt), views);
    assert ([ReadSegment(hs[0], notes)] + SegmentViews(segments, dataAt))[1..] == SegmentViews(segments, dataAt);
  }

  lemma Lengths3(a: seq<byte>, b: seq<byte>, c: seq<byte>)
    ensures |a + b + c| == |a| + |b| + |c|
  {
  }

  lemma NoteHeader(offset: nat, size: nat)
    ensures var h := HeaderView(NotePhdr(offset, size));
            h.ptype == 4 && h.offset == offset && h.filesz == size
  {
  }

  lemma ReadOneMore(file: seq<byte>, h: Header, from: nat, to: nat, data: seq<byte>, rest: seq<Header>,
                    views: seq<ReadSegment>)
    requires h.offset == from && h.filesz == to - from && to <= |file| && data == file[from..to]
    requires ReadSegments(file, rest) == Some(views)
    ensures ReadSegments(file, [h] + rest) == Some([ReadSegment(h, data)] + views)
  {
    var hs := [h] + rest;
    assert hs[0] == h && hs[1..] == rest;
  }

  lemma Regroup(e: seq<byte>, table: seq<byte>, notes: seq<byte>, pad: seq<byte>, data: seq<byte>)
    ensures e + table + notes + pad + data == e + table + (notes + pad + data)
    ensures e + table + (notes + pad + data) == e + (table + (notes + pad + data))
  {
  }

  /** The round trip: reading a complete core file yields exactly the notes, in
      order, and for every segment its header and its bytes. */
  lemma ReadBack(p: Process, segments: seq<Segment>)
    requires p.Valid() && Fits(p, segments)
    requires CountOf(p.threads, p.mainPid) <= 1
    ensures ReadCore(CoreFile(p, segments)) == Some(CoreImage(
              NoteViews(CoreNotes(p)),
              SegmentViews(segments, DataOffset(|segments| + 1, AnnouncedNoteSize(p), p.pagesize))))
  {
    hide *;
    var e, ps, pad, noteAt, dataAt := Laid(p, segments);
    ReadLaidOut(e, ps, CoreNotes(p), pad, segments, noteAt, dataAt);
  }

  /** A core file has the shape that `ReadLaidOut` reads. */
  lemma Laid(p: Process, segments: seq<Segment>)
    returns (e: seq<byte>, ps: seq<Phdr>, pad: seq<byte>, noteAt: nat, dataAt: nat)
    requires p.Valid() && Fits(p, segments)
    requires CountOf(p.threads, p.mainPid) <= 1
    ensures CoreFile(p, segments)
         == e + Flatten(EncodePhdrs(ps)) + EncodeNotes(CoreNotes(p)) + pad + Flatten(Contents(segments))
    ensures |e| == 64 && StartsLikeElf(e, |ps|)
    ensures forall ph :: ph in ps ==> PhdrFits(ph)
    ensures forall n :: n in CoreNotes(p) ==> NoteFits(n)
    ensures noteAt == 64 + 56 * |ps| && dataAt == noteAt + |EncodeNotes(CoreNotes(p))| + |pad|
    ensures dataAt == DataOffset(|segments| + 1, AnnouncedNoteSize(p), p.pagesize)
    ensures ps == [NotePhdr(noteAt, |EncodeNotes(CoreNotes(p))|)] + SegmentPhdrs(segments, dataAt)
  {
    hide *;
    PagesizePositive(p);
    e, ps, pad := EncodeEhdr(|segments| + 1), CorePhdrs(p, segments), CorePadding(p, segments);
    noteAt, dataAt := 64 + 56 * |ps|, DataOffset(|segments| + 1, AnnouncedNoteSize(p), p.pagesize);
    FitsParts(p, segments);
    NoteAccounting(p);
    PhdrsFit(p, segments);
    SmallHeaderFields(|segments| + 1);
    HeaderTable(p, segments);
    FileShape(p, segments);
  }

  lemma PagesizePositive(p: Process)
    requires p.Valid()
    ensures p.pagesize > 0
  {
  }

  lemma FitsParts(p: Process, segments: seq<Segment>)
    requires p.Valid() && Fits(p, segments)
    ensures FitsField(2, |segments| + 1) && forall n :: n in CoreNotes(p) ==> NoteFits(n)
  {
  }

  lemma FileShape(p: Process, segments: seq<Segment>)
    requires p.Valid()
    ensures CoreFile(p, segments)
         == EncodeEhdr(|segments| + 1) + Flatten(EncodePhdrs(CorePhdrs(p, segments)))
            + EncodeNotes(CoreNotes(p)) + CorePadding(p, segments) + Flatten(Contents(segments))
    ensures |CorePhdrs(p, segments)| == |segments| + 1
  {
  }

  lemma {:induction false} ViewsAt(segments: seq<Segment>, offset: nat, i: nat)
    requires i < |segments|
    ensures SegmentViews(segments, offset)[i].header
         == HeaderView(SegmentPhdr(segments[i], offset + |Flatten(Contents(segments[..i]))|))
    ensures SegmentViews(segments, offset)[i].data == segments[i].data
  {
    if i > 0 {
      ViewsAt(segments[1..], offset + |segments[0].data|, i - 1);
      ContentsStep(segments[..i]);
      assert segments[..i][1..] == segments[1..][..i - 1];
    }
  }

  /** Segments lie back to back behind the notes: each starts where the one before
      it ends, and the last one ends where the file ends. */
  lemma SegmentsContiguous(p: Process, segments: seq<Segment>, i: nat)
    requires p.Valid() && CountOf(p.threads, p.mainPid) <= 1
    requires i < |segments|
    ensures var at := DataOffset(|segments| + 1, AnnouncedNoteSize(p), p.pagesize);
            var views := SegmentViews(segments, at);
            && (i == 0 ==> views[i].header.offset == at)
            && (i + 1 < |segments| ==>
                  views[i + 1].header.offset == views[i].header.offset + views[i].header.filesz)
            && (i + 1 == |segments| ==>
                  views[i].header.offset + views[i].header.filesz == |CoreFile(p, segments)|)
  {
    FileParts(p, segments);
    ViewsContiguous(segments, DataOffset(|segments| + 1, AnnouncedNoteSize(p), p.pagesize), i);
  }

  lemma ViewsContiguous(segments: seq<Segment>, at: nat, i: nat)
    requires i < |segments|
    ensures var views := SegmentViews(segments, at);
            var end := views[i].header.offset + views[i].header.filesz;
            && (i == 0 ==> views[i].header.offset == at)
            && (i + 1 < |segments| ==> views[i + 1].header.offset == end)
            && (i + 1 == |segments| ==> end == at + |Flatten(Contents(segments))|)
  {
    ViewsAt(segments, at, i);
    if i + 1 < |segments| {
      ViewsAt(segments, at, i + 1);
    }
    assert Contents(segments[..i + 1]) == Contents(segments[..i]) + [segments[i].data];
    FlattenSnoc(Contents(segments[..i]), segments[i].data);
    assert segments[..|segments|] == segments;
  }

  /** The program header count survives exactly when it is below 65536: it is kept
      in 16 bits, and nothing in the writer checks for more mappings than that. */
  lemma HeaderCountSurvives(p: Process, segments: seq<Segment>)
    requires p.Valid()
    ensures |CoreFile(p, segments)| >= 64
    ensures Field(CoreFile(p, segments), 56, 2) == |segments| + 1 <==> |segments| + 1 < 65536
  {
    hide CoreFile, EncodeEhdr, Field;
    var rest := StartsWithHeader(p, segments);
    FieldPrefix(EncodeEhdr(|segments| + 1), rest, 56, 2);
    HeaderFields(|segments| + 1);
  }

  /** With 65535 segments the header says that there are no program headers. */
  lemma HeaderCountLost(s: Segment)
    ensures Field(CoreFile(BareProcess([]), seq(65535, _ => s)), 56, 2) != 65536
  {
    hide CoreFile, Field;
    HeaderCountSurvives(BareProcess([]), seq(65535, _ => s));
  }

  lemma StartsWithHeader(p: Process, segments: seq<Segment>) returns (rest: seq<byte>)
    requires p.Valid()
    ensures CoreFile(p, segments) == EncodeEhdr(|segments| + 1) + rest
  {
    var e, table := EncodeEhdr(|segments| + 1), Flatten(EncodePhdrs(CorePhdrs(p, segments)));
    var notes, pad, data := EncodeNotes(CoreNotes(p)), CorePadding(p, segments), Flatten(Contents(segments));
    Regroup(e, table, notes, pad, data);
    rest := table + (notes + pad + data);
  }
}
