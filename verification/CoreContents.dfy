/** What a reader finds in a core file, stated by the values of the process and by
    offsets into the notes alone. */
module CoreContents {
  import opened Bytes
  import opened ElfFormat
  import opened ElfReader
  import opened CoreRoundTrip
  import opened SegmentWriter
  import opened HeaderWriter

  // ---------- Thread notes ----------

  /** A status block with the id and the registers of thread `t` in it, and all else as
      in `template`. */
  ghost predicate StatusShows(desc: seq<byte>, template: seq<byte>, t: Thread) {
    && |desc| == |template| == 336
    && Field(desc, 32, 4) == t.pid % 0x1_0000_0000
    && desc[112..328] == t.regs
    && desc[..32] == template[..32] && desc[36..112] == template[36..112] && desc[328..] == template[328..]
  }

  lemma StatusShown(template: seq<byte>, t: Thread)
    requires |template| == PRSTATUS_SIZE && |t.regs| == REGS_SIZE
    ensures StatusShows(ThreadStatus(template, t), template, t)
  {
    var s := ThreadStatus(template, t);
    assert s[32..36] == LittleEndian(4, t.pid) && s[112..328] == t.regs;
    assert s[..32] == template[..32] && s[36..112] == template[36..112] && s[328..] == template[328..];
    LittleEndianTruncates(4, t.pid);
    Pow256Values();
  }

  /** The two notes of thread `t`: its status, and its floating-point registers. */
  ghost predicate ThreadShown(status: ReadNote, fpregs: ReadNote, template: seq<byte>, t: Thread) {
    && status.name == [0x43, 0x4F, 0x52, 0x45] && status.ntype == 1 && StatusShows(status.desc, template, t)
    && fpregs == ReadNote([0x43, 0x4F, 0x52, 0x45], 2, t.fpregs)
  }

  lemma ThreadNotesShown(template: seq<byte>, t: Thread)
    requires |template| == PRSTATUS_SIZE && |t.regs| == REGS_SIZE
    ensures |ThreadNotes(template, t)| == 2
    ensures ThreadShown(NoteView(ThreadNotes(template, t)[0]), NoteView(ThreadNotes(template, t)[1]), template, t)
  {
    hide ThreadStatus, StatusShows;
    StatusShown(template, t);
  }

  lemma {:induction false} ThreadNotesAt(template: seq<byte>, ts: seq<Thread>, k: nat)
    requires |template| == PRSTATUS_SIZE && k < |ts| && forall t :: t in ts ==> |t.regs| == REGS_SIZE
    ensures |ThreadsNotes(template, ts)| == 2 * |ts|
    ensures ThreadShown(NoteView(ThreadsNotes(template, ts)[2 * k]), NoteView(ThreadsNotes(template, ts)[2 * k + 1]),
                        template, ts[k])
  {
    hide ThreadNotes, NoteView, ThreadShown;
    ThreadsNotesCount(template, ts);
    ThreadsNotesCount(template, ts[1..]);
    ThreadNotesShown(template, ts[0]);
    if k > 0 {
      ThreadNotesAt(template, ts[1..], k - 1);
    }
  }

  lemma {:induction false} ThreadsNotesCount(template: seq<byte>, ts: seq<Thread>)
    requires |template| == PRSTATUS_SIZE && forall t :: t in ts ==> |t.regs| == REGS_SIZE
    ensures |ThreadsNotes(template, ts)| == 2 * |ts|
  {
    if ts != [] {
      ThreadsNotesCount(template, ts[1..]);
      assert |ThreadNotes(template, ts[0])| == 2;
    }
  }

  // ---------- The order of the threads ----------

  /** Thread number `main` and no other has the id `pid`; no thread has it if `main` is
      the number of threads. */
  ghost predicate MainAt(ts: seq<Thread>, pid: nat, main: nat) {
    main <= |ts| && forall i :: 0 <= i < |ts| ==> (ts[i].pid == pid <==> i == main)
  }

  lemma {:induction false} MainFound(ts: seq<Thread>, pid: nat) returns (main: nat)
    requires CountOf(ts, pid) <= 1
    ensures MainAt(ts, pid, main)
  {
    main := |ts|;
    if ts != [] {
      var k := |ts| - 1;
      CountPositive(ts[..k], pid);
      if ts[k].pid == pid {
        assert forall i :: 0 <= i < k ==> ts[i] in ts[..k];
        main := k;
      } else {
        main := MainFound(ts[..k], pid);
        assert forall i :: 0 <= i < k ==> ts[..k][i] == ts[i];
        main := if main == k then |ts| else main;
      }
    }
  }

  /** The number of the thread that comes at place `k` in the file, of `n` threads of
      which number `main` comes first: the others follow from the last to the first. */
  function ThreadAt(n: nat, main: nat, k: nat): int {
    if k == 0 && main < n then main
    else if n - k > main then n - k
    else n - k - 1
  }

  lemma OthersBehind(ts: seq<Thread>, pid: nat)
    requires ts != []
    ensures var n := |ts| - 1;
            ReversedWithout(ts, pid) == (if ts[n].pid != pid then [ts[n]] else []) + ReversedWithout(ts[..n], pid)
  {
  }

  lemma OneLess(ts: seq<Thread>, pid: nat, main: nat)
    requires ts != [] && MainAt(ts, pid, main)
    ensures MainAt(ts[..|ts| - 1], pid, if main == |ts| then main - 1 else main)
    ensures main <= |ts| && (main == |ts| - 1 <==> ts[|ts| - 1].pid == pid)
  {
  }

  lemma {:induction false} OthersCounted(ts: seq<Thread>, pid: nat, main: nat)
    requires MainAt(ts, pid, main)
    ensures main <= |ts| && |ReversedWithout(ts, pid)| == if main < |ts| then |ts| - 1 else |ts|
  {
    if ts != [] {
      OneLess(ts, pid, main);
      OthersCounted(ts[..|ts| - 1], pid, if main == |ts| then main - 1 else main);
    }
  }

  /** The others come from the last to the first. */
  lemma {:induction false} OthersAt(ts: seq<Thread>, pid: nat, main: nat, k: nat)
    requires MainAt(ts, pid, main) && k < |ReversedWithout(ts, pid)|
    ensures |ReversedWithout(ts, pid)| == if main < |ts| then |ts| - 1 else |ts|
    ensures ReversedWithout(ts, pid)[k] == ts[ThreadAt(|ts|, main, if main < |ts| then k + 1 else k)]
  {
    hide MainAt, ReversedWithout;
    OthersCounted(ts, pid, main);
    if ts == [] {
      assert false;
    } else {
      OneLess(ts, pid, main);
      OthersBehind(ts, pid);
      var n := |ts| - 1;
      if main == n {
        OthersAt(ts[..n], pid, main, k);
      } else if k > 0 {
        OthersAt(ts[..n], pid, if main > n then n else main, k - 1);
      }
    }
  }

  lemma {:induction false} MainComesFirst(ts: seq<Thread>, pid: nat, main: nat)
    requires MainAt(ts, pid, main)
    ensures LastWith(ts, pid) == if main < |ts| then [ts[main]] else []
  {
    var r := LastWith(ts, pid);
    if main < |ts| {
      assert ts[main] in ts && r != [];
      var i :| 0 <= i < |ts| && ts[i] == r[0];
    }
  }

  lemma DumpOrderAt(ts: seq<Thread>, pid: nat, main: nat)
    requires MainAt(ts, pid, main)
    ensures main <= |ts| && |DumpOrder(ts, pid)| == |ts|
    ensures forall k :: 0 <= k < |ts| ==> DumpOrder(ts, pid)[k] == ts[ThreadAt(|ts|, main, k)]
  {
    hide MainAt, ReversedWithout, LastWith;
    OthersCounted(ts, pid, main);
    MainComesFirst(ts, pid, main);
    var first := if main < |ts| then 1 else 0;
    forall k | first <= k < |ts|
      ensures DumpOrder(ts, pid)[k] == ts[ThreadAt(|ts|, main, k)]
    {
      OthersAt(ts, pid, main, k - first);
    }
  }

  // ---------- All notes ----------

  /** The entries of the auxiliary vector, one behind the other. */
  ghost predicate EntriesOf(desc: seq<byte>, auxv: seq<seq<byte>>) {
    && |desc| == 16 * |auxv|
    && forall i :: 0 <= i < |auxv| ==> desc[16 * i..16 * i + 16] == auxv[i]
  }

  lemma {:induction false} FlattenEntries(auxv: seq<seq<byte>>)
    requires forall a :: a in auxv ==> |a| == AUXV_SIZE
    ensures EntriesOf(Flatten(auxv), auxv)
  {
    if auxv != [] {
      FlattenEntries(auxv[1..]);
      var rest := Flatten(auxv[1..]);
      assert auxv[0] in auxv;
      forall i | 0 <= i < |auxv|
        ensures (auxv[0] + rest)[16 * i..16 * i + 16] == auxv[i]
      {
        if i > 0 {
          assert rest[16 * (i - 1)..16 * (i - 1) + 16] == auxv[1..][i - 1];
        }
      }
    }
  }

  /** Where the first thread's notes come. */
  function FirstThreadNote(p: Process): nat {
    1 + (if p.user.Some? then 1 else 0) + (if p.auxv != [] then 1 else 0)
  }

  /** The notes of a core file: process information, user area, auxiliary vector, the
      threads with the crashing one first, and the notes handed in by the user. */
  ghost predicate NotesShown(notes: seq<ReadNote>, p: Process, main: nat) {
    var first, n := FirstThreadNote(p), |p.threads|;
    && MainAt(p.threads, p.mainPid, main)
    && |notes| == first + 2 * n + |p.notes|
    && notes[0] == ReadNote([0x43, 0x4F, 0x52, 0x45], 3, p.prpsinfo)
    && (p.user.Some? ==> notes[1] == ReadNote([0x43, 0x4F, 0x52, 0x45], 4, p.user.value))
    && (p.auxv != [] ==>
          var note := notes[first - 1];
          note.name == [0x43, 0x4F, 0x52, 0x45] && note.ntype == 6 && EntriesOf(note.desc, p.auxv))
    && (forall k :: 0 <= k < n ==>
          ThreadShown(notes[first + 2 * k], notes[first + 2 * k + 1], p.prstatus, p.threads[ThreadAt(n, main, k)]))
    && (forall j :: 0 <= j < |p.notes| ==>
          notes[first + 2 * n + j] == ReadNote(p.notes[j].name, p.notes[j].ntype, p.notes[j].desc))
  }

  /** The notes in front of the threads'. */
  function FrontNotes(p: Process): seq<Note> {
    [Note(CoreName(), NT_PRPSINFO, p.prpsinfo)] + UserPart(p) + AuxvPart(p)
  }

  lemma FrontShown(p: Process)
    requires p.Valid()
    ensures var f, first := FrontNotes(p), FirstThreadNote(p);
            && |f| == first && NoteView(f[0]) == ReadNote([0x43, 0x4F, 0x52, 0x45], 3, p.prpsinfo)
            && (p.user.Some? ==> NoteView(f[1]) == ReadNote([0x43, 0x4F, 0x52, 0x45], 4, p.user.value))
            && (p.auxv != [] ==>
                  var note := NoteView(f[first - 1]);
                  note.name == [0x43, 0x4F, 0x52, 0x45] && note.ntype == 6 && EntriesOf(note.desc, p.auxv))
  {
    hide EntriesOf, Flatten;
    FlattenEntries(p.auxv);
  }

  lemma ThreadsShown(p: Process, main: nat)
    requires p.Valid() && MainAt(p.threads, p.mainPid, main)
    ensures var all, n := ThreadsNotes(p.prstatus, DumpOrder(p.threads, p.mainPid)), |p.threads|;
            && |all| == 2 * n
            && forall k :: 0 <= k < n ==>
                 ThreadShown(NoteView(all[2 * k]), NoteView(all[2 * k + 1]), p.prstatus,
                             p.threads[ThreadAt(n, main, k)])
  {
    hide ThreadsNotes, NoteView, ThreadShown, MainAt;
    var order, n := DumpOrder(p.threads, p.mainPid), |p.threads|;
    DumpOrderAt(p.threads, p.mainPid, main);
    ThreadsNotesCount(p.prstatus, order);
    forall k | 0 <= k < n
      ensures var all := ThreadsNotes(p.prstatus, order);
              ThreadShown(NoteView(all[2 * k]), NoteView(all[2 * k + 1]), p.prstatus, order[k])
    {
      ThreadNotesAt(p.prstatus, order, k);
    }
  }

  lemma ViewsOfParts(a: seq<Note>, b: seq<Note>, c: seq<Note>)
    ensures var v := NoteViews(a + b + c);
            && |v| == |a| + |b| + |c|
            && (forall i :: 0 <= i < |a| ==> v[i] == NoteView(a[i]))
            && (forall i :: 0 <= i < |b| ==> v[|a| + i] == NoteView(b[i]))
            && (forall i :: 0 <= i < |c| ==> v[|a| + |b| + i] == NoteView(c[i]))
  {
  }

  /** The notes that are written are the ones that are to be shown. */
  lemma CoreNotesShown(p: Process) returns (main: nat)
    requires p.Valid() && CountOf(p.threads, p.mainPid) <= 1
    ensures NotesShown(NoteViews(CoreNotes(p)), p, main)
  {
    hide NoteViews, ThreadsNotes, DumpOrder, MainAt, ThreadShown, EntriesOf, ThreadAt;
    main := MainFound(p.threads, p.mainPid);
    var a, b, c := FrontNotes(p), ThreadsNotes(p.prstatus, DumpOrder(p.threads, p.mainPid)), UserNotes(p.notes);
    FrontShown(p);
    ThreadsShown(p, main);
    assert CoreNotes(p) == a + b + c;
    ViewsOfParts(a, b, c);
    ThreadsPlaced(NoteViews(CoreNotes(p)), p, main, b);
  }

  lemma ThreadsPlaced(v: seq<ReadNote>, p: Process, main: nat, b: seq<Note>)
    requires p.Valid() && MainAt(p.threads, p.mainPid, main)
    requires |b| == 2 * |p.threads| && |v| >= FirstThreadNote(p) + |b|
    requires forall i :: 0 <= i < |b| ==> v[FirstThreadNote(p) + i] == NoteView(b[i])
    requires forall k :: 0 <= k < |p.threads| ==>
               ThreadShown(NoteView(b[2 * k]), NoteView(b[2 * k + 1]), p.prstatus,
                           p.threads[ThreadAt(|p.threads|, main, k)])
    ensures forall k :: 0 <= k < |p.threads| ==>
              ThreadShown(v[FirstThreadNote(p) + 2 * k], v[FirstThreadNote(p) + 2 * k + 1], p.prstatus,
                          p.threads[ThreadAt(|p.threads|, main, k)])
  {
    hide MainAt, ThreadShown, NoteView;
    forall k | 0 <= k < |p.threads|
      ensures v[FirstThreadNote(p) + 2 * k] == NoteView(b[2 * k])
      ensures v[FirstThreadNote(p) + 2 * k + 1] == NoteView(b[2 * k + 1])
    {
    }
  }

  // ---------- The ELF header ----------

  lemma EhdrFields(phnum: nat)
    ensures IsCoreFile(EncodeEhdr(phnum))
  {
    var s := EncodeEhdr(phnum);
    assert s[..4] == Ident()[..4] && s[4..7] == Ident()[4..7];
    assert forall i :: 7 <= i < 16 ==> s[i] == Ident()[i];
    assert s[16..18] == LittleEndian(2, 4) && s[18..20] == LittleEndian(2, 62) && s[20..24] == LittleEndian(4, 1);
    assert s[24..32] == LittleEndian(8, 0) && s[40..48] == LittleEndian(8, 0) && s[48..52] == LittleEndian(4, 0);
    assert s[52..54] == s[58..60] == LittleEndian(2, 64) && s[60..62] == s[62..64] == LittleEndian(2, 0);
    EhdrValues(s);
  }

  lemma EhdrValues(s: seq<byte>)
    requires |s| == 64
    requires s[16..18] == LittleEndian(2, 4) && s[18..20] == LittleEndian(2, 62) && s[20..24] == LittleEndian(4, 1)
    requires s[24..32] == LittleEndian(8, 0) && s[40..48] == LittleEndian(8, 0) && s[48..52] == LittleEndian(4, 0)
    requires s[52..54] == s[58..60] == LittleEndian(2, 64) && s[60..62] == s[62..64] == LittleEndian(2, 0)
    ensures Field(s, 16, 2) == 4 && Field(s, 18, 2) == 62 && Field(s, 20, 4) == 1
    ensures Field(s, 24, 8) == 0 && Field(s, 40, 8) == 0 && Field(s, 48, 4) == 0
    ensures Field(s, 52, 2) == 64 && Field(s, 58, 2) == 64 && Field(s, 60, 2) == 0 && Field(s, 62, 2) == 0
  {
    hide LittleEndian, Field;
    FieldOf(s, 16, 2, 4);
    FieldOf(s, 18, 2, 62);
    FieldOf(s, 20, 4, 1);
    FieldOf(s, 24, 8, 0);
    FieldOf(s, 40, 8, 0);
    FieldOf(s, 48, 4, 0);
    FieldOf(s, 52, 2, 64);
    FieldOf(s, 58, 2, 64);
    FieldOf(s, 60, 2, 0);
    FieldOf(s, 62, 2, 0);
  }

  lemma CoreFileIdentity(e: seq<byte>, rest: seq<byte>)
    requires IsCoreFile(e)
    ensures IsCoreFile(e + rest)
  {
    hide Field;
    assert (e + rest)[..4] == e[..4] && (e + rest)[4..7] == e[4..7];
    FieldPrefix(e, rest, 16, 2);
    FieldPrefix(e, rest, 18, 2);
    FieldPrefix(e, rest, 20, 4);
    FieldPrefix(e, rest, 24, 8);
    FieldPrefix(e, rest, 40, 8);
    FieldPrefix(e, rest, 48, 4);
    FieldPrefix(e, rest, 52, 2);
    FieldPrefix(e, rest, 58, 2);
    FieldPrefix(e, rest, 60, 2);
    FieldPrefix(e, rest, 62, 2);
  }

  lemma CoreFileIsOne(p: Process, segments: seq<Segment>)
    requires p.Valid()
    ensures IsCoreFile(CoreFile(p, segments))
  {
    hide *;
    var e, ps := EncodeEhdr(|segments| + 1), CorePhdrs(p, segments);
    var table, notes, pad, data :=
      Flatten(EncodePhdrs(ps)), EncodeNotes(CoreNotes(p)), CorePadding(p, segments), Flatten(Contents(segments));
    FileShape(p, segments);
    Regroup(e, table, notes, pad, data);
    EhdrFields(|segments| + 1);
    CoreFileIdentity(e, table + (notes + pad + data));
  }

  // ---------- The vdso's headers ----------

  /** A header of the vdso, as it is copied into the core file. */
  predicate CopyOf(h: Header, p: Phdr) {
    && h.ptype == p.ptype && h.flags == p.flags && h.vaddr == p.vaddr && h.paddr == 0
    && h.filesz == p.filesz && h.memsz == p.memsz && h.align == p.align
  }

  /** As many headers are copied as the vdso has that are not loadable. */
  lemma {:induction false} ExtraCounted(vdso: seq<Phdr>)
    ensures ExtraHeaders(vdso) == |set j | 0 <= j < |vdso| && vdso[j].ptype != 1|
  {
    if vdso != [] {
      var k := |vdso| - 1;
      ExtraCounted(vdso[..k]);
      var before := set j | 0 <= j < k && vdso[..k][j].ptype != 1;
      var all := set j | 0 <= j < |vdso| && vdso[j].ptype != 1;
      assert all == before + if vdso[k].ptype != 1 then {k} else {};
    }
  }

  /** The header copied from the vdso's header number `j` has a segment of its own,
      behind those of the headers before. */
  lemma {:induction false} VdsoSegmentAt(vdso: seq<Phdr>, mem: Memory, j: nat)
    requires j < |vdso| && vdso[j].ptype != PT_LOAD
    ensures ExtraHeaders(vdso[..j]) < |VdsoSegments(vdso, mem)|
    ensures VdsoSegments(vdso, mem)[ExtraHeaders(vdso[..j])] == VdsoSegment(vdso[j], mem)
  {
    assert vdso == vdso[..j] + ([vdso[j]] + vdso[j + 1..]);
    VdsoAppend(vdso[..j], [vdso[j]] + vdso[j + 1..], mem);
    VdsoTotals(vdso[..j], mem);
    assert ([vdso[j]] + vdso[j + 1..])[1..] == vdso[j + 1..];
  }
}
