/** The loops of `CreateElfCore` that write the note section. */
module NoteWriter {
  import opened Bytes
  import opened Writers
  import opened Emission
  import opened ElfFormat
  import opened CoreRoundTrip
  import opened CoreContents

  /** The notes written so far, inside the notes to be written. */
  ghost predicate NotesReached(start: View, now: View, front: seq<byte>, written: seq<Note>, all: seq<Note>,
                               target: seq<byte>)
  {
    && written <= all
    && front + EncodeNotes(all) <= target
    && Reached(start, now, front + EncodeNotes(written), target)
  }

  lemma NotesPrefix(written: seq<Note>, n: Note, all: seq<Note>)
    requires written + [n] <= all
    ensures EncodeNotes(written + [n]) == EncodeNotes(written) + EncodeNote(n)
    ensures EncodeNotes(written + [n]) <= EncodeNotes(all)
  {
    hide EncodeNotes, EncodeNote;
    EncodeNotesAppend(written, [n]);
    EncodeNotesOne(n);
    assert all == (written + [n]) + all[|written| + 1..];
    EncodeNotesAppend(written + [n], all[|written| + 1..]);
  }

  lemma NextNote(front: seq<byte>, written: seq<Note>, n: Note, all: seq<Note>, target: seq<byte>)
    requires written + [n] <= all && front + EncodeNotes(all) <= target
    ensures front + EncodeNotes(written) + EncodeNote(n) == front + EncodeNotes(written + [n])
    ensures front + EncodeNotes(written) + EncodeNote(n) <= target
  {
    hide EncodeNotes, EncodeNote;
    NotesPrefix(written, n, all);
    Assoc(front, EncodeNotes(written), EncodeNote(n));
    PrefixOfPrefix(front, EncodeNotes(written + [n]), EncodeNotes(all), target);
  }

  /** The pieces of one note, in the order in which they are written. */
  lemma NotePieces(h: seq<byte>, name: seq<byte>, pad: seq<byte>, desc: seq<byte>, pad2: seq<byte>,
                   done: seq<byte>, target: seq<byte>)
    requires done + (h + name + pad + desc + pad2) <= target
    ensures done + h <= target && done + h + name <= target && done + h + name + pad <= target
    ensures done + h + name + pad + desc <= target && done + h + name + pad + desc + pad2 <= target
    ensures done + h + name + pad + desc + pad2 == done + (h + name + pad + desc + pad2)
  {
    assert done + h + name + pad + desc + pad2 == done + (h + name + pad + desc + pad2);
  }

  lemma CorePieces(ntype: nat, desc: seq<byte>)
    requires |desc| % 4 == 0
    ensures EncodeNote(Note(CoreName(), ntype, desc))
         == EncodeNhdr(5, |desc|, ntype) + (CoreName() + [0, 0, 0, 0]) + desc
  {
    CoreNoteSize(ntype, desc);
    EncodeNotesOne(Note(CoreName(), ntype, desc));
  }

  lemma ThreePieces(h: seq<byte>, name: seq<byte>, desc: seq<byte>, done: seq<byte>, target: seq<byte>)
    requires done + (h + name + desc) <= target
    ensures done + h <= target && done + h + name <= target
    ensures done + h + name + desc == done + (h + name + desc)
  {
    assert done + h + name + desc == done + (h + name + desc);
  }

  /** Three writer calls: note header, "CORE" padded to eight bytes, description. */
  method WriteCoreNote(h: Handle, ntype: nat, desc: seq<byte>,
                       ghost start: View, ghost done: seq<byte>, ghost target: seq<byte>)
    returns (ok: bool)
    requires |desc| % 4 == 0
    requires Reached(start, h.State(), done, target)
    requires done + EncodeNote(Note(CoreName(), ntype, desc)) <= target
    modifies h, h.file
    ensures Outcome(start, h.State(), done + EncodeNote(Note(CoreName(), ntype, desc)), target, ok)
  {
    hide EncodeNote, EncodeNhdr, Attempt;
    var header, name := EncodeNhdr(5, |desc|, ntype), CoreName() + [0, 0, 0, 0];
    CorePieces(ntype, desc);
    ThreePieces(header, name, desc, done, target);
    ok := Emit(h, header, start, done, target);
    if !ok {
      return;
    }
    ok := Emit(h, name, start, done + header, target);
    if !ok {
      return;
    }
    ok := Emit(h, desc, start, done + header + name, target);
  }

  /** Five writer calls; the scratch bytes behind name and description are zero. */
  method WriteUserNote(h: Handle, n: UserNote, ghost start: View, ghost done: seq<byte>, ghost target: seq<byte>)
    returns (ok: bool)
    requires Reached(start, h.State(), done, target)
    requires done + EncodeNote(Note(n.name, n.ntype, n.desc)) <= target
    modifies h, h.file
    ensures Outcome(start, h.State(), done + EncodeNote(Note(n.name, n.ntype, n.desc)), target, ok)
  {
    hide EncodeNhdr, Attempt, Pad4;
    var header, name := EncodeNhdr(|n.name| + 1, |n.desc|, n.ntype), n.name + [0];
    var pad, pad2 := Zeros(Pad4(|n.name| + 1)), Zeros(Pad4(|n.desc|));
    NotePieces(header, name, pad, n.desc, pad2, done, target);
    hide EncodeNote;
    ok := Emit(h, header, start, done, target);
    if !ok {
      return;
    }
    ok := Emit(h, name, start, done + header, target);
    if !ok {
      return;
    }
    ok := Emit(h, pad, start, done + header + name, target);
    if !ok {
      return;
    }
    ok := Emit(h, n.desc, start, done + header + name + pad, target);
    if !ok {
      return;
    }
    ok := Emit(h, pad2, start, done + header + name + pad + n.desc, target);
  }

  // ---------- Threads ----------

  /** Fills one thread into the status block shared by all of them. */
  method FillStatus(status: array<byte>, t: Thread)
    requires status.Length == PRSTATUS_SIZE && |t.regs| == REGS_SIZE
    modifies status
    ensures status[..] == ThreadStatus(old(status[..]), t)
    ensures StatusShows(status[..], old(status[..]), t)
  {
    StatusShown(status[..], t);
    var pid := LittleEndian(4, t.pid);
    forall i | 32 <= i < 36 {
      status[i] := pid[i - 32];
    }
    forall i | 112 <= i < 328 {
      status[i] := t.regs[i - 112];
    }
    assert status[..32] == old(status[..32]) && status[32..36] == pid && status[36..112] == old(status[36..112]);
    assert status[112..328] == t.regs && status[328..] == old(status[328..]);
    assert status[..] == status[..32] + status[32..36] + status[36..112] + status[112..328] + status[328..];
  }

  /** What another thread has left in the block does not show. */
  lemma StatusOverwritten(status: seq<byte>, t: Thread, u: Thread)
    requires |status| == PRSTATUS_SIZE && |t.regs| == |u.regs| == REGS_SIZE
    ensures ThreadStatus(ThreadStatus(status, t), u) == ThreadStatus(status, u)
  {
    var s := ThreadStatus(status, t);
    assert s[..32] == status[..32] && s[36..112] == status[36..112] && s[328..] == status[328..];
  }

  /** `status` is the original block, possibly with some thread filled in. */
  ghost predicate StatusOf(status: seq<byte>, original: seq<byte>) {
    && |status| == |original| == PRSTATUS_SIZE
    && forall t: Thread :: |t.regs| == REGS_SIZE ==> ThreadStatus(status, t) == ThreadStatus(original, t)
  }

  lemma StatusKept(status: seq<byte>, original: seq<byte>, t: Thread)
    requires StatusOf(status, original) && |t.regs| == REGS_SIZE
    ensures StatusOf(ThreadStatus(status, t), original)
  {
    forall u: Thread | |u.regs| == REGS_SIZE
      ensures ThreadStatus(ThreadStatus(status, t), u) == ThreadStatus(original, u)
    {
      StatusOverwritten(status, t, u);
    }
  }

  /** `WriteThreadRegs`: the two notes of one thread. */
  method WriteThreadRegs(h: Handle, status: array<byte>, t: Thread, ghost original: seq<byte>,
                         ghost start: View, ghost front: seq<byte>, ghost written: seq<Note>,
                         ghost all: seq<Note>, ghost target: seq<byte>)
    returns (ok: bool)
    requires StatusOf(status[..], original) && |t.regs| == REGS_SIZE && |t.fpregs| == FPREGS_SIZE
    requires NotesReached(start, h.State(), front, written, all, target)
    requires written + ThreadNotes(original, t) <= all
    modifies h, h.file, status
    ensures StatusOf(status[..], original) && StatusShows(status[..], original, t)
    ensures ThreadShown(NoteView(ThreadNotes(original, t)[0]), NoteView(ThreadNotes(original, t)[1]), original, t)
    ensures ok ==> NotesReached(start, h.State(), front, written + ThreadNotes(original, t), all, target)
    ensures !ok ==> Attempt(start, h.State(), target, false)
  {
    hide EncodeNote, EncodeNotes, Attempt, ThreadStatus, StatusShows, ThreadShown;
    StatusKept(status[..], original, t);
    StatusShown(original, t);
    ThreadNotesShown(original, t);
    FillStatus(status, t);
    assert status[..] == ThreadStatus(original, t);
    var n1, n2 := Note(CoreName(), NT_PRSTATUS, status[..]), Note(CoreName(), NT_FPREGSET, t.fpregs);
    assert ThreadNotes(original, t) == [n1, n2];
    assert written + [n1] <= written + [n1, n2] == written + [n1] + [n2];
    NextNote(front, written, n1, all, target);
    ok := WriteCoreNote(h, NT_PRSTATUS, status[..], start, front + EncodeNotes(written), target);
    if !ok {
      return;
    }
    NextNote(front, written + [n1], n2, all, target);
    ok := WriteCoreNote(h, NT_FPREGSET, t.fpregs, start, front + EncodeNotes(written + [n1]), target);
  }

  lemma ThreadsNotesAppend(status: seq<byte>, a: seq<Thread>, b: seq<Thread>)
    requires |status| == PRSTATUS_SIZE
    requires forall t :: t in a + b ==> |t.regs| == REGS_SIZE
    ensures ThreadsNotes(status, a + b) == ThreadsNotes(status, a) + ThreadsNotes(status, b)
  {
    assert forall t :: t in a || t in b ==> t in a + b;
    if a == [] {
      assert a + b == b;
    } else {
      assert (a + b)[1..] == a[1..] + b;
      assert forall t :: t in a[1..] + b ==> t in a + b;
      ThreadsNotesAppend(status, a[1..], b);
      Assoc(ThreadNotes(status, a[0]), ThreadsNotes(status, a[1..]), ThreadsNotes(status, b));
    }
  }

  /** The notes of one more thread extend the notes of the threads before it. */
  lemma NextThread(status: seq<byte>, before: seq<Thread>, t: Thread, after: seq<Thread>)
    requires |status| == PRSTATUS_SIZE
    requires forall u :: u in before + [t] + after ==> |u.regs| == REGS_SIZE
    ensures forall u :: u in before + [t] ==> u in before + [t] + after
    ensures forall u :: u in before ==> u in before + [t] + after
    ensures ThreadsNotes(status, before + [t]) == ThreadsNotes(status, before) + ThreadNotes(status, t)
    ensures ThreadsNotes(status, before + [t]) <= ThreadsNotes(status, before + [t] + after)
  {
    assert forall u :: u in before + [t] || u in after ==> u in before + [t] + after;
    assert forall u :: u in before ==> u in before + [t];
    ThreadsNotesAppend(status, before, [t]);
    ThreadsNotesAppend(status, before + [t], after);
    assert ThreadsNotes(status, [t]) == ThreadNotes(status, t) + ThreadsNotes(status, []);
  }

  /** The state between two threads: the blocks of the threads in `out` are written. */
  ghost predicate ThreadsReached(start: View, now: View, front: seq<byte>, first: seq<Note>, status: seq<byte>,
                                 out: seq<Thread>, order: seq<Thread>, all: seq<Note>, target: seq<byte>)
  {
    && |status| == PRSTATUS_SIZE && (forall t :: t in order ==> |t.regs| == REGS_SIZE && |t.fpregs| == FPREGS_SIZE)
    && out <= order
    && first + ThreadsNotes(status, order) <= all
    && NotesReached(start, now, front, first + ThreadsNotes(status, out), all, target)
  }

  method WriteOneThread(h: Handle, status: array<byte>, t: Thread, ghost original: seq<byte>,
                        ghost start: View, ghost front: seq<byte>, ghost first: seq<Note>,
                        ghost out: seq<Thread>, ghost order: seq<Thread>, ghost all: seq<Note>,
                        ghost target: seq<byte>)
    returns (ok: bool)
    requires StatusOf(status[..], original) && out + [t] <= order
    requires ThreadsReached(start, h.State(), front, first, original, out, order, all, target)
    modifies h, h.file, status
    ensures StatusOf(status[..], original)
    ensures ok ==> ThreadsReached(start, h.State(), front, first, original, out + [t], order, all, target)
    ensures !ok ==> Attempt(start, h.State(), target, false)
  {
    hide EncodeNotes, Attempt, ThreadStatus, ThreadsNotes, ThreadNotes, StatusOf;
    OriginalSize(status[..], original);
    ghost var after := order[|out| + 1..];
    assert order == out + [t] + after;
    assert t in order;
    NextThread(original, out, t, after);
    Assoc(first, ThreadsNotes(original, out), ThreadNotes(original, t));
    LongerPrefix(first, ThreadsNotes(original, out + [t]), ThreadsNotes(original, order), all);
    ok := WriteThreadRegs(h, status, t, original, start, front, first + ThreadsNotes(original, out), all, target);
  }

  lemma OriginalSize(status: seq<byte>, original: seq<byte>)
    requires StatusOf(status, original)
    ensures |original| == PRSTATUS_SIZE
  {
  }

  lemma LongerPrefix<T>(a: seq<T>, b: seq<T>, c: seq<T>, all: seq<T>)
    requires b <= c && a + c <= all
    ensures a + b <= all
  {
  }

  /** The two thread loops: downwards to the crashing thread and no further, then
      downwards over all others. */
  method WriteThreads(h: Handle, p: Process, ghost start: View, ghost front: seq<byte>, ghost first: seq<Note>,
                      ghost all: seq<Note>, ghost target: seq<byte>)
    returns (ok: bool)
    requires p.Valid()
    requires NotesReached(start, h.State(), front, first, all, target)
    requires first + ThreadsNotes(p.prstatus, DumpOrder(p.threads, p.mainPid)) <= all
    modifies h, h.file
    ensures ok ==> NotesReached(start, h.State(), front,
                                first + ThreadsNotes(p.prstatus, DumpOrder(p.threads, p.mainPid)), all, target)
    ensures !ok ==> Attempt(start, h.State(), target, false)
  {
    hide *;
    var status := CopyStatus(p);
    ghost var order := DumpOrder(p.threads, p.mainPid);
    ghost var out: seq<Thread>;
    ThreadsBegin(start, h.State(), front, first, p, order, all, target);
    ok, out := WriteMain(h, status, p, start, front, first, order, all, target);
    if ok {
      ok := WriteOthers(h, status, p, start, front, first, out, order, all, target);
    }
  }

  method CopyStatus(p: Process) returns (status: array<byte>)
    requires p.Valid()
    ensures fresh(status) && StatusOf(status[..], p.prstatus)
  {
    status := new byte[PRSTATUS_SIZE](i requires 0 <= i < PRSTATUS_SIZE => p.prstatus[i]);
    assert status[..] == p.prstatus;
  }

  lemma ThreadsBegin(start: View, now: View, front: seq<byte>, first: seq<Note>, p: Process, order: seq<Thread>,
                     all: seq<Note>, target: seq<byte>)
    requires p.Valid() && order == DumpOrder(p.threads, p.mainPid)
    requires NotesReached(start, now, front, first, all, target) && first + ThreadsNotes(p.prstatus, order) <= all
    ensures ThreadsReached(start, now, front, first, p.prstatus, [], order, all, target)
  {
    hide NotesReached;
    assert first + ThreadsNotes(p.prstatus, []) == first;
  }

  /** Downwards to the crashing thread, if there is one, and no further. */
  method WriteMain(h: Handle, status: array<byte>, p: Process, ghost start: View, ghost front: seq<byte>,
                   ghost first: seq<Note>, ghost order: seq<Thread>, ghost all: seq<Note>, ghost target: seq<byte>)
    returns (ok: bool, ghost out: seq<Thread>)
    requires StatusOf(status[..], p.prstatus) && order == DumpOrder(p.threads, p.mainPid)
    requires ThreadsReached(start, h.State(), front, first, p.prstatus, [], order, all, target)
    modifies h, h.file, status
    ensures StatusOf(status[..], p.prstatus) && out == LastWith(p.threads, p.mainPid)
    ensures ok ==> ThreadsReached(start, h.State(), front, first, p.prstatus, out, order, all, target)
    ensures !ok ==> Attempt(start, h.State(), target, false)
  {
    hide *;
    out := LastWith(p.threads, p.mainPid);
    var i := |p.threads|;
    assert p.threads[..i] == p.threads;
    while i > 0
      invariant 0 <= i <= |p.threads| && out == LastWith(p.threads[..i], p.mainPid)
      invariant StatusOf(status[..], p.prstatus)
      invariant ThreadsReached(start, h.State(), front, first, p.prstatus, [], order, all, target)
    {
      i := i - 1;
      LastStep(p.threads, i, p.mainPid);
      if p.threads[i].pid == p.mainPid {
        MainFirst(p.threads, p.mainPid);
        assert [] + [p.threads[i]] == out;
        ok := WriteOneThread(h, status, p.threads[i], p.prstatus, start, front, first, [], order, all, target);
        return;
      }
    }
    LastOfNone(p.threads[..0], p.mainPid);
    ok := true;
  }

  lemma LastStep(ts: seq<Thread>, i: nat, pid: nat)
    requires i < |ts|
    ensures LastWith(ts[..i + 1], pid) == if ts[i].pid == pid then [ts[i]] else LastWith(ts[..i], pid)
  {
    assert ts[..i + 1][..i] == ts[..i];
  }

  lemma LastOfNone(ts: seq<Thread>, pid: nat)
    requires ts == []
    ensures LastWith(ts, pid) == []
  {
  }

  lemma MainFirst(ts: seq<Thread>, pid: nat)
    ensures LastWith(ts, pid) <= DumpOrder(ts, pid)
  {
  }

  method WriteOthers(h: Handle, status: array<byte>, p: Process, ghost start: View, ghost front: seq<byte>,
                     ghost first: seq<Note>, ghost main: seq<Thread>, ghost order: seq<Thread>,
                     ghost all: seq<Note>, ghost target: seq<byte>)
    returns (ok: bool)
    requires p.Valid() && StatusOf(status[..], p.prstatus)
    requires order == DumpOrder(p.threads, p.mainPid) && main == LastWith(p.threads, p.mainPid)
    requires ThreadsReached(start, h.State(), front, first, p.prstatus, main, order, all, target)
    modifies h, h.file, status
    ensures ok ==> NotesReached(start, h.State(), front, first + ThreadsNotes(p.prstatus, order), all, target)
    ensures !ok ==> Attempt(start, h.State(), target, false)
  {
    hide *;
    ghost var written := main;
    var i := |p.threads|;
    OthersStart(p.threads, p.mainPid, order);
    while i > 0
      invariant 0 <= i <= |p.threads| && StatusOf(status[..], p.prstatus)
      invariant OthersLeft(written, p.threads, i, p.mainPid, order)
      invariant ThreadsReached(start, h.State(), front, first, p.prstatus, written, order, all, target)
    {
      ghost var so := written;
      i := i - 1;
      ok, written := WriteUnlessMain(h, status, p, i, start, front, first, so, order, all, target);
      if !ok {
        return;
      }
    }
    OthersDone(written, p.threads, p.mainPid, order);
    ThreadsDone(start, h.State(), front, first, p.prstatus, order, all, target);
    return true;
  }

  method WriteUnlessMain(h: Handle, status: array<byte>, p: Process, i: nat, ghost start: View,
                         ghost front: seq<byte>, ghost first: seq<Note>, ghost so: seq<Thread>,
                         ghost order: seq<Thread>, ghost all: seq<Note>, ghost target: seq<byte>)
    returns (ok: bool, ghost written: seq<Thread>)
    requires i < |p.threads| && StatusOf(status[..], p.prstatus)
    requires OthersLeft(so, p.threads, i + 1, p.mainPid, order)
    requires ThreadsReached(start, h.State(), front, first, p.prstatus, so, order, all, target)
    modifies h, h.file, status
    ensures StatusOf(status[..], p.prstatus)
    ensures ok ==> OthersLeft(written, p.threads, i, p.mainPid, order)
    ensures ok ==> ThreadsReached(start, h.State(), front, first, p.prstatus, written, order, all, target)
    ensures !ok ==> Attempt(start, h.State(), target, false)
  {
    hide *;
    OthersStep(so, p.threads, i + 1, p.mainPid, order);
    ok, written := true, so;
    if p.threads[i].pid != p.mainPid {
      written := so + [p.threads[i]];
      ok := WriteOneThread(h, status, p.threads[i], p.prstatus, start, front, first, so, order, all, target);
    }
  }

  /** What is still to come after `written` are the other threads among the first `i`. */
  ghost predicate OthersLeft(written: seq<Thread>, ts: seq<Thread>, i: nat, pid: nat, order: seq<Thread>)
    requires i <= |ts|
  {
    written + ReversedWithout(ts[..i], pid) == order
  }

  lemma OthersStart(ts: seq<Thread>, pid: nat, order: seq<Thread>)
    requires order == DumpOrder(ts, pid)
    ensures OthersLeft(LastWith(ts, pid), ts, |ts|, pid, order)
  {
    assert ts[..|ts|] == ts;
  }

  lemma OthersStep(written: seq<Thread>, ts: seq<Thread>, i: nat, pid: nat, order: seq<Thread>)
    requires 0 < i <= |ts| && OthersLeft(written, ts, i, pid, order)
    ensures ts[i - 1].pid == pid ==> OthersLeft(written, ts, i - 1, pid, order)
    ensures ts[i - 1].pid != pid ==>
              OthersLeft(written + [ts[i - 1]], ts, i - 1, pid, order) && written + [ts[i - 1]] <= order
  {
    assert ts[..i][..i - 1] == ts[..i - 1];
    Assoc(written, [ts[i - 1]], ReversedWithout(ts[..i - 1], pid));
  }

  lemma OthersDone(written: seq<Thread>, ts: seq<Thread>, pid: nat, order: seq<Thread>)
    requires OthersLeft(written, ts, 0, pid, order)
    ensures written == order
  {
  }

  lemma ThreadsDone(start: View, now: View, front: seq<byte>, first: seq<Note>, status: seq<byte>,
                    order: seq<Thread>, all: seq<Note>, target: seq<byte>)
    requires ThreadsReached(start, now, front, first, status, order, order, all, target)
    ensures |status| == PRSTATUS_SIZE && forall t :: t in order ==> |t.regs| == REGS_SIZE
    ensures NotesReached(start, now, front, first + ThreadsNotes(status, order), all, target)
  {
  }

  // ---------- The rest of the section ----------

  method WriteUserNotes(h: Handle, notes: seq<UserNote>, ghost start: View, ghost front: seq<byte>,
                        ghost first: seq<Note>, ghost all: seq<Note>, ghost target: seq<byte>)
    returns (ok: bool)
    requires NotesReached(start, h.State(), front, first, all, target)
    requires first + UserNotes(notes) <= all
    modifies h, h.file
    ensures ok ==> NotesReached(start, h.State(), front, first + UserNotes(notes), all, target)
    ensures !ok ==> Attempt(start, h.State(), target, false)
  {
    hide EncodeNotes, EncodeNote, Attempt, Reached;
    var i := 0;
    assert first + UserNotes(notes)[..0] == first;
    while i < |notes|
      invariant i <= |notes|
      invariant NotesReached(start, h.State(), front, first + UserNotes(notes)[..i], all, target)
    {
      ghost var n := Note(notes[i].name, notes[i].ntype, notes[i].desc);
      assert first + UserNotes(notes)[..i + 1] == first + UserNotes(notes)[..i] + [n];
      NextNote(front, first + UserNotes(notes)[..i], n, all, target);
      ok := WriteUserNote(h, notes[i], start, front + EncodeNotes(first + UserNotes(notes)[..i]), target);
      if !ok {
        return;
      }
      i := i + 1;
    }
    assert UserNotes(notes)[..i] == UserNotes(notes);
    return true;
  }

  /** The auxiliary vector: one note, written entry by entry. */
  method WriteAuxv(h: Handle, auxv: seq<seq<byte>>, ghost start: View, ghost done: seq<byte>, ghost target: seq<byte>)
    returns (ok: bool)
    requires forall a :: a in auxv ==> |a| == AUXV_SIZE
    requires Reached(start, h.State(), done, target)
    requires done + EncodeNote(Note(CoreName(), NT_AUXV, Flatten(auxv))) <= target
    modifies h, h.file
    ensures Outcome(start, h.State(), done + EncodeNote(Note(CoreName(), NT_AUXV, Flatten(auxv))), target, ok)
  {
    hide EncodeNhdr, Attempt, Flatten;
    var header, name := EncodeNhdr(5, |auxv| * AUXV_SIZE, NT_AUXV), CoreName() + [0, 0, 0, 0];
    FlattenUniform(auxv, AUXV_SIZE);
    CorePieces(NT_AUXV, Flatten(auxv));
    hide EncodeNote;
    ThreePieces(header, name, Flatten(auxv), done, target);
    ok := Emit(h, header, start, done, target);
    if !ok {
      return;
    }
    ok := Emit(h, name, start, done + header, target);
    if !ok {
      return;
    }
    ghost var at := done + header + name;
    var i := 0;
    NothingFlattened(at, auxv);
    while i < |auxv|
      invariant i <= |auxv|
      invariant Reached(start, h.State(), at + Flatten(auxv[..i]), target)
    {
      NextPart(at, auxv, i, target);
      ok := Emit(h, auxv[i], start, at + Flatten(auxv[..i]), target);
      if !ok {
        return;
      }
      i := i + 1;
    }
    assert auxv[..i] == auxv;
    return true;
  }

  // ---------- The whole section ----------

  lemma SectionParts(p: Process) returns (a: seq<Note>, b: seq<Note>, c: seq<Note>, d: seq<Note>)
    requires p.Valid()
    ensures a == [] + [Note(CoreName(), NT_PRPSINFO, p.prpsinfo)] && b == a + UserPart(p) && c == b + AuxvPart(p)
    ensures d == c + ThreadsNotes(p.prstatus, DumpOrder(p.threads, p.mainPid))
    ensures CoreNotes(p) == d + UserNotes(p.notes)
    ensures a <= CoreNotes(p) && b <= CoreNotes(p) && c <= CoreNotes(p) && d <= CoreNotes(p)
  {
    a := [Note(CoreName(), NT_PRPSINFO, p.prpsinfo)];
    b := a + UserPart(p);
    c := b + AuxvPart(p);
    d := c + ThreadsNotes(p.prstatus, DumpOrder(p.threads, p.mainPid));
  }

  lemma StartNotes(start: View, now: View, front: seq<byte>, all: seq<Note>, target: seq<byte>)
    requires Reached(start, now, front, target) && front + EncodeNotes(all) <= target
    ensures NotesReached(start, now, front, [], all, target)
  {
    assert front + EncodeNotes([]) == front;
  }

  lemma DoneNotes(start: View, now: View, front: seq<byte>, all: seq<Note>, target: seq<byte>)
    requires NotesReached(start, now, front, all, all, target)
    ensures Reached(start, now, front + EncodeNotes(all), target)
  {
  }

  /** One note with the name CORE, in the state "notes reached". */
  method AddCoreNote(h: Handle, ntype: nat, desc: seq<byte>, ghost start: View, ghost front: seq<byte>,
                     ghost written: seq<Note>, ghost all: seq<Note>, ghost target: seq<byte>)
    returns (ok: bool)
    requires |desc| % 4 == 0
    requires NotesReached(start, h.State(), front, written, all, target)
    requires written + [Note(CoreName(), ntype, desc)] <= all
    modifies h, h.file
    ensures ok ==> NotesReached(start, h.State(), front, written + [Note(CoreName(), ntype, desc)], all, target)
    ensures !ok ==> Attempt(start, h.State(), target, false)
  {
    hide EncodeNote, EncodeNotes, Attempt, Reached;
    NextNote(front, written, Note(CoreName(), ntype, desc), all, target);
    ok := WriteCoreNote(h, ntype, desc, start, front + EncodeNotes(written), target);
  }

  method AddAuxv(h: Handle, p: Process, ghost start: View, ghost front: seq<byte>,
                 ghost written: seq<Note>, ghost all: seq<Note>, ghost target: seq<byte>)
    returns (ok: bool)
    requires p.Valid()
    requires NotesReached(start, h.State(), front, written, all, target)
    requires written + AuxvPart(p) <= all
    modifies h, h.file
    ensures ok ==> NotesReached(start, h.State(), front, written + AuxvPart(p), all, target)
    ensures !ok ==> Attempt(start, h.State(), target, false)
  {
    hide EncodeNote, EncodeNotes, Attempt, Reached, Flatten;
    if p.auxv == [] {
      assert written + AuxvPart(p) == written;
      return true;
    }
    NextNote(front, written, Note(CoreName(), NT_AUXV, Flatten(p.auxv)), all, target);
    ok := WriteAuxv(h, p.auxv, start, front + EncodeNotes(written), target);
  }

  method AddUser(h: Handle, p: Process, ghost start: View, ghost front: seq<byte>,
                 ghost written: seq<Note>, ghost all: seq<Note>, ghost target: seq<byte>)
    returns (ok: bool)
    requires p.Valid()
    requires NotesReached(start, h.State(), front, written, all, target)
    requires written + UserPart(p) <= all
    modifies h, h.file
    ensures ok ==> NotesReached(start, h.State(), front, written + UserPart(p), all, target)
    ensures !ok ==> Attempt(start, h.State(), target, false)
  {
    hide NotesReached, Attempt;
    if p.user.None? {
      assert written + UserPart(p) == written;
      return true;
    }
    ok := AddCoreNote(h, NT_PRXREG, p.user.value, start, front, written, all, target);
  }

  /** The note section, note by note; `a` to `d` are the notes up to and including each
      group. */
  method WriteNoteGroups(h: Handle, p: Process, ghost a: seq<Note>, ghost b: seq<Note>, ghost c: seq<Note>,
                         ghost d: seq<Note>, ghost all: seq<Note>,
                         ghost start: View, ghost front: seq<byte>, ghost target: seq<byte>)
    returns (ok: bool)
    requires p.Valid() && |p.prpsinfo| % 4 == 0
    requires a == [] + [Note(CoreName(), NT_PRPSINFO, p.prpsinfo)] && b == a + UserPart(p) && c == b + AuxvPart(p)
    requires d == c + ThreadsNotes(p.prstatus, DumpOrder(p.threads, p.mainPid)) && all == d + UserNotes(p.notes)
    requires a <= all && b <= all && c <= all && d <= all
    requires NotesReached(start, h.State(), front, [], all, target)
    modifies h, h.file
    ensures ok ==> NotesReached(start, h.State(), front, all, all, target)
    ensures !ok ==> Attempt(start, h.State(), target, false)
  {
    hide *;
    ok := AddCoreNote(h, NT_PRPSINFO, p.prpsinfo, start, front, [], all, target);
    if ok {
      ok := AddUser(h, p, start, front, a, all, target);
    }
    if ok {
      ok := AddAuxv(h, p, start, front, b, all, target);
    }
    if ok {
      ok := WriteThreads(h, p, start, front, c, all, target);
    }
    if ok {
      ok := WriteUserNotes(h, p.notes, start, front, d, all, target);
    }
  }

  method WriteNotes(h: Handle, p: Process, ghost start: View, ghost front: seq<byte>, ghost target: seq<byte>)
    returns (ok: bool)
    requires p.Valid()
    requires Reached(start, h.State(), front, target)
    requires front + EncodeNotes(CoreNotes(p)) <= target
    modifies h, h.file
    ensures Outcome(start, h.State(), front + EncodeNotes(CoreNotes(p)), target, ok)
  {
    ghost var a, b, c, d := SectionParts(p);
    hide CoreNotes, EncodeNotes, NotesReached, Reached, Attempt, ThreadsNotes, UserPart, AuxvPart, DumpOrder, UserNotes;
    StartNotes(start, h.State(), front, CoreNotes(p), target);
    ok := WriteNoteGroups(h, p, a, b, c, d, CoreNotes(p), start, front, target);
    if ok {
      DoneNotes(start, h.State(), front, CoreNotes(p), target);
    }
  }
}
