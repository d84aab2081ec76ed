/** `ListerThread`: finds and suspends all other threads of the process while those not
    yet suspended keep creating new ones, and can be interrupted by a signal at any
    step. */
module Lister {
  import opened Decimal
  import opened Kernel

  ghost function Elements(list: seq<int>): set<int> {
    set t | t in list
  }

  ghost predicate Distinct(list: seq<int>) {
    forall i, j :: 0 <= i < j < |list| ==> list[i] != list[j]
  }

  lemma {:induction false} DistinctCount(list: seq<int>)
    requires Distinct(list)
    ensures |Elements(list)| == |list|
  {
    if list != [] {
      var k := |list| - 1;
      DistinctCount(list[..k]);
      assert Elements(list) == Elements(list[..k]) + {list[k]};
    }
  }

  lemma NoElements()
    ensures Elements([]) == {}
  {
  }

  lemma SubsetCount(a: set<int>, b: set<int>)
    requires a <= b
    ensures |a| <= |b|
  {
    assert b == a + (b - a);
  }

  /** A list of distinct threads never outgrows the universe. */
  lemma RoomFor(list: seq<int>, universe: set<int>)
    requires Distinct(list) && Elements(list) <= universe
    ensures |list| <= |universe|
    ensures (exists t :: t in universe && t !in list) ==> |list| < |universe|
  {
    DistinctCount(list);
    SubsetCount(Elements(list), universe);
    if t :| t in universe && t !in list {
      SubsetCount(Elements(list) + {t}, universe);
    }
  }

  lemma HeldRoom(s: Setup, w: World, list: seq<int>, t: int)
    requires Held(s, w, list)
    ensures w.attached <= Elements(list) && |list| <= |s.universe|
    ensures t in s.universe && t !in list ==> |list| < |s.universe|
  {
    RoomFor(list, s.universe);
  }

  lemma HeldQuiet(s: Setup, w: World, list: seq<int>)
    requires Held(s, w, list)
    ensures w.quiet ==> w.attached == Elements(list)
  {
  }

  lemma Extended(list: seq<int>, t: int)
    ensures Elements(list + [t]) == Elements(list) + {t}
    ensures Distinct(list) && t !in list <==> Distinct(list + [t])
  {
    if Distinct(list + [t]) {
      var more := list + [t];
      assert forall i, j :: 0 <= i < j < |list| ==> list[i] == more[i] && list[j] == more[j];
      forall i | 0 <= i < |list|
        ensures list[i] != t
      {
        assert more[i] != more[|list|];
      }
    }
  }

  // ---------- Invariants ----------

  /** The list holds distinct threads, among them every attached one; in a quiet run
      they are exactly the attached ones, and all of them have stopped. */
  ghost predicate Held(s: Setup, w: World, list: seq<int>) {
    && Distinct(list) && Elements(list) <= s.universe && w.attached <= Elements(list)
    && (w.quiet ==> w.attached == Elements(list) && w.stopped == Elements(list))
  }

  /** How far a pass has come: the list as it was before the entry in hand, the threads
      whose entries have been handled, and the number of threads the pass has added. */
  datatype Progress = Progress(list: seq<int>, handled: set<int>, added: nat)

  /** As long as a quiet pass has added nothing, every thread that was there all along
      and whose entry was handled is in the list; and if all that were there all along
      are in the list, no others have appeared. */
  ghost predicate Going(s: Setup, w: World, g: Progress) {
    WellFormed(s, w) &&
    (w.quiet ==>
       && Elements(g.list) <= w.stopped && Elements(g.list) <= Ours(s, w)
       && (g.added == 0 ==>
             && Seen(s, w) * w.throughout * g.handled <= Elements(g.list)
             && (Seen(s, w) * w.throughout <= Elements(g.list) ==> Seen(s, w) <= w.throughout)))
  }

  /** `t` exists, and if it shares our memory it shows the marker. */
  ghost predicate Candidate(w: World, t: int) {
    w.quiet ==> t in w.live && (t in w.sharing ==> t in w.marked)
  }

  /** What the callback is promised: distinct threads, among them every attached one;
      and in a quiet run exactly the threads of ours that the directory shows have been
      suspended, none having escaped. */
  ghost predicate Suspended(s: Setup, w: World, list: seq<int>) {
    && WellFormed(s, w) && Held(s, w, list)
    && (w.quiet ==> Seen(s, w) <= Elements(list) <= Ours(s, w) && w.stopped == Elements(list))
  }

  lemma OursKept(s: Setup, a: World, b: World)
    requires KeepsSharing(a, b) && a.live <= b.live
    ensures forall t :: t in a.live ==> (t in Ours(s, a) <==> t in Ours(s, b))
    ensures Ours(s, a) <= Ours(s, b) && Ours(s, b) * a.live <= Ours(s, a)
  {
    assert forall t :: t in a.live ==> (t in Ours(s, a) <==> t in Ours(s, b));
  }

  lemma MeanwhileGoing(s: Setup, a: World, b: World, g: Progress)
    requires Meanwhile(s, a, b) && Going(s, a, g)
    ensures Going(s, b, g)
  {
    if b.quiet {
      OursKept(s, a, b);
      if g.added == 0 && Seen(s, b) * b.throughout <= Elements(g.list) {
        assert Seen(s, a) * a.throughout <= Elements(g.list);
        assert Seen(s, a) <= a.stopped;
        assert Ours(s, b) * s.listing[a.dir] <= a.live;
        assert Seen(s, b) <= Seen(s, a);
      }
    }
  }

  lemma MeanwhileCandidate(s: Setup, a: World, b: World, t: int)
    requires Meanwhile(s, a, b) && Candidate(a, t)
    ensures Candidate(b, t)
  {
  }

  lemma MeanwhileHeld(s: Setup, a: World, b: World, list: seq<int>)
    requires Meanwhile(s, a, b) && Held(s, a, list)
    ensures Held(s, b, list)
  {
  }

  lemma MeanwhileSuspended(s: Setup, a: World, b: World, list: seq<int>)
    requires Meanwhile(s, a, b) && Suspended(s, a, list)
    ensures Suspended(s, b, list)
  {
    if b.quiet {
      OursKept(s, a, b);
      assert Ours(s, b) * s.listing[a.dir] <= a.live;
    }
  }

  /** A pass that has reached its end without adding a thread has found them all. */
  lemma PassClosed(s: Setup, w: World, g: Progress)
    requires Going(s, w, g) && g.added == 0 && w.throughout <= g.handled
    requires Held(s, w, g.list)
    ensures Suspended(s, w, g.list)
  {
    if w.quiet {
      assert Seen(s, w) * w.throughout == Seen(s, w) * w.throughout * g.handled;
    }
  }

  /** Handling one more entry: the claim is kept if every thread it shows is in the
      list, or is not to be suspended. */
  lemma EntryHandled(s: Setup, w: World, g: Progress, shown: set<int>)
    requires Going(s, w, g)
    requires w.quiet ==> Seen(s, w) * w.throughout * shown <= Elements(g.list)
    ensures Going(s, w, g.(handled := g.handled + shown))
  {
    if w.quiet && g.added == 0 {
      var seen := Seen(s, w) * w.throughout;
      assert seen * (g.handled + shown) == seen * g.handled + seen * shown;
    }
  }

  lemma ListedAreOurs(s: Setup, w: World, g: Progress)
    requires Going(s, w, g)
    ensures w.quiet ==> Elements(g.list) <= w.stopped && Elements(g.list) <= Ours(s, w)
  {
  }

  lemma PassBegins(s: Setup, a: World, b: World, list: seq<int>, dir: nat)
    requires Rewound(s, a, b, dir) && WellFormed(s, b)
    requires a.quiet ==> Elements(list) <= a.stopped && Elements(list) <= Ours(s, a)
    ensures Going(s, b, Progress(list, {}, 0))
  {
  }

  /** Steps that leave everything alone the claim about the pass depends on. */
  ghost predicate Spares(a: World, b: World, list: seq<int>) {
    && b.live == a.live && b.marked == a.marked && b.sharing == a.sharing
    && b.dir == a.dir && b.throughout == a.throughout && b.stopped <= b.attached
    && (b.quiet ==> a.quiet && (Elements(list) <= a.stopped ==> Elements(list) <= b.stopped))
  }

  lemma SparedGoing(s: Setup, a: World, b: World, g: Progress)
    requires Spares(a, b, g.list) && Going(s, a, g)
    ensures Going(s, b, g)
  {
  }

  lemma SparedCandidate(a: World, b: World, list: seq<int>, t: int)
    requires Spares(a, b, list) && Candidate(a, t)
    ensures Candidate(b, t)
  {
  }

  lemma SameHeld(s: Setup, a: World, b: World, list: seq<int>)
    requires Held(s, a, list) && b.attached == a.attached && b.stopped == a.stopped && b.quiet == a.quiet
    ensures Held(s, b, list)
    ensures a.quiet ==> Elements(list) <= a.stopped
  {
  }

  /** The open directory is read no further. */
  ghost predicate SameStream(a: World, b: World) {
    b.dir == a.dir && b.returned == a.returned && b.budget == a.budget
  }

  lemma NamesParse(name: string, t: int)
    requires Names(name, t) && t > 0
    ensures var ptr := if name != "" && name[0] == '.' then name[1..] else name;
            ptr != "" && IsDigit(ptr[0]) && Number(ptr) == t
  {
    DigitsValue(t);
    assert IsDigit(Numeral(t)[0]);
    NumeralReadBack(t, "");
    assert Numeral(t) + "" == Numeral(t);
    assert ("." + Numeral(t))[1..] == Numeral(t);
  }

  /** The number an entry's name stands for; 0 if it cannot be a thread. */
  method PidOf(name: string) returns (pid: int)
    ensures forall t :: t > 0 && Names(name, t) ==> t == pid
  {
    var ptr := if name != "" && name[0] == '.' then name[1..] else name;
    forall t | t > 0 && Names(name, t)
      ensures ptr != "" && IsDigit(ptr[0]) && Number(ptr) == t
    {
      NamesParse(name, t);
    }
    if ptr == "" || !IsDigit(ptr[0]) {
      return 0;
    }
    pid := LocalAtoi(ptr);
  }

  /** What `PidOf` finds out about an entry. */
  ghost predicate Means(s: Setup, e: Entry, pid: int) {
    Sound(s) && (e.ino == 0 || forall t :: t > 0 && Names(e.name, t) ==> t == pid)
  }

  /** The entry does not lead to a thread with the marker. */
  lemma NotOurs(s: Setup, w: World, e: Entry, pid: int, g: Progress)
    requires Going(s, w, g) && Means(s, e, pid)
    requires pid == 0 || pid == s.lister || !exists t :: t in w.live && t in w.marked && Names(e.name, t)
    ensures Going(s, w, g.(handled := g.handled + TidsOf(s, e)))
  {
    EntryHandled(s, w, g, TidsOf(s, e));
  }

  /** The entry leads to a thread with the marker that does not share our memory. */
  lemma NotSharing(s: Setup, w: World, e: Entry, pid: int, g: Progress)
    requires Going(s, w, g) && Means(s, e, pid) && (w.quiet ==> pid !in w.sharing || pid in g.list)
    ensures Going(s, w, g.(handled := g.handled + TidsOf(s, e)))
  {
    EntryHandled(s, w, g, TidsOf(s, e));
  }

  /** The entry leads to a thread of ours, which has been suspended. */
  lemma Newly(s: Setup, w: World, e: Entry, pid: int, g: Progress)
    requires Going(s, w, g) && Candidate(w, pid) && pid != s.lister
    requires w.quiet ==> pid in w.sharing && pid in w.stopped
    ensures Going(s, w, Progress(g.list + [pid], g.handled + TidsOf(s, e), g.added + 1))
  {
    Extended(g.list, pid);
  }

  lemma MarkerOf(s: Setup, w: World, e: Entry, pid: int)
    requires WellFormed(s, w) && Means(s, e, pid) && e.ino != 0
    requires exists t :: t in w.live && t in w.marked && Names(e.name, t)
    ensures pid in s.universe && Candidate(w, pid)
  {
  }

  lemma NextTids(s: Setup, entries: seq<Entry>, k: nat, handled: set<int>)
    requires k < |entries|
    ensures handled + Tids(s, entries[..k]) + TidsOf(s, entries[k]) == handled + Tids(s, entries[..k + 1])
  {
    assert entries[..k + 1][..k] == entries[..k];
  }

  /** Nothing is claimed outside a pass. */
  const IDLE := Progress([], {}, 1)

  lemma Idles(s: Setup, w: World)
    requires WellFormed(s, w)
    ensures Going(s, w, IDLE)
  {
  }

  lemma FirstElement(list: seq<int>, k: nat)
    requires k < |list|
    ensures Elements(list[k..]) == {list[k]} + Elements(list[k + 1..])
  {
    assert list[k..] == [list[k]] + list[k + 1..];
  }

  /** How the passes ended: the state and the list they led to, and for the callback what
      it returned and which threads it left suspended. The run is abandoned without a
      callback if the parent is not on the list. */
  datatype Call =
    | NoCall
    | Abandoned(at: World, list: seq<int>)
    | Called(at: World, list: seq<int>, result: int, left: set<int>)

  /** The callback got what it was promised, and its result is passed on, unless it left
      threads suspended. */
  ghost predicate FaithfulCall(s: Setup, w: World, call: Call, result: int)
    requires call.Called?
  {
    && Suspended(s, call.at, call.list)
    && (call.left == {} ==> result == call.result)
    && (w.quiet && call.left != {} ==> result == -1)
    && (result == call.result || result == -1)
  }

  // ---------- Attempts ----------

  /** An attempt at one of the directories: it could not be opened, its threads outgrew
      the list, or its passes came to an end; with the threads kept on the list. */
  datatype Try =
    | NotOpened(dir: nat)
    | Outgrown(dir: nat, list: seq<int>)
    | Finished(dir: nat, list: seq<int>)

  /** The threads that were kept on a list in any of the attempts. */
  ghost function Kept(tries: seq<Try>): set<int> {
    if tries == [] then {}
    else
      var last := tries[|tries| - 1];
      Kept(tries[..|tries| - 1]) + if last.NotOpened? then {} else Elements(last.list)
  }

  /** Whether the attempts go on after `t`: not behind a list of more than one thread,
      and not behind the second directory, unless its list was outgrown. */
  predicate GoesOn(t: Try) {
    match t
    case NotOpened(dir) => dir == 0
    case Outgrown(_, _) => true
    case Finished(dir, list) => |list| <= 1 && dir == 0
  }

  /** The directory of the next attempt: the same again after a list was outgrown, and
      otherwise the next one. */
  function NextDir(tries: seq<Try>): nat {
    if tries == [] then 0
    else
      var last := tries[|tries| - 1];
      if last.Outgrown? then last.dir else last.dir + 1
  }

  /** Each attempt follows from the ones before. */
  predicate Successive(tries: seq<Try>) {
    tries == [] ||
    (var before, last := tries[..|tries| - 1], tries[|tries| - 1];
     Successive(before) && last.dir == NextDir(before) && (before != [] ==> GoesOn(before[|before| - 1])))
  }

  /** How a run that got to its end decided: it ended with the passes over a directory,
      and the callback was called exactly if the parent had been kept on a list. */
  ghost predicate Decided(s: Setup, tries: seq<Try>, call: Call)
    requires !call.NoCall?
  {
    && Ends(tries, call.at.dir, call.list)
    && (call.Called? <==> exists k :: 0 <= k < |tries| && !tries[k].NotOpened? && s.parent in tries[k].list)
  }

  lemma {:induction false} KeptIn(tries: seq<Try>, t: int)
    ensures t in Kept(tries) <==> exists k :: 0 <= k < |tries| && !tries[k].NotOpened? && t in tries[k].list
  {
    if tries != [] {
      var n := |tries| - 1;
      KeptIn(tries[..n], t);
      assert forall k :: 0 <= k < n ==> tries[..n][k] == tries[k];
    }
  }

  lemma NoTries()
    ensures LeadTo({}, [], 0)
  {
  }

  /** The attempts, in which the threads `kept` were kept, lead to this directory. */
  ghost predicate LeadTo(kept: set<int>, tries: seq<Try>, dir: nat) {
    && dir < 2 && kept == Kept(tries)
    && Successive(tries) && NextDir(tries) == dir && (tries != [] ==> GoesOn(tries[|tries| - 1]))
  }

  lemma LeadsSo(kept: set<int>, tries: seq<Try>, dir: nat)
    requires LeadTo(kept, tries, dir)
    ensures dir < 2 && Successive(tries)
  {
  }

  /** One more attempt, behind which they go on. */
  lemma GoingOn(kept: set<int>, tries: seq<Try>, dir: nat, t: Try)
    requires LeadTo(kept, tries, dir) && t.dir == dir && GoesOn(t)
    ensures LeadTo(kept + if t.NotOpened? then {} else Elements(t.list), tries + [t],
                   if t.Outgrown? then dir else dir + 1)
  {
    assert (tries + [t])[..|tries|] == tries;
  }

  /** One more attempt, behind which they do not. */
  lemma Ending(kept: set<int>, tries: seq<Try>, dir: nat, list: seq<int>)
    requires LeadTo(kept, tries, dir) && !GoesOn(Finished(dir, list))
    ensures var more := tries + [Finished(dir, list)];
            Successive(more) && Ends(more, dir, list) && Kept(more) == kept + Elements(list)
  {
    assert (tries + [Finished(dir, list)])[..|tries|] == tries;
  }

  /** The attempts ended with the passes over a directory. */
  predicate Ends(tries: seq<Try>, dir: nat, list: seq<int>) {
    tries != [] && tries[|tries| - 1] == Finished(dir, list) && !GoesOn(Finished(dir, list))
  }

  /** What follows an attempt. */
  datatype Verdict = Again(path: nat) | GiveUp | Conclude

  datatype Opening = Ready | Missing | Unreadable

  datatype Outcome = Broken | Grow | Done

  const SIGABRT := 6

  class Lister {
    const kernel: Machine
    var pids: array<int>
    var numThreads: nat
    var maxThreads: nat
    var added: nat
    var foundParent: bool
    /** The threads kept on the lists of earlier attempts. */
    ghost var earlier: set<int>
    var sigPids: array?<int>
    var sigNumThreads: int

    constructor (kernel: Machine)
      ensures this.kernel == kernel && fresh(pids)
      ensures numThreads == 0 && maxThreads == 0 && sigPids == null && sigNumThreads == 0
      ensures !foundParent && earlier == {}
    {
      this.kernel := kernel;
      pids := new int[0];
      numThreads, maxThreads, added, foundParent := 0, 0, 0, false;
      sigPids, sigNumThreads := null, 0;
      earlier := {};
    }

    ghost predicate PublishedOk()
      reads this, sigPids
    {
      sigPids != null ==> 0 <= sigNumThreads <= sigPids.Length
    }

    /** The list a signal handler would find. */
    ghost function Published(): seq<int>
      reads this, sigPids
      requires PublishedOk()
    {
      if sigPids == null then [] else sigPids[..sigNumThreads]
    }

    /** Every attached thread is in the published list: this holds between any two steps. */
    ghost predicate Recoverable()
      reads this, kernel, sigPids
    {
      kernel.Valid() && PublishedOk() && kernel.w.attached <= Elements(Published())
    }

    ghost function List(): seq<int>
      reads this, pids
      requires numThreads <= pids.Length
    {
      pids[..numThreads]
    }

    /** Between two directory entries. */
    ghost predicate Steady()
      reads this, kernel, pids
    {
      && kernel.Valid() && numThreads <= maxThreads == pids.Length
      && sigPids == pids && sigNumThreads == numThreads
      && Held(kernel.s, kernel.w, List())
      && (foundParent <==> kernel.s.parent in earlier || kernel.s.parent in List())
    }

    ghost function Now(handled: set<int>): Progress
      reads this, pids
      requires numThreads <= pids.Length
    {
      Progress(List(), handled, added)
    }

    /** Any step of the other threads, or a signal. */
    method Preempt(ghost g: Progress)
      requires Recoverable() && Going(kernel.s, kernel.w, g)
      modifies kernel
      ensures Recoverable() && Going(kernel.s, kernel.w, g) && Meanwhile(kernel.s, old(kernel.w), kernel.w)
      ensures SameStream(old(kernel.w), kernel.w) && kernel.w.attached <= old(kernel.w.attached)
      ensures kernel.w.quiet ==>
                && old(kernel.w.quiet)
                && kernel.w.attached == old(kernel.w.attached) && kernel.w.stopped == old(kernel.w.stopped)
    {
      kernel.Run();
      MeanwhileGoing(kernel.s, old(kernel.w), kernel.w, g);
    }

    /** Detaches from a thread that could not be waited for. */
    method LetGo(pid: int, ghost g: Progress)
      requires Recoverable() && Going(kernel.s, kernel.w, g) && Published() == g.list + [pid] && !kernel.w.quiet
      modifies kernel
      ensures Recoverable() && Going(kernel.s, kernel.w, g) && SameStream(old(kernel.w), kernel.w)
      ensures !kernel.w.quiet && kernel.w.attached <= Elements(g.list)
    {
      hide Meanwhile, Going;
      Extended(g.list, pid);
      ghost var w := kernel.w;
      var _ := kernel.Detach(pid);
      SparedGoing(kernel.s, w, kernel.w, g);
      Preempt(g);
    }

    /** Waits until an attached thread has stopped, or lets it go again. */
    method AwaitStop(pid: int, ghost g: Progress) returns (ok: bool)
      requires Recoverable() && Going(kernel.s, kernel.w, g) && Candidate(kernel.w, pid)
      requires Published() == g.list + [pid]
      requires kernel.w.quiet ==>
                 kernel.w.attached == Elements(g.list + [pid]) && kernel.w.stopped == Elements(g.list)
      modifies kernel
      ensures Recoverable() && Going(kernel.s, kernel.w, g) && (ok ==> Candidate(kernel.w, pid))
      ensures SameStream(old(kernel.w), kernel.w)
      ensures ok && kernel.w.quiet ==> kernel.w.attached == kernel.w.stopped == Elements(g.list + [pid])
      ensures !ok ==> !kernel.w.quiet && kernel.w.attached <= Elements(g.list)
    {
      hide Meanwhile, Going, Candidate, Distinct;
      Extended(g.list, pid);
      ghost var w := kernel.w;
      while true
        invariant Recoverable() && Going(kernel.s, kernel.w, g) && Candidate(kernel.w, pid)
        invariant SameStream(old(kernel.w), kernel.w)
        invariant kernel.w.quiet ==>
                    kernel.w.attached == Elements(g.list + [pid]) && kernel.w.stopped == Elements(g.list)
        decreases kernel.w.patience
      {
        w := kernel.w;
        Preempt(g);
        MeanwhileCandidate(kernel.s, w, kernel.w, pid);
        w := kernel.w;
        var answer := kernel.WaitFor(pid);
        SparedGoing(kernel.s, w, kernel.w, g);
        SparedCandidate(w, kernel.w, g.list, pid);
        if answer == Failed {
          LetGo(pid, g);
          return false;
        }
        if answer == Stopped {
          return true;
        }
      }
    }

    /** Publishes the thread, attaches to it and waits until it has stopped. If that
        fails the thread is taken off the list again. */
    method AttachThread(pid: int, ghost g: Progress) returns (ok: bool)
      requires Steady() && Going(kernel.s, kernel.w, g) && g.list == List() && Candidate(kernel.w, pid)
      requires pid in kernel.s.universe && pid !in List() && numThreads < maxThreads
      modifies this`numThreads, this`sigNumThreads, pids, kernel
      ensures numThreads <= maxThreads == pids.Length && sigNumThreads == numThreads
      ensures List() == g.list + if ok then [pid] else []
      ensures kernel.Valid() && Held(kernel.s, kernel.w, List())
      ensures Going(kernel.s, kernel.w, g) && (ok ==> Candidate(kernel.w, pid))
      ensures SameStream(old(kernel.w), kernel.w)
      ensures !ok ==> !kernel.w.quiet
    {
      hide Going, Candidate, Meanwhile;
      pids[numThreads] := pid;
      numThreads := numThreads + 1;
      assert pids[..sigNumThreads] == g.list && List() == g.list + [pid];
      Extended(g.list, pid);
      ghost var w := kernel.w;
      Preempt(g);
      MeanwhileCandidate(kernel.s, w, kernel.w, pid);
      sigNumThreads := numThreads;
      w := kernel.w;
      Preempt(g);
      MeanwhileCandidate(kernel.s, w, kernel.w, pid);
      w := kernel.w;
      ok := kernel.Attach(pid);
      SparedGoing(kernel.s, w, kernel.w, g);
      SparedCandidate(w, kernel.w, g.list, pid);
      if ok {
        ok := AwaitStop(pid, g);
      } else {
        w := kernel.w;
        Preempt(g);
      }
      if !ok {
        numThreads := numThreads - 1;
        sigNumThreads := numThreads;
        assert List() == g.list + [];
      }
    }

    /** Whether a stopped thread shares our memory: a variable of ours must read the
        same twice, with a different value the second time. */
    method SameAddressSpace(pid: int, ghost g: Progress) returns (same: bool)
      requires Recoverable() && Going(kernel.s, kernel.w, g) && Candidate(kernel.w, pid)
      requires kernel.w.quiet ==> pid in kernel.w.stopped
      modifies kernel
      ensures Recoverable() && Going(kernel.s, kernel.w, g) && Candidate(kernel.w, pid)
      ensures SameStream(old(kernel.w), kernel.w) && kernel.w.attached <= old(kernel.w.attached)
      ensures kernel.w.quiet ==>
                && old(kernel.w.quiet) && (same <==> pid in kernel.w.sharing)
                && kernel.w.attached == old(kernel.w.attached) && kernel.w.stopped == old(kernel.w.stopped)
    {
      var i: int := numThreads - 1;
      var ok, j := kernel.Peek(pid, i);
      if !ok || i != j {
        return false;
      }
      i := i + 1;
      ghost var w := kernel.w;
      Preempt(g);
      MeanwhileCandidate(kernel.s, w, kernel.w, pid);
      ok, j := kernel.Peek(pid, i);
      return ok && i == j;
    }

    method IsListed(pid: int) returns (found: bool)
      requires numThreads <= pids.Length
      ensures found <==> pid in List()
    {
      for i := 0 to numThreads
        invariant pid !in pids[..i]
      {
        if pids[i] == pid {
          assert List()[i] == pid;
          return true;
        }
      }
      return false;
    }

    /** Lets the last thread on the list go again: it is a forked child. */
    method Drop(pid: int, ghost g: Progress)
      requires 0 < numThreads <= maxThreads == pids.Length && sigPids == pids && sigNumThreads == numThreads
      requires List() == g.list + [pid] && pid !in g.list && kernel.Valid() && Held(kernel.s, kernel.w, List())
      requires Going(kernel.s, kernel.w, g)
      modifies this`numThreads, this`sigNumThreads, kernel
      ensures numThreads == old(numThreads) - 1 && sigNumThreads == numThreads && List() == g.list
      ensures kernel.Valid() && Held(kernel.s, kernel.w, List()) && Going(kernel.s, kernel.w, g)
      ensures SameStream(old(kernel.w), kernel.w)
    {
      Extended(g.list, pid);
      ghost var w := kernel.w;
      var _ := kernel.Detach(pid);
      SparedGoing(kernel.s, w, kernel.w, g);
      assert Held(kernel.s, kernel.w, g.list);
      w := kernel.w;
      Preempt(g);
      MeanwhileHeld(kernel.s, w, kernel.w, g.list);
      numThreads := numThreads - 1;
      sigNumThreads := numThreads;
      assert List() == g.list;
    }

    /** Counts the last thread on the list, which is one of ours. */
    method Keep(pid: int, ghost g: Progress)
      requires numThreads <= pids.Length && List() == g.list + [pid]
      requires foundParent <==> kernel.s.parent in earlier || kernel.s.parent in g.list
      modifies this`added, this`foundParent
      ensures foundParent <==> kernel.s.parent in earlier || kernel.s.parent in List()
      ensures added == old(added) + 1
    {
      foundParent := foundParent || pid == kernel.s.parent;
      added := added + 1;
    }

    /** Suspends a thread with the marker and, if it shares our memory, keeps it. */
    method Suspend(e: Entry, pid: int, ghost g: Progress)
      requires Steady() && Going(kernel.s, kernel.w, g) && g == Now(g.handled)
      requires Means(kernel.s, e, pid) && Candidate(kernel.w, pid) && pid != kernel.s.lister
      requires pid in kernel.s.universe && pid !in List() && numThreads < maxThreads
      modifies this`numThreads, this`sigNumThreads, this`added, this`foundParent, pids, kernel
      ensures Steady() && SameStream(old(kernel.w), kernel.w)
      ensures numThreads - added == old(numThreads) - old(added) && old(List()) <= List()
      ensures Going(kernel.s, kernel.w, Now(g.handled + TidsOf(kernel.s, e)))
    {
      hide Going, Candidate, Means, TidsOf, Meanwhile, Distinct;
      var ok := AttachThread(pid, g);
      if ok {
        Extended(g.list, pid);
        ok := SameAddressSpace(pid, g);
        if ok {
          Newly(kernel.s, kernel.w, e, pid, g);
          Keep(pid, g);
        } else {
          NotSharing(kernel.s, kernel.w, e, pid, g);
          Drop(pid, g.(handled := g.handled + TidsOf(kernel.s, e)));
        }
      } else {
        NotSharing(kernel.s, kernel.w, e, pid, g);
        assert g.list + [] == g.list;
      }
    }

    /** One directory entry. Returns true if there is no room left for a thread that
        should be suspended. */
    method HandleEntry(e: Entry, ghost handled: set<int>) returns (grow: bool)
      requires Steady() && Going(kernel.s, kernel.w, Now(handled))
      modifies this`numThreads, this`sigNumThreads, this`added, this`foundParent, pids, kernel
      ensures Steady() && SameStream(old(kernel.w), kernel.w)
      ensures numThreads - added == old(numThreads) - old(added) && old(List()) <= List()
      ensures grow ==> numThreads == maxThreads < |kernel.s.universe|
      ensures !grow ==> Going(kernel.s, kernel.w, Now(handled + TidsOf(kernel.s, e)))
    {
      hide Going, Meanwhile, Held, TidsOf, Candidate, Names;
      ghost var g := Now(handled);
      var pid := 0;
      if e.ino != 0 {
        pid := PidOf(e.name);
      }
      ghost var w := kernel.w;
      HeldRoom(kernel.s, w, g.list, pid);
      Preempt(g);
      MeanwhileHeld(kernel.s, w, kernel.w, g.list);
      var same := false;
      if pid != 0 && pid != kernel.s.lister {
        same := kernel.ShowsMarker(e.name);
      }
      if !same {
        NotOurs(kernel.s, kernel.w, e, pid, g);
        return false;
      }
      MarkerOf(kernel.s, kernel.w, e, pid);
      var duplicate := IsListed(pid);
      if duplicate {
        NotSharing(kernel.s, kernel.w, e, pid, g);
        return false;
      }
      if numThreads >= maxThreads {
        HeldRoom(kernel.s, kernel.w, List(), pid);
        return true;
      }
      Suspend(e, pid, g);
      return false;
    }

    /** The entries of one read. */
    method HandleEntries(entries: seq<Entry>, ghost handled: set<int>) returns (grow: bool)
      requires Steady() && Going(kernel.s, kernel.w, Now(handled))
      modifies this`numThreads, this`sigNumThreads, this`added, this`foundParent, pids, kernel
      ensures Steady() && SameStream(old(kernel.w), kernel.w)
      ensures numThreads - added == old(numThreads) - old(added) && old(List()) <= List()
      ensures grow ==> numThreads == maxThreads < |kernel.s.universe|
      ensures !grow ==> Going(kernel.s, kernel.w, Now(handled + Tids(kernel.s, entries)))
    {
      hide Going, Meanwhile, Held, TidsOf;
      assert handled + Tids(kernel.s, entries[..0]) == handled;
      for k := 0 to |entries|
        invariant Steady() && SameStream(old(kernel.w), kernel.w)
        invariant numThreads - added == old(numThreads) - old(added) && old(List()) <= List()
        invariant Going(kernel.s, kernel.w, Now(handled + Tids(kernel.s, entries[..k])))
      {
        grow := HandleEntry(entries[k], handled + Tids(kernel.s, entries[..k]));
        if grow {
          return;
        }
        NextTids(kernel.s, entries, k, handled);
      }
      assert entries[..|entries|] == entries;
      grow := false;
    }

    /** Goes back to the first entry, behind a pass that has added threads. */
    method NextPass(ghost handled: set<int>)
      requires Steady() && Going(kernel.s, kernel.w, Now(handled))
      modifies this`added, kernel
      ensures Steady() && Going(kernel.s, kernel.w, Now({})) && added == 0 && kernel.w.returned == {}
      ensures kernel.w.dir == old(kernel.w.dir) && List() == old(List())
    {
      hide Going, Meanwhile, Held, TidsOf, Tids, Elements, Distinct;
      ghost var w := kernel.w;
      ListedAreOurs(kernel.s, w, Now(handled));
      added := 0;
      kernel.Rewind();
      SameHeld(kernel.s, w, kernel.w, List());
      PassBegins(kernel.s, w, kernel.w, List(), w.dir);
    }

    /** Passes over the directory, until one of them adds nothing. Every pass but the
        last makes the list longer. */
    method ScanDirectory() returns (outcome: Outcome)
      requires Steady() && Going(kernel.s, kernel.w, Now({})) && added == 0 && kernel.w.returned == {}
      modifies this`numThreads, this`sigNumThreads, this`added, this`foundParent, pids, kernel
      ensures Steady() && kernel.w.dir == old(kernel.w.dir) && old(List()) <= List()
      ensures outcome == Done ==> Suspended(kernel.s, kernel.w, List())
      ensures outcome == Grow ==> numThreads == maxThreads < |kernel.s.universe|
      ensures outcome == Broken ==> kernel.w.broken
    {
      hide Going, Meanwhile, Held, TidsOf, Tids, Suspended, Elements, Distinct;
      ghost var handled, before := {}, numThreads;
      HeldRoom(kernel.s, kernel.w, List(), 0);
      while true
        invariant Steady() && Going(kernel.s, kernel.w, Now(handled)) && kernel.w.returned == handled
        invariant numThreads == before + added && kernel.w.dir == old(kernel.w.dir) && old(List()) <= List()
        invariant numThreads <= |kernel.s.universe|
        decreases |kernel.s.universe| - numThreads, added > 0, kernel.w.budget
      {
        ghost var g, w := Now(handled), kernel.w;
        HeldRoom(kernel.s, w, List(), 0);
        Preempt(g);
        MeanwhileHeld(kernel.s, w, kernel.w, List());
        w := kernel.w;
        var rc, entries := kernel.GetDents();
        SameHeld(kernel.s, w, kernel.w, List());
        if rc < 0 {
          return Broken;
        }
        if rc == 0 {
          if added == 0 {
            PassClosed(kernel.s, kernel.w, g);
            return Done;
          }
          before := numThreads;
          NextPass(handled);
          handled := {};
        } else {
          SparedGoing(kernel.s, w, kernel.w, g);
          var grow := HandleEntries(entries, handled);
          if grow {
            return Grow;
          }
          handled := handled + Tids(kernel.s, entries);
          HeldRoom(kernel.s, kernel.w, List(), 0);
        }
      }
    }

    /** `ResumeAllProcessThreads`: whether it had to resume any thread. */
    method ResumeAllProcessThreads(num: nat, list: array<int>) returns (detached: bool)
      requires num <= list.Length && Recoverable()
      modifies kernel
      ensures Recoverable() && kernel.w.killed == old(kernel.w.killed)
      ensures kernel.w.attached <= old(kernel.w.attached) - Elements(list[..num])
      ensures detached ==> old(kernel.w.attached) * Elements(list[..num]) != {}
      ensures kernel.w.quiet ==> (detached <==> old(kernel.w.attached) * Elements(list[..num]) != {})
      ensures kernel.w.quiet ==> old(kernel.w.quiet)
    {
      hide Meanwhile, Going;
      var n := num;
      detached := false;
      ghost var all, was := list[..num], kernel.w.attached;
      while n > 0
        invariant 0 <= n <= num && Recoverable() && kernel.w.killed == old(kernel.w.killed)
        invariant kernel.w.attached <= was - Elements(all[n..])
        invariant detached ==> was * Elements(all[n..]) != {}
        invariant kernel.w.quiet ==>
                    && old(kernel.w.quiet) && kernel.w.attached == was - Elements(all[n..])
                    && (was * Elements(all[n..]) != {} ==> detached)
      {
        n := n - 1;
        Idles(kernel.s, kernel.w);
        Preempt(IDLE);
        var ok := kernel.Detach(list[n]);
        detached := detached || ok;
        FirstElement(all, n);
        assert ok ==> list[n] in was * Elements(all[n..]);
      }
      assert all[0..] == all;
    }

    /** The callback may resume threads, or forget to. What it may rely on is its
        precondition. */
    method Callback(ghost list: seq<int>) returns (result: int)
      requires Recoverable() && Suspended(kernel.s, kernel.w, list)
      modifies kernel
      ensures Recoverable() && kernel.w.attached <= old(kernel.w.attached)
    {
      hide Meanwhile, Going;
      result := *;
      var resumed: seq<int> := *;
      for i := 0 to |resumed|
        invariant Recoverable() && kernel.w.attached <= old(kernel.w.attached)
      {
        Idles(kernel.s, kernel.w);
        Preempt(IDLE);
        var _ := kernel.Detach(resumed[i]);
      }
    }

    /** `SignalHandler`, entered between any two steps: a fault resumes all threads,
        an abort kills those on the list. */
    method SignalHandler(signum: int) returns (code: int)
      requires Recoverable()
      modifies this, kernel
      ensures kernel.w.attached == {} && sigPids == null && pids == old(pids)
      ensures signum == SIGABRT ==> kernel.w.killed == old(kernel.w.killed) + Elements(old(Published()))
      ensures signum != SIGABRT ==> kernel.w.killed == old(kernel.w.killed)
      ensures code == if signum == SIGABRT then 1 else 2
    {
      hide Meanwhile, Going;
      ghost var all := Published();
      if sigPids != null {
        if signum == SIGABRT {
          while sigNumThreads > 0
            invariant sigPids == old(sigPids) && pids == old(pids) && sigNumThreads <= old(sigNumThreads)
            invariant Recoverable() && 0 <= sigNumThreads <= |all| && Published() == all[..sigNumThreads]
            invariant kernel.w.killed == old(kernel.w.killed) + Elements(all[sigNumThreads..])
          {
            sigNumThreads := sigNumThreads - 1;
            kernel.Run();
            kernel.Kill(sigPids[sigNumThreads]);
            FirstElement(all, sigNumThreads);
          }
        } else if sigNumThreads > 0 {
          var _ := ResumeAllProcessThreads(sigNumThreads, sigPids);
        }
      }
      sigPids := null;
      code := if signum == SIGABRT then 1 else 2;
    }

    /** Ends the run: the callback, if the parent is among the suspended threads. */
    method Finish() returns (code: int, result: int, ghost call: Call)
      requires Steady() && Suspended(kernel.s, kernel.w, List())
      modifies kernel
      ensures Recoverable() && kernel.w.attached == {}
      ensures if foundParent then code == 0 && call.Called? else code == 3 && call.Abandoned? && result == -1
      ensures call.list == List() && call.at.dir == old(kernel.w.dir)
      ensures call.Called? ==> FaithfulCall(kernel.s, kernel.w, call, result)
      ensures call.Abandoned? ==> Suspended(kernel.s, call.at, call.list) && kernel.s.parent !in call.list
    {
      hide Meanwhile, Going, Held, Suspended;
      HeldRoom(kernel.s, kernel.w, List(), 0);
      ghost var w := kernel.w;
      if !foundParent {
        var _ := ResumeAllProcessThreads(numThreads, pids);
        return 3, -1, Abandoned(w, pids[..numThreads]);
      }
      Idles(kernel.s, kernel.w);
      Preempt(IDLE);
      MeanwhileSuspended(kernel.s, w, kernel.w, List());
      w := kernel.w;
      result := Callback(List());
      ghost var left := kernel.w.attached;
      call := Called(w, List(), result, left);
      var forgot := ResumeAllProcessThreads(numThreads, pids);
      assert left * Elements(List()) == left;
      if forgot {
        result := -1;
      }
      code := 0;
    }

    method BeginPass(count: nat)
      requires kernel.Valid() && kernel.w.attached == {} && numThreads == 0 && kernel.w.returned == {}
      requires foundParent <==> kernel.s.parent in earlier
      requires kernel.w.throughout == kernel.w.live * kernel.s.listing[kernel.w.dir]
      modifies this
      ensures Steady() && Going(kernel.s, kernel.w, Now({})) && fresh(pids)
      ensures added == 0 && numThreads == 0 && maxThreads >= old(maxThreads)
      ensures foundParent == old(foundParent) && earlier == old(earlier)
    {
      if maxThreads < count + 100 {
        maxThreads := count + 100;
      }
      pids := new int[maxThreads];
      added := 0;
      sigNumThreads, sigPids := numThreads, pids;
    }

    /** Opens a directory and begins a pass over it with an empty list, large enough for
        as many threads as it claims to have. */
    method OpenPath(path: nat) returns (opening: Opening)
      requires path < 2 && Recoverable() && kernel.w.attached == {} && numThreads == 0
      requires foundParent <==> kernel.s.parent in earlier
      modifies this, kernel
      ensures maxThreads >= old(maxThreads) && numThreads == 0
      ensures foundParent == old(foundParent) && earlier == old(earlier)
      ensures opening == Ready ==>
                && Steady() && kernel.w.dir == path && Going(kernel.s, kernel.w, Now({})) && fresh(pids)
                && added == 0 && kernel.w.returned == {}
      ensures opening != Ready ==> Recoverable() && kernel.w.attached == {} && sigPids == old(sigPids)
      ensures opening != Ready ==> maxThreads == old(maxThreads) && kernel.w.broken
    {
      hide Meanwhile, Going, Held;
      Idles(kernel.s, kernel.w);
      Preempt(IDLE);
      var ok := kernel.OpenDirectory(path);
      if !ok {
        return Missing;
      }
      var count: nat;
      ok, count := kernel.LinkCount();
      if !ok {
        return Unreadable;
      }
      BeginPass(count);
      return Ready;
    }

    /** Resumes all threads before another attempt with more room. */
    method DetachThreads()
      requires Steady()
      modifies this, kernel
      ensures Recoverable() && kernel.w.attached == {} && numThreads == 0 && sigPids == null
      ensures maxThreads == old(maxThreads) + 100 && earlier == old(earlier) + Elements(old(List()))
      ensures foundParent <==> kernel.s.parent in earlier
    {
      hide Meanwhile, Going, Held;
      HeldRoom(kernel.s, kernel.w, List(), 0);
      earlier := earlier + Elements(List());
      var _ := ResumeAllProcessThreads(numThreads, pids);
      sigPids, numThreads, sigNumThreads := null, 0, 0;
      maxThreads := maxThreads + 100;
    }

    /** Between two attempts: nothing is attached, and the attempts so far lead to this
        directory. */
    ghost predicate AtRest(tries: seq<Try>, path: nat)
      reads this, kernel, sigPids
    {
      && LeadTo(earlier, tries, path) && Recoverable() && kernel.w.attached == {} && numThreads == 0 && sigPids == null
      && (foundParent <==> kernel.s.parent in earlier)
    }

    /** The capacity the list still lacks to hold all threads there are. */
    ghost function Lacking(): nat
      reads this
    {
      if maxThreads < |kernel.s.universe| then |kernel.s.universe| - maxThreads else 0
    }

    /** What a verdict promises. */
    ghost predicate Judged(verdict: Verdict, tries: seq<Try>)
      reads this, kernel, pids, sigPids
    {
      match verdict
      case Again(path) => AtRest(tries, path)
      case GiveUp =>
        && Successive(tries) && Recoverable() && kernel.w.broken
        && (kernel.w.quiet ==> kernel.w.attached == Elements(Published()))
      case Conclude =>
        && Steady() && Suspended(kernel.s, kernel.w, List())
        && Successive(tries) && Ends(tries, kernel.w.dir, List()) && Kept(tries) == earlier + Elements(List())
    }

    /** The passes over an open directory, and what follows from them. */
    method TryOpened(path: nat, ghost so: seq<Try>) returns (verdict: Verdict, ghost tries: seq<Try>)
      requires LeadTo(earlier, so, path) && Steady() && kernel.w.dir == path && Going(kernel.s, kernel.w, Now({}))
      requires added == 0 && kernel.w.returned == {}
      modifies this, pids, kernel
      ensures Judged(verdict, tries)
      ensures verdict.Again? ==> verdict.path == path + 1 || (verdict.path == path && Lacking() < old(Lacking()))
    {
      hide Meanwhile, Going, Held, Suspended, Kept, NextDir, Successive, Elements, Distinct, LeadTo, Ends;
      LeadsSo(earlier, so, path);
      var outcome := ScanDirectory();
      HeldRoom(kernel.s, kernel.w, List(), 0);
      HeldQuiet(kernel.s, kernel.w, List());
      if outcome == Broken {
        return GiveUp, so;
      }
      verdict, tries := Again(path), so + [Outgrown(path, List())];
      if outcome == Done {
        tries := so + [Finished(path, List())];
        if numThreads > 1 || path + 1 == 2 {
          Ending(earlier, so, path, List());
          return Conclude, tries;
        }
        verdict := Again(path + 1);
      }
      GoingOn(earlier, so, path, tries[|so|]);
      DetachThreads();
    }

    /** One attempt at a directory. */
    method TryDirectory(path: nat, ghost so: seq<Try>) returns (verdict: Verdict, ghost tries: seq<Try>)
      requires AtRest(so, path)
      modifies this, kernel
      ensures Judged(verdict, tries)
      ensures verdict.Again? ==> verdict.path == path + 1 || (verdict.path == path && Lacking() < old(Lacking()))
    {
      hide Meanwhile, Going, Held, Suspended, Kept, GoesOn, NextDir, Successive, Elements, Distinct;
      NoElements();
      tries := so;
      var opening := OpenPath(path);
      if opening == Missing {
        verdict := GiveUp;
        if path + 1 < 2 {
          tries := so + [NotOpened(path)];
          GoingOn(earlier, so, path, NotOpened(path));
          verdict := Again(path + 1);
        }
      } else if opening == Unreadable {
        verdict := GiveUp;
      } else {
        verdict, tries := TryOpened(path, so);
      }
    }

    /** The lister thread, until it exits: 0 after the callback, 3 if the parent could
        not be suspended, 1 after a failure. */
    method ListerThread(marker: bool) returns (code: int, result: int, ghost call: Call, ghost tries: seq<Try>)
      requires kernel.Valid() && kernel.w.attached == {} && numThreads == 0 && sigPids == null
      requires !foundParent && earlier == {}
      modifies this, kernel
      ensures code == 0 || code == 1 || code == 3
      ensures (call.Called? <==> code == 0) && (call.Abandoned? <==> code == 3)
      ensures call.Called? ==> FaithfulCall(kernel.s, kernel.w, call, result)
      ensures call.Abandoned? ==> Suspended(kernel.s, call.at, call.list) && kernel.s.parent !in call.list
      ensures Successive(tries) && (!call.NoCall? ==> Decided(kernel.s, tries, call))
      ensures code == 1 ==> !marker || kernel.w.broken
      ensures Recoverable() && (code != 1 ==> kernel.w.attached == {})
      ensures code == 1 && kernel.w.quiet ==> kernel.w.attached == Elements(Published())
    {
      hide Meanwhile, Going, Held, Suspended, FaithfulCall, Kept, GoesOn, NextDir;
      tries := [];
      NoTries();
      if !marker {
        return 1, -1, NoCall, tries;
      }
      var path := 0;
      while true
        invariant AtRest(tries, path)
        decreases 2 - path, Lacking()
      {
        var verdict: Verdict;
        verdict, tries := TryDirectory(path, tries);
        match verdict
        case Again(next) => path := next;
        case GiveUp => return 1, -1, NoCall, tries;
        case Conclude =>
          code, result, call := Finish();
          KeptIn(tries, kernel.s.parent);
          return;
      }
    }
  }
}
