/** The kernel as the thread lister sees it: which threads exist and are suspended, and
    a directory of them that changes while it is being read. */
module Kernel {
  import opened Decimal

  /** What stays the same: every thread id that may ever be in use, the lister's own id
      and its parent's, and which ids each of the searched directories would show. */
  datatype Setup = Setup(universe: set<int>, lister: int, parent: int, listing: seq<set<int>>)

  /** The changing part. A thread is one of ours if it shows the marker and shares the
      address space; a forked child shows the marker but has a copy of the memory, in
      which the probed variable holds its own value. `quiet` says that so far no thread
      has exited and no call on a thread has failed; `broken`, that a call on a directory
      has. The last fields describe the open directory: what has been in it since the
      pass began, what the pass returned, and how many more reads and interruptions
      there can be. */
  datatype World = World(live: set<int>, marked: set<int>, sharing: set<int>, copies: map<int, int>,
                         attached: set<int>, stopped: set<int>, killed: set<int>, quiet: bool,
                         broken: bool, dir: nat, throughout: set<int>, returned: set<int>, budget: nat, patience: nat)

  datatype Entry = Entry(name: string, ino: nat)

  datatype WaitAnswer = Stopped | Interrupted | Failed

  predicate Sound(s: Setup) {
    |s.listing| == 2 && forall t :: t in s.universe ==> t > 0
  }

  predicate WellFormed(s: Setup, w: World) {
    && w.live <= s.universe && w.stopped <= w.attached
    && w.dir < |s.listing| && w.throughout <= w.live * s.listing[w.dir]
  }

  /** The threads to be suspended. */
  function Ours(s: Setup, w: World): set<int> {
    w.live * w.marked * w.sharing - {s.lister}
  }

  /** Those of them that the open directory shows. */
  function Seen(s: Setup, w: World): set<int>
    requires w.dir < |s.listing|
  {
    Ours(s, w) * s.listing[w.dir]
  }

  function CopyOf(w: World, t: int): int {
    if t in w.copies then w.copies[t] else 0
  }

  /** A thread keeps what it shares; only a process with its own memory may drop the
      marker, by an exec. */
  predicate KeepsSharing(a: World, b: World) {
    && (forall t :: t in a.live ==> (t in a.sharing <==> t in b.sharing))
    && (forall t :: t in a.live && t in a.sharing ==> (t in a.marked <==> t in b.marked))
    && forall t :: t in a.stopped ==> CopyOf(b, t) == CopyOf(a, t)
  }

  /** A new thread of ours shows up in a directory only if one that shows there, too,
      has not been stopped and could create it. */
  predicate SpawnsOnlyFromRunning(s: Setup, a: World, b: World) {
    forall d :: 0 <= d < |s.listing| && Ours(s, a) * s.listing[d] <= a.stopped ==>
      Ours(s, b) * s.listing[d] <= a.live
  }

  /** What all other threads may do between two steps of the lister. Threads can exit,
      suspended or not, but then the run is no longer quiet. */
  predicate Meanwhile(s: Setup, a: World, b: World) {
    && WellFormed(s, b)
    && b.attached <= a.attached && b.stopped <= a.stopped && b.killed == a.killed
    && b.broken == a.broken && b.dir == a.dir && b.throughout == a.throughout * b.live
    && b.returned == a.returned && b.budget == a.budget && b.patience == a.patience
    && (b.quiet ==>
          && a.quiet && a.live <= b.live && b.attached == a.attached && b.stopped == a.stopped
          && KeepsSharing(a, b) && SpawnsOnlyFromRunning(s, a, b))
  }

  /** The names under which a directory may show a thread: some kernels hide threads
      behind a dot. */
  predicate Names(name: string, t: int) {
    name == Numeral(t) || name == "." + Numeral(t)
  }

  function TidsOf(s: Setup, e: Entry): set<int> {
    set t | t in s.universe && e.ino != 0 && Names(e.name, t)
  }

  /** The threads shown by a list of entries; entries without an inode are void. */
  function Tids(s: Setup, entries: seq<Entry>): set<int> {
    if entries == [] then {} else Tids(s, entries[..|entries| - 1]) + TidsOf(s, entries[|entries| - 1])
  }

  /** A pass over a directory begins. */
  ghost predicate Rewound(s: Setup, a: World, b: World, dir: nat) {
    dir < |s.listing| && b == a.(dir := dir, throughout := a.live * s.listing[dir], returned := {}, budget := b.budget)
  }

  /** Every method's contract bounds what the kernel may answer; the bodies pick any
      such answer. */
  class Machine {
    const s: Setup
    var w: World

    ghost predicate Valid()
      reads this
    {
      Sound(s) && WellFormed(s, w)
    }

    constructor (s: Setup, w: World)
      requires Sound(s) && WellFormed(s, w)
      ensures Valid() && this.s == s && this.w == w
    {
      this.s, this.w := s, w;
    }

    method Run()
      requires Valid()
      modifies this
      ensures Valid() && Meanwhile(s, old(w), w)
    {
      var b: World := *;
      if Meanwhile(s, w, b) {
        w := b;
      }
    }

    method OpenDirectory(dir: nat) returns (ok: bool)
      requires Valid() && dir < |s.listing|
      modifies this
      ensures Valid()
      ensures if ok then Rewound(s, old(w), w, dir) else w == old(w).(broken := true)
    {
      ok := *;
      if ok {
        var budget: nat := *;
        w := w.(dir := dir, throughout := w.live * s.listing[dir], returned := {}, budget := budget);
      } else {
        w := w.(broken := true);
      }
    }

    method Rewind()
      requires Valid()
      modifies this
      ensures Valid() && Rewound(s, old(w), w, old(w.dir))
    {
      var budget: nat := *;
      w := w.(throughout := w.live * s.listing[w.dir], returned := {}, budget := budget);
    }

    /** `fstat` of the open directory. */
    method LinkCount() returns (ok: bool, count: nat)
      requires Valid()
      modifies this
      ensures Valid()
      ensures w == if ok then old(w) else old(w).(broken := true)
    {
      ok, count := *, *;
      if !ok {
        w := w.(broken := true);
      }
    }

    /** `getdents`: an error, the end, or some entries. A pass that has reached the end
        has returned every thread that was in the directory all the time; others may
        or may not be returned, and any of them more than once. */
    method GetDents() returns (rc: int, entries: seq<Entry>)
      requires Valid()
      modifies this
      ensures Valid()
      ensures rc < 0 ==> w == old(w).(broken := true)
      ensures rc == 0 ==> w == old(w) && w.throughout <= w.returned
      ensures rc > 0 ==>
                && w.budget < old(w.budget)
                && w == old(w).(returned := old(w.returned) + Tids(s, entries), budget := w.budget)
    {
      var es: seq<Entry> := *;
      rc, entries := -1, [];
      if es != [] && w.budget > 0 {
        rc, entries := |es|, es;
        w := w.(returned := w.returned + Tids(s, es), budget := w.budget - 1);
      } else if w.throughout <= w.returned {
        rc := 0;
      } else {
        w := w.(broken := true);
      }
    }

    /** `stat` of the marker below an entry, and the comparison with our marker. */
    method ShowsMarker(name: string) returns (same: bool)
      requires Valid()
      ensures same <==> exists t :: t in w.live && t in w.marked && Names(name, t)
    {
      same := exists t :: t in w.live && t in w.marked && Names(name, t);
    }

    method Attach(pid: int) returns (ok: bool)
      requires Valid()
      modifies this
      ensures Valid()
      ensures w == if ok then old(w).(attached := old(w.attached) + {pid}) else old(w).(quiet := false)
    {
      ok := *;
      if ok {
        w := w.(attached := w.attached + {pid});
      } else {
        w := w.(quiet := false);
      }
    }

    /** `waitpid` */
    method WaitFor(pid: int) returns (a: WaitAnswer)
      requires Valid()
      modifies this
      ensures Valid()
      ensures a == Stopped ==> w == old(w).(stopped := old(w.stopped) + {pid} * old(w.attached))
      ensures a == Failed ==> w == old(w).(quiet := false)
      ensures a == Interrupted ==> w.patience < old(w.patience) && w == old(w).(patience := w.patience)
    {
      a := *;
      if a == Interrupted && w.patience == 0 {
        a := Failed;
      }
      match a
      case Stopped => w := w.(stopped := w.stopped + {pid} * w.attached);
      case Failed => w := w.(quiet := false);
      case Interrupted => w := w.(patience := w.patience - 1);
    }

    /** `PTRACE_PEEKDATA` of a variable of ours. */
    method Peek(pid: int, value: int) returns (ok: bool, seen: int)
      requires Valid()
      modifies this
      ensures Valid()
      ensures w == if ok then old(w) else old(w).(quiet := false)
      ensures ok ==> seen == if pid in w.sharing then value else CopyOf(w, pid)
    {
      ok := *;
      seen := if pid in w.sharing then value else CopyOf(w, pid);
      if !ok {
        w := w.(quiet := false);
      }
    }

    /** Succeeds for threads that are attached, unless they exited. */
    method Detach(pid: int) returns (ok: bool)
      requires Valid()
      modifies this
      ensures Valid()
      ensures w == old(w).(attached := old(w.attached) - {pid}, stopped := old(w.stopped) - {pid})
      ensures ok ==> pid in old(w.attached)
      ensures w.quiet && pid in old(w.attached) ==> ok
    {
      ok := *;
      ok := (w.quiet || ok) && pid in w.attached;
      w := w.(attached := w.attached - {pid}, stopped := w.stopped - {pid});
    }

    method Kill(pid: int)
      requires Valid()
      modifies this
      ensures Valid()
      ensures w == old(w).(killed := old(w.killed) + {pid}, quiet := false,
                           attached := old(w.attached) - {pid}, stopped := old(w.stopped) - {pid},
                           live := old(w.live) - {pid}, throughout := old(w.throughout) - {pid})
    {
      w := w.(killed := w.killed + {pid}, quiet := false,
              attached := w.attached - {pid}, stopped := w.stopped - {pid},
              live := w.live - {pid}, throughout := w.throughout - {pid});
    }
  }
}
