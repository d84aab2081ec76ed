/** The table of a simple leak watch, and what it says about the allocations of the
    watched program. */
module LeakTable {
  import opened Bytes

  /** A table entry: the latest size, the backtrace of the original allocation, and the
      one of the latest reallocation. Backtraces are numbered. */
  datatype Entry = Entry(size: nat, origin: nat, last: Option<nat>)

  type Table = map<int, Entry>

  /** What watches are told. */
  datatype Alert =
    | MallocAlert(ptr: int, size: nat)
    | ReallocAlert(from: int, ptr: int, size: nat)
    | FreeAlert(from: int)

  /** `_tinu_leakwatch_simple_callback`, on a table. */
  function OnAlert(t: Table, a: Alert, trace: nat): Table {
    match a
    case MallocAlert(ptr, size) => t[ptr := Entry(size, trace, None)]
    case ReallocAlert(from, ptr, size) =>
      if from !in t then t
      else (t - {from})[ptr := Entry(size, t[from].origin, Some(trace))]
    case FreeAlert(from) => t - {from}
  }

  /** The allocator calls of the program, with their results; 0 is NULL. */
  datatype Event =
    | Malloc(size: nat, res: int)
    | Realloc(from: int, size: nat, res: int)
    | Free(ptr: int)

  /** Only a call that returns memory, or frees it, leads to an alert. */
  function AlertOf(e: Event): Option<Alert> {
    match e
    case Malloc(size, res) => if res == 0 then None else Some(MallocAlert(res, size))
    case Realloc(from, size, res) => if res == 0 then None else Some(ReallocAlert(from, res, size))
    case Free(ptr) => Some(FreeAlert(ptr))
  }

  function TableStep(t: Table, e: Event, i: nat): Table {
    match AlertOf(e)
    case None => t
    case Some(a) => OnAlert(t, a, i)
  }

  /** The table of a watch that has seen the events; event `i` has backtrace `i`. */
  function TableAfter(events: seq<Event>): Table {
    if events == [] then map[]
    else TableStep(TableAfter(events[..|events| - 1]), events[|events| - 1], |events| - 1)
  }

  // ---------- The allocator ----------

  /** A live block: its size, the event of the malloc its chain of reallocations goes
      back to, if that was observed, and the event of the latest reallocation. */
  datatype Block = Block(size: nat, origin: Option<nat>, last: Option<nat>)

  type Blocks = map<int, Block>

  /** What the allocator does: a failed call does nothing, except that shrinking a block
      to size 0 frees it and returns NULL. */
  function LiveStep(live: Blocks, e: Event, i: nat): Blocks {
    match e
    case Malloc(size, res) => if res == 0 then live else live[res := Block(size, Some(i), None)]
    case Realloc(from, size, res) =>
      if res == 0 then (if size == 0 then live - {from} else live)
      else if from !in live then live[res := Block(size, None, None)]
      else (live - {from})[res := Block(size, live[from].origin, Some(i))]
    case Free(ptr) => live - {ptr}
  }

  /** The live blocks after the events; those from before have an unknown origin. */
  function LiveAfter(before: set<int>, events: seq<Event>): Blocks {
    if events == [] then map p | p in before :: Block(0, None, None)
    else LiveStep(LiveAfter(before, events[..|events| - 1]), events[|events| - 1], |events| - 1)
  }

  /** A call the allocator and its caller agree on: memory handed out is not live, except
      for a block reallocated in place, and only live blocks are given back. */
  predicate Proper(live: Blocks, e: Event) {
    match e
    case Malloc(_, res) => res != 0 ==> res !in live
    case Realloc(from, size, res) =>
      && (from == 0 || from in live)
      && (res != 0 ==> res == from || res !in live)
      && (from != 0 && size == 0 ==> res == 0)
    case Free(ptr) => ptr == 0 || ptr in live
  }

  ghost predicate ProperTrace(before: set<int>, events: seq<Event>) {
    0 !in before && forall i :: 0 <= i < |events| ==> Proper(LiveAfter(before, events[..i]), events[i])
  }

  /** The live blocks whose chain began with an observed malloc, as table entries. */
  function Watched(live: Blocks): Table {
    map p | p in live && live[p].origin.Some? :: Entry(live[p].size, live[p].origin.value, live[p].last)
  }

  /** A watched block is shrunk to size 0. */
  predicate Vanishes(live: Blocks, e: Event) {
    e.Realloc? && e.size == 0 && e.res == 0 && e.from in Watched(live)
  }

  lemma NullIsNotLive(before: set<int>, events: seq<Event>)
    requires 0 !in before
    ensures 0 !in LiveAfter(before, events)
  {
  }

  lemma StepAgrees(live: Blocks, e: Event, i: nat)
    requires Proper(live, e) && 0 !in live && !Vanishes(live, e)
    ensures TableStep(Watched(live), e, i) == Watched(LiveStep(live, e, i))
  {
  }

  lemma StepDisagrees(live: Blocks, e: Event, i: nat)
    requires Vanishes(live, e)
    ensures e.from in TableStep(Watched(live), e, i) && e.from !in Watched(LiveStep(live, e, i))
  {
  }

  /** The table agrees with the allocator after every event if, and only if, no watched
      block is ever shrunk to size 0. */
  lemma {:induction false} TableAgrees(before: set<int>, events: seq<Event>)
    requires ProperTrace(before, events)
    ensures (forall k :: 0 <= k <= |events| ==> TableAfter(events[..k]) == Watched(LiveAfter(before, events[..k])))
            <==> (forall i :: 0 <= i < |events| ==> !Vanishes(LiveAfter(before, events[..i]), events[i]))
  {
    if forall i :: 0 <= i < |events| ==> !Vanishes(LiveAfter(before, events[..i]), events[i]) {
      forall k | 0 <= k <= |events|
        ensures TableAfter(events[..k]) == Watched(LiveAfter(before, events[..k]))
      {
        AgreesUpTo(before, events, k);
      }
    } else {
      var i :| 0 <= i < |events| && Vanishes(LiveAfter(before, events[..i]), events[i]);
      var live, e := LiveAfter(before, events[..i]), events[i];
      assert events[..i + 1][..i] == events[..i];
      StepDisagrees(live, e, i);
      assert TableAfter(events[..i]) != Watched(live)
             || TableAfter(events[..i + 1]) != Watched(LiveAfter(before, events[..i + 1]));
    }
  }

  lemma {:induction false} AgreesUpTo(before: set<int>, events: seq<Event>, k: nat)
    requires ProperTrace(before, events) && k <= |events|
    requires forall i :: 0 <= i < |events| ==> !Vanishes(LiveAfter(before, events[..i]), events[i])
    ensures TableAfter(events[..k]) == Watched(LiveAfter(before, events[..k]))
  {
    if k > 0 {
      AgreesUpTo(before, events, k - 1);
      assert events[..k][..k - 1] == events[..k - 1];
      NullIsNotLive(before, events[..k - 1]);
      StepAgrees(LiveAfter(before, events[..k - 1]), events[k - 1], k - 1);
    } else {
      assert events[..0] == [];
    }
  }

  /** A block shrunk to size 0 stays in the table although it is gone. */
  lemma ShrinkingToNothingIsMissed()
    ensures var events := [Malloc(8, 100), Realloc(100, 0, 0)];
            && ProperTrace({}, events)
            && TableAfter(events) == map[100 := Entry(8, 0, None)]
            && LiveAfter({}, events) == map[]
  {
    var events := [Malloc(8, 100), Realloc(100, 0, 0)];
    var one := [Malloc(8, 100)];
    assert events[..0] == [] && events[..1] == one && one[..0] == [];
    assert TableAfter(one) == map[100 := Entry(8, 0, None)];
    assert LiveAfter({}, one) == map[100 := Block(8, Some(0), None)];
  }

  // ---------- The summary ----------

  lemma Inhabited(s: set<int>)
    ensures s == {} || exists p :: p in s
  {
    if forall p :: p !in s {
      assert s == {};
    }
  }

  /** The sum of the sizes in a table. */
  ghost function Total(t: Table): nat {
    if t.Keys == {} then 0
    else
      Inhabited(t.Keys);
      var p :| p in t.Keys;
      t[p].size + Total(t - {p})
  }

  lemma {:induction false} TotalWithout(t: Table, p: int)
    requires p in t
    ensures Total(t) == t[p].size + Total(t - {p})
    decreases |t|
  {
    var q :| q in t.Keys && Total(t) == t[q].size + Total(t - {q});
    if q != p {
      TotalWithout(t - {q}, p);
      TotalWithout(t - {p}, q);
      assert t - {q} - {p} == t - {p} - {q};
    }
  }

  lemma TotalWith(t: Table, p: int, e: Entry)
    ensures Total(t[p := e]) == e.size + Total(t - {p})
  {
    TotalWithout(t[p := e], p);
    assert t[p := e] - {p} == t - {p};
  }

  /** `tinu_leakwatch_summary`: adds the sizes up in whatever order the table has. */
  method Summary(t: Table) returns (sum: nat)
    ensures sum == Total(t)
  {
    sum := 0;
    var left := t;
    while left.Keys != {}
      invariant sum + Total(left) == Total(t)
      decreases |left|
    {
      Inhabited(left.Keys);
      var p :| p in left.Keys;
      TotalWithout(left, p);
      sum := sum + left[p].size;
      left := left - {p};
    }
  }

  function SizeAt(live: Blocks, p: int): nat {
    if p in Watched(live) then live[p].size else 0
  }

  /** By how much an event changes the memory held by watched blocks. */
  function Growth(live: Blocks, e: Event): int {
    match e
    case Malloc(size, res) => if res == 0 then 0 else size
    case Realloc(from, size, res) => if res == 0 || from !in Watched(live) then 0 else size - SizeAt(live, from)
    case Free(ptr) => -(SizeAt(live, ptr) as int)
  }

  /** What the events have left allocated of the memory they have allocated themselves. */
  function Outstanding(before: set<int>, events: seq<Event>): int {
    if events == [] then 0
    else
      var k := |events| - 1;
      Outstanding(before, events[..k]) + Growth(LiveAfter(before, events[..k]), events[k])
  }

  /** As long as the table agrees with the allocator, the summary is what has been
      allocated less what has been given back. */
  lemma {:induction false} SummaryIsBalance(before: set<int>, events: seq<Event>)
    requires ProperTrace(before, events)
    requires forall i :: 0 <= i < |events| ==> !Vanishes(LiveAfter(before, events[..i]), events[i])
    ensures Total(TableAfter(events)) == Outstanding(before, events)
  {
    hide Proper, Vanishes, Watched, LiveAfter, TableStep, Growth, LiveStep;
    if events != [] {
      var k := |events| - 1;
      var live, e := LiveAfter(before, events[..k]), events[k];
      forall i | 0 <= i < k
        ensures events[..k][..i] == events[..i]
      {
      }
      SummaryIsBalance(before, events[..k]);
      AgreesUpTo(before, events, k);
      NullIsNotLive(before, events[..k]);
      assert Proper(LiveAfter(before, events[..k]), events[k]);
      TotalStep(e, k, live);
    }
  }

  lemma TotalStep(e: Event, i: nat, live: Blocks)
    requires 0 !in live && Proper(live, e)
    ensures Total(TableStep(Watched(live), e, i)) == Total(Watched(live)) + Growth(live, e)
  {
    hide Total;
    var t := Watched(live);
    match e
    case Malloc(size, res) =>
      if res != 0 {
        TotalWith(t, res, Entry(size, i, None));
        assert t - {res} == t;
      }
    case Realloc(from, size, res) =>
      if res != 0 && from in t {
        TotalWith(t - {from}, res, Entry(size, t[from].origin, Some(i)));
        assert t - {from} - {res} == t - {from};
        TotalWithout(t, from);
      }
    case Free(ptr) =>
      if ptr in t {
        TotalWithout(t, ptr);
      } else {
        assert t - {ptr} == t;
      }
  }
}
