/** Leak watches: their tables share reference-counted backtraces, and they share the
    hooks of the allocator. */
module Leakwatch {
  import opened Bytes
  import opened LeakTable

  // ---------- References ----------

  /** The backtraces an entry refers to. */
  function Owned(e: Entry): multiset<nat> {
    multiset{e.origin} + if e.last.Some? then multiset{e.last.value} else multiset{}
  }

  /** The entries, in all tables, whose original allocation has backtrace `b`. */
  ghost function Origins(tables: map<int, Table>, b: nat): set<(int, int)> {
    set w, p | w in tables && p in tables[w] && tables[w][p].origin == b :: (w, p)
  }

  /** Those whose latest reallocation has. */
  ghost function Lasts(tables: map<int, Table>, b: nat): set<(int, int)> {
    set w, p | w in tables && p in tables[w] && tables[w][p].last == Some(b) :: (w, p)
  }

  /** Every backtrace that exists counts exactly the references to it: those in the tables
      and those in `held`, which local variables hold. None without references exists. */
  ghost predicate Balanced(counts: map<nat, nat>, tables: map<int, Table>, held: multiset<nat>) {
    forall b: nat :: Counted(counts, tables, held, b)
  }

  ghost predicate Counted(counts: map<nat, nat>, tables: map<int, Table>, held: multiset<nat>, b: nat) {
    var refs := |Origins(tables, b)| + |Lasts(tables, b)| + held[b];
    if b in counts then counts[b] == refs > 0 else refs == 0
  }

  function With(tables: map<int, Table>, w: int, p: int, e: Entry): map<int, Table>
    requires w in tables
  {
    tables[w := tables[w][p := e]]
  }

  /** The entries that are there after one has been put in. */
  lemma EntriesWith(tables: map<int, Table>, w: int, p: int, e: Entry, u: int, q: int)
    requires w in tables && p !in tables[w]
    ensures var more := With(tables, w, p, e);
            && ((u in more && q in more[u]) <==> (u == w && q == p) || (u in tables && q in tables[u]))
            && (u in more && q in more[u] ==> more[u][q] == if u == w && q == p then e else tables[u][q])
  {
  }

  lemma OriginsWith(tables: map<int, Table>, w: int, p: int, e: Entry, b: nat)
    requires w in tables && p !in tables[w]
    ensures |Origins(With(tables, w, p, e), b)| == |Origins(tables, b)| + if e.origin == b then 1 else 0
  {
    hide With;
    forall y: (int, int)
      ensures y in Origins(With(tables, w, p, e), b) <==> y in Origins(tables, b) || (e.origin == b && y == (w, p))
    {
      EntriesWith(tables, w, p, e, y.0, y.1);
    }
    SameOrOneMore(Origins(tables, b), Origins(With(tables, w, p, e), b), (w, p), e.origin == b);
  }

  lemma LastsWith(tables: map<int, Table>, w: int, p: int, e: Entry, b: nat)
    requires w in tables && p !in tables[w]
    ensures |Lasts(With(tables, w, p, e), b)| == |Lasts(tables, b)| + if e.last == Some(b) then 1 else 0
  {
    hide With;
    forall y: (int, int)
      ensures y in Lasts(With(tables, w, p, e), b) <==> y in Lasts(tables, b) || (e.last == Some(b) && y == (w, p))
    {
      EntriesWith(tables, w, p, e, y.0, y.1);
    }
    SameOrOneMore(Lasts(tables, b), Lasts(With(tables, w, p, e), b), (w, p), e.last == Some(b));
  }

  lemma SameOrOneMore(before: set<(int, int)>, after: set<(int, int)>, x: (int, int), more: bool)
    requires x !in before
    requires forall y :: y in after <==> y in before || (more && y == x)
    ensures |after| == |before| + if more then 1 else 0
  {
    if more {
      assert after == before + {x};
    } else {
      assert after == before;
    }
  }

  lemma SameBalance(counts: map<nat, nat>, tables: map<int, Table>, held: multiset<nat>,
                    others: map<int, Table>, heldThen: multiset<nat>)
    requires forall b: nat :: Counted(counts, tables, held, b) <==> Counted(counts, others, heldThen, b)
    ensures Balanced(counts, tables, held) <==> Balanced(counts, others, heldThen)
  {
    hide Counted;
    if Balanced(counts, tables, held) {
      forall b: nat
        ensures Counted(counts, others, heldThen, b)
      {
        assert Counted(counts, tables, held, b);
      }
    }
    if Balanced(counts, others, heldThen) {
      forall b: nat
        ensures Counted(counts, tables, held, b)
      {
        assert Counted(counts, others, heldThen, b);
      }
    }
  }

  /** Putting an entry into a table hands its references over to the table; taking one
      out hands them back. */
  lemma PutBalanced(counts: map<nat, nat>, tables: map<int, Table>, w: int, p: int, e: Entry, held: multiset<nat>)
    requires w in tables && p !in tables[w]
    ensures Balanced(counts, With(tables, w, p, e), held) <==> Balanced(counts, tables, held + Owned(e))
  {
    forall b: nat
      ensures Counted(counts, With(tables, w, p, e), held, b) <==> Counted(counts, tables, held + Owned(e), b)
    {
      OriginsWith(tables, w, p, e, b);
      LastsWith(tables, w, p, e, b);
    }
    SameBalance(counts, With(tables, w, p, e), held, tables, held + Owned(e));
  }

  lemma SameTables(tables: map<int, Table>, w: int, p: int)
    requires w in tables && p in tables[w]
    ensures With(tables[w := tables[w] - {p}], w, p, tables[w][p]) == tables
  {
    assert (tables[w] - {p})[p := tables[w][p]] == tables[w];
  }

  /** What is referred to has not been freed. */
  lemma ReferredExists(counts: map<nat, nat>, tables: map<int, Table>, held: multiset<nat>, b: nat)
    requires Balanced(counts, tables, held)
    requires b in held || exists w, p :: w in tables && p in tables[w] && tables[w][p].origin == b
    ensures b in counts
  {
    assert Counted(counts, tables, held, b);
    if w, p :| w in tables && p in tables[w] && tables[w][p].origin == b {
      assert (w, p) in Origins(tables, b);
    }
  }

  /** Once all tables are destroyed no backtrace is left. */
  lemma NothingSurvives(counts: map<nat, nat>)
    requires Balanced(counts, map[], multiset{})
    ensures counts == map[]
  {
    forall b: nat
      ensures b !in counts
    {
      assert Counted(counts, map[], multiset{}, b);
      assert Origins(map[], b) == {} && Lasts(map[], b) == {};
    }
  }

  lemma EmptyTable(counts: map<nat, nat>, tables: map<int, Table>, w: int, held: multiset<nat>)
    requires w !in tables
    ensures Balanced(counts, tables[w := map[]], held) <==> Balanced(counts, tables, held)
  {
    forall b: nat
      ensures Counted(counts, tables[w := map[]], held, b) <==> Counted(counts, tables, held, b)
    {
      assert Origins(tables[w := map[]], b) == Origins(tables, b);
      assert Lasts(tables[w := map[]], b) == Lasts(tables, b);
    }
    SameBalance(counts, tables[w := map[]], held, tables, held);
  }

  /** The tables after an alert to some watches. */
  function Alerted(tables: map<int, Table>, watches: seq<(int, int)>, a: Alert, trace: nat): map<int, Table> {
    map w | w in tables ::
      if exists k :: 0 <= k < |watches| && watches[k].1 == w then OnAlert(tables[w], a, trace) else tables[w]
  }

  lemma NextAlerted(tables: map<int, Table>, watches: seq<(int, int)>, a: Alert, trace: nat, i: nat)
    requires i < |watches| && watches[i].1 in tables
    requires forall k :: 0 <= k < i ==> watches[k].1 != watches[i].1
    ensures var w, so := watches[i].1, Alerted(tables, watches[..i], a, trace);
            so[w := OnAlert(so[w], a, trace)] == Alerted(tables, watches[..i + 1], a, trace)
  {
    var more := watches[..i + 1];
    assert more[i] == watches[i];
    assert forall k :: 0 <= k < i ==> more[k] == watches[..i][k];
    forall w | w in tables && w != watches[i].1
      ensures (exists k :: 0 <= k < i && watches[..i][k].1 == w) <==> (exists k :: 0 <= k < i + 1 && more[k].1 == w)
    {
    }
  }

  datatype Hooks = Null | Ours | Foreign(id: int)

  class Leakwatch {
    /** The reference counts of the backtraces that exist. */
    var counts: map<nat, nat>
    /** The hash tables that exist. */
    var tables: map<int, Table>
    /** The watches, each with its handle and its table, the newest first. */
    var watches: seq<(int, int)>
    /** How many allocator calls there have been; it numbers their backtraces. */
    var clock: nat
    var count: int
    var hooks: Hooks
    var saved: Hooks
    ghost const original: Hooks

    ghost predicate Consistent(held: multiset<nat>)
      reads this
    {
      && Balanced(counts, tables, held)
      && (forall b :: b in counts ==> b < clock || b in held)
      && (forall i :: 0 <= i < |watches| ==> watches[i].1 in tables)
      && (forall i, j :: 0 <= i < j < |watches| ==> watches[i] != watches[j] && watches[i].1 != watches[j].1)
      && count == |watches| && original != Ours
      && if count > 0 then saved == original else saved == Null
    }

    /** Between two allocator calls: our hooks are in place exactly as long as there are
        watches, and without watches the original ones are. */
    ghost predicate Valid()
      reads this
    {
      && Consistent(multiset{})
      && hooks == if count > 0 then Ours else original
    }

    /** `backtrace_create`: the caller holds the only reference. */
    method CreateBacktrace() returns (b: nat)
      requires Balanced(counts, tables, multiset{}) && clock !in counts
      modifies this`counts
      ensures b == clock && Balanced(counts, tables, multiset{b})
      ensures counts.Keys == old(counts.Keys) + {b}
    {
      b := clock;
      ghost var before := counts;
      counts := counts[b := 1];
      forall c: nat
        ensures Counted(counts, tables, multiset{b}, c)
      {
        assert Counted(before, tables, multiset{}, c);
      }
    }

    /** `backtrace_reference`; the object must not have been freed. */
    method Reference(b: nat, ghost held: multiset<nat>)
      requires Balanced(counts, tables, held) && b in counts
      modifies this`counts
      ensures Balanced(counts, tables, held + multiset{b}) && counts.Keys == old(counts.Keys)
    {
      ghost var before := counts;
      counts := counts[b := counts[b] + 1];
      forall c: nat
        ensures Counted(counts, tables, held + multiset{b}, c)
      {
        assert Counted(before, tables, held, c);
      }
    }

    /** `backtrace_unreference`: gives up a reference that is held; the object is freed
        with the last one. */
    method Unreference(b: nat, ghost held: multiset<nat>)
      requires Balanced(counts, tables, held) && b in held
      modifies this`counts
      ensures Balanced(counts, tables, held - multiset{b}) && counts.Keys <= old(counts.Keys)
    {
      assert Counted(counts, tables, held, b);
      ghost var before := counts;
      counts := counts[b := counts[b] - 1];
      if counts[b] == 0 {
        counts := counts - {b};
      }
      forall c: nat
        ensures Counted(counts, tables, held - multiset{b}, c)
      {
        assert Counted(before, tables, held, c);
      }
    }

    /** `_memory_entry_destroy` */
    method DestroyEntry(e: Entry, ghost held: multiset<nat>)
      requires Balanced(counts, tables, held) && Owned(e) <= held
      modifies this`counts
      ensures Balanced(counts, tables, held - Owned(e)) && counts.Keys <= old(counts.Keys)
    {
      hide Balanced;
      Unreference(e.origin, held);
      if e.last.Some? {
        Unreference(e.last.value, held - multiset{e.origin});
        assert held - multiset{e.origin} - multiset{e.last.value} == held - Owned(e);
      } else {
        assert held - multiset{e.origin} == held - Owned(e);
      }
    }

    /** `g_hash_table_remove`: destroys the entry, if there is one. */
    method HashRemove(w: int, p: int, ghost held: multiset<nat>)
      requires Balanced(counts, tables, held) && w in tables
      modifies this`counts, this`tables
      ensures Balanced(counts, tables, held) && counts.Keys <= old(counts.Keys)
      ensures tables == old(tables)[w := old(tables[w]) - {p}]
    {
      hide Balanced;
      if p in tables[w] {
        var e := tables[w][p];
        SameTables(tables, w, p);
        ghost var rest := tables[w := tables[w] - {p}];
        PutBalanced(counts, rest, w, p, e, held);
        tables := tables[w := tables[w] - {p}];
        DestroyEntry(e, held + Owned(e));
        assert held + Owned(e) - Owned(e) == held;
      } else {
        assert tables[w] - {p} == tables[w] && tables[w := tables[w]] == tables;
      }
    }

    /** `g_hash_table_insert`: replaces and destroys an entry with the same key. The table
        takes over the references of the new one. */
    method HashInsert(w: int, p: int, e: Entry, ghost held: multiset<nat>)
      requires Balanced(counts, tables, held + Owned(e)) && w in tables
      modifies this`counts, this`tables
      ensures Balanced(counts, tables, held) && counts.Keys <= old(counts.Keys)
      ensures tables == With(old(tables), w, p, e)
    {
      hide Balanced;
      HashRemove(w, p, held + Owned(e));
      PutBalanced(counts, tables, w, p, e, held);
      assert (old(tables[w]) - {p})[p := e] == old(tables[w])[p := e];
      assert With(tables, w, p, e) == With(old(tables), w, p, e);
      tables := tables[w := tables[w][p := e]];
    }

    /** `_tinu_leakwatch_simple_callback`; the alert holds the backtrace. */
    method SimpleCallback(w: int, a: Alert, trace: nat, ghost held: multiset<nat>)
      requires Balanced(counts, tables, held) && w in tables && trace in held
      modifies this`counts, this`tables
      ensures Balanced(counts, tables, held) && counts.Keys <= old(counts.Keys)
      ensures tables == old(tables)[w := OnAlert(old(tables[w]), a, trace)]
    {
      hide Balanced;
      ReferredExists(counts, tables, held, trace);
      match a
      case MallocAlert(ptr, size) =>
        var e := Entry(size, trace, None);
        Reference(trace, held);
        assert Owned(e) == multiset{trace};
        HashInsert(w, ptr, e, held);
      case ReallocAlert(from, ptr, size) =>
        if from !in tables[w] {
          assert tables[w := tables[w]] == tables;
        } else if ptr == from {
          Rewrite(w, ptr, size, trace, held);
          assert OnAlert(old(tables[w]), a, trace)
              == old(tables[w])[ptr := Entry(size, old(tables[w][ptr].origin), Some(trace))];
        } else {
          Move(w, from, ptr, size, trace, held);
        }
      case FreeAlert(from) =>
        HashRemove(w, from, held);
    }

    /** A block reallocated in place: its entry is rewritten in place. */
    method Rewrite(w: int, p: int, size: nat, trace: nat, ghost held: multiset<nat>)
      requires Balanced(counts, tables, held) && w in tables && p in tables[w] && trace in held
      modifies this`counts, this`tables
      ensures Balanced(counts, tables, held) && counts.Keys <= old(counts.Keys)
      ensures tables == With(old(tables), w, p, Entry(size, old(tables[w][p].origin), Some(trace)))
    {
      hide Balanced;
      var e := tables[w][p];
      SameTables(tables, w, p);
      ghost var rest := tables[w := tables[w] - {p}];
      PutBalanced(counts, rest, w, p, e, held);
      tables := tables[w := tables[w] - {p}];
      SwapLast(e, trace, held);
      var rewritten := Entry(size, e.origin, Some(trace));
      assert Owned(rewritten) == multiset{e.origin} + multiset{trace};
      PutBalanced(counts, tables, w, p, rewritten, held);
      assert (old(tables[w]) - {p})[p := rewritten] == old(tables[w])[p := rewritten];
      assert With(tables, w, p, rewritten) == With(old(tables), w, p, rewritten);
      tables := tables[w := tables[w][p := rewritten]];
    }

    /** Gives up an entry's latest backtrace, if it has one, in favour of another. */
    method SwapLast(e: Entry, trace: nat, ghost held: multiset<nat>)
      requires Balanced(counts, tables, held + Owned(e)) && trace in held
      modifies this`counts
      ensures Balanced(counts, tables, held + (multiset{e.origin} + multiset{trace})) && counts.Keys <= old(counts.Keys)
    {
      hide Balanced;
      ghost var now := held + multiset{e.origin};
      if e.last.Some? {
        Unreference(e.last.value, held + Owned(e));
        assert held + Owned(e) - multiset{e.last.value} == now;
      } else {
        assert held + Owned(e) == now;
      }
      ReferredExists(counts, tables, now, trace);
      Reference(trace, now);
      assert now + multiset{trace} == held + (multiset{e.origin} + multiset{trace});
    }

    /** A block that moved: a new entry takes the place of the old one, and of any that
        is left at the new address. */
    method Move(w: int, from: int, p: int, size: nat, trace: nat, ghost held: multiset<nat>)
      requires Balanced(counts, tables, held) && w in tables && from in tables[w] && trace in held
      modifies this`counts, this`tables
      ensures Balanced(counts, tables, held) && counts.Keys <= old(counts.Keys)
      ensures var t := old(tables[w]);
              tables == old(tables)[w := (t - {from})[p := Entry(size, t[from].origin, Some(trace))]]
    {
      hide Balanced;
      var origin := tables[w][from].origin;
      ReferredExists(counts, tables, held, origin);
      ReferredExists(counts, tables, held, trace);
      Reference(origin, held);
      Reference(trace, held + multiset{origin});
      var e := Entry(size, origin, Some(trace));
      assert held + multiset{origin} + multiset{trace} == held + Owned(e);
      HashRemove(w, from, held + Owned(e));
      HashInsert(w, p, e, held);
    }

    /** `_leakwatch_alert`: the hooks are off, so that what the callbacks allocate is not
        watched. The backtrace outlives the alert only in tables. */
    method SendAlert(a: Alert)
      requires Consistent(multiset{}) && hooks != Ours
      modifies this`counts, this`tables
      ensures Balanced(counts, tables, multiset{})
      ensures tables == Alerted(old(tables), watches, a, clock)
      ensures forall b :: b in counts ==> b <= clock
    {
      hide Balanced;
      var trace := CreateBacktrace();
      assert Alerted(tables, watches[..0], a, trace) == tables;
      for i := 0 to |watches|
        invariant Balanced(counts, tables, multiset{trace})
        invariant counts.Keys <= old(counts.Keys) + {trace}
        invariant tables == Alerted(old(tables), watches[..i], a, trace)
      {
        NextAlerted(old(tables), watches, a, trace, i);
        SimpleCallback(watches[i].1, a, trace, multiset{trace});
      }
      assert watches[..|watches|] == watches;
      Unreference(trace, multiset{trace});
      assert multiset{trace} - multiset{trace} == multiset{};
    }

    method HookPause()
      modifies this`hooks
      ensures hooks == if count > 0 then Null else old(hooks)
    {
      if count > 0 {
        hooks := Null;
      }
    }

    method HookResume()
      modifies this`hooks
      ensures hooks == if count > 0 then Ours else old(hooks)
    {
      if count > 0 {
        hooks := Ours;
      }
    }

    /** A call of the allocator: it comes to us if our hooks are in place. */
    method AllocatorCall(e: Event)
      requires Valid()
      modifies this`counts, this`tables, this`hooks, this`clock
      ensures Valid() && clock == old(clock) + 1 && tables.Keys == old(tables.Keys)
      ensures forall i :: 0 <= i < |watches| ==>
                tables[watches[i].1] == TableStep(old(tables)[watches[i].1], e, old(clock))
      ensures forall w :: w in tables && (forall i :: 0 <= i < |watches| ==> watches[i].1 != w) ==>
                tables[w] == old(tables)[w]
    {
      hide Balanced;
      if hooks == Ours {
        HookPause();
        if AlertOf(e).Some? {
          SendAlert(AlertOf(e).value);
        }
        HookResume();
      }
      clock := clock + 1;
    }

    /** A program in which nothing is watched. */
    constructor (original: Hooks)
      requires original != Ours
      ensures Valid() && clock == 0 && watches == [] && tables == map[] && hooks == original
    {
      this.original := original;
      counts, tables, watches, clock, count := map[], map[], [], 0, 0;
      hooks, saved := original, Null;
      new;
      forall b: nat
        ensures Counted(counts, tables, multiset{}, b)
      {
        assert Origins(map[], b) == {} && Lasts(map[], b) == {};
      }
    }

    /** `tinu_leakwatch_simple`: a new table and a watch for it. The first watch puts our
        hooks in place of the ones it finds. */
    method RegisterSimple(handle: int, table: int)
      requires Valid() && table !in tables && forall i :: 0 <= i < |watches| ==> watches[i].0 != handle
      modifies this`tables, this`watches, this`count, this`hooks, this`saved
      ensures Valid() && hooks == Ours
      ensures tables == old(tables)[table := map[]] && watches == [(handle, table)] + old(watches)
    {
      hide Balanced;
      EmptyTable(counts, tables, table, multiset{});
      tables := tables[table := map[]];
      if count == 0 {
        saved, hooks := hooks, Ours;
      }
      count := count + 1;
      HookPause();
      watches := [(handle, table)] + watches;
      HookResume();
    }

    /** `tinu_unregister_watch`: with the last watch the original hooks come back. An
        unknown handle changes nothing. The table stays. */
    method Unregister(handle: int) returns (found: bool)
      requires Valid()
      modifies this`watches, this`count, this`hooks, this`saved
      ensures Valid()
      ensures found <==> exists i :: 0 <= i < |old(watches)| && old(watches)[i].0 == handle
      ensures !found ==> watches == old(watches) && hooks == old(hooks)
      ensures found ==> exists i :: 0 <= i < |old(watches)| && old(watches)[i].0 == handle
                                    && watches == old(watches)[..i] + old(watches)[i + 1..]
      ensures watches == [] ==> hooks == original
    {
      hide Balanced;
      HookPause();
      found := false;
      var at := 0;
      while at < |watches| && watches[at].0 != handle
        invariant 0 <= at <= |watches| && forall i :: 0 <= i < at ==> watches[i].0 != handle
      {
        at := at + 1;
      }
      if at < |watches| {
        found := true;
        ghost var was := watches;
        watches := watches[..at] + watches[at + 1..];
        assert forall i :: 0 <= i < |watches| ==> watches[i] == was[if i < at then i else i + 1];
      }
      HookResume();
      if found {
        if count == 1 {
          hooks, saved := saved, Null;
        }
        count := count - 1;
      }
    }

    /** `g_hash_table_destroy` of a table whose watch is gone: its references go, too. */
    method DestroyTable(table: int)
      requires Valid() && table in tables && forall i :: 0 <= i < |watches| ==> watches[i].1 != table
      modifies this`counts, this`tables
      ensures Valid() && tables == old(tables) - {table}
      ensures tables == map[] ==> counts == map[]
    {
      hide Balanced;
      DestroyEntries(table);
      assert tables == (old(tables) - {table})[table := map[]];
      EmptyTable(counts, old(tables) - {table}, table, multiset{});
      tables := tables - {table};
      assert tables == old(tables) - {table};
      if tables == map[] {
        NothingSurvives(counts);
      }
    }

    method DestroyEntries(table: int)
      requires Balanced(counts, tables, multiset{}) && table in tables
      modifies this`counts, this`tables
      ensures Balanced(counts, tables, multiset{}) && counts.Keys <= old(counts.Keys)
      ensures tables == old(tables)[table := map[]]
    {
      hide Balanced;
      assert tables == tables[table := tables[table]];
      while tables[table].Keys != {}
        invariant Balanced(counts, tables, multiset{}) && counts.Keys <= old(counts.Keys)
        invariant table in tables && tables == old(tables)[table := tables[table]]
        decreases |tables[table].Keys|
      {
        Inhabited(tables[table].Keys);
        var p :| p in tables[table].Keys;
        ghost var t := tables[table];
        assert t.Keys == (t - {p}).Keys + {p};
        HashRemove(table, p, multiset{});
      }
      assert tables[table] == map[];
    }

    /** A whole run of a program under one watch that was there from the start. */
    method Observe(events: seq<Event>)
      requires Valid() && clock == 0 && |watches| == 1 && tables[watches[0].1] == map[]
      modifies this`counts, this`tables, this`hooks, this`clock
      ensures Valid() && tables[watches[0].1] == TableAfter(events)
    {
      hide Balanced;
      assert events[..0] == [];
      for i := 0 to |events|
        invariant Valid() && clock == i && tables[watches[0].1] == TableAfter(events[..i])
      {
        assert events[..i + 1][..i] == events[..i];
        AllocatorCall(events[i]);
      }
      assert events[..|events|] == events;
    }
  }
}
