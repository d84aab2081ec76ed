/** The parameters of a core dump, their setters, and how `InternalGetCoreDump` picks
    a writer for a dump to a file. */
module DumpParameters {
  import opened Bytes
  import opened Writers
  import opened ElfFormat
  import opened CoreRoundTrip
  import opened MapsReader
  import opened MapsTable
  import opened Vdso
  import opened HeaderWriter
  import opened CoreWriter
  import opened CoreTheorems

  datatype Flag = Limited | LimitedByPriority

  /** The values of `struct CoreDumpParameters`. `compressors` is NULL or an array whose
      terminator is not shown; the name "" stands for "leave it uncompressed". */
  datatype Values = Values(flags: set<Flag>, maxLength: nat, compressors: Option<seq<string>>,
                           notes: seq<UserNote>)

  const CLEARED := Values({}, SIZE_LIMIT - 1, None, [])

  /** One call of a setter. */
  datatype Call =
    | SetLimited(maxLength: nat)
    | SetCompressed(compressors: Option<seq<string>>)
    | SetLimitedByPriority(maxLength: nat)
    | SetNotes(notes: seq<UserNote>)

  /** Whether a setter refuses, with EINVAL. */
  predicate Refuses(v: Values, c: Call) {
    match c
    case SetLimited(_) => LimitedByPriority in v.flags
    case SetCompressed(_) => LimitedByPriority in v.flags
    case SetLimitedByPriority(_) =>
      (Limited in v.flags && LimitedByPriority !in v.flags) || v.compressors.Some?
    case SetNotes(_) => false
  }

  function Apply(v: Values, c: Call): Values {
    if Refuses(v, c) then v
    else match c
      case SetLimited(n) => v.(flags := v.flags + {Limited}, maxLength := n)
      case SetCompressed(cs) => v.(compressors := cs)
      case SetLimitedByPriority(n) => v.(flags := v.flags + {Limited, LimitedByPriority}, maxLength := n)
      case SetNotes(ns) => v.(notes := ns)
  }

  function Run(v: Values, calls: seq<Call>): Values {
    if calls == [] then v else Apply(Run(v, calls[..|calls| - 1]), calls[|calls| - 1])
  }

  /** Prioritized dumps are limited and never compressed. */
  predicate Consistent(v: Values) {
    LimitedByPriority in v.flags ==> Limited in v.flags && v.compressors.None?
  }

  /** No sequence of setters, in any order and with any arguments, leads out of it; and
      without a limit the length is the largest there is. */
  lemma {:induction false} SettersKeepConsistency(calls: seq<Call>)
    ensures Consistent(Run(CLEARED, calls))
    ensures Limited !in Run(CLEARED, calls).flags ==> Run(CLEARED, calls).maxLength == SIZE_LIMIT - 1
  {
    if calls != [] {
      SettersKeepConsistency(calls[..|calls| - 1]);
    }
  }

  /** Once a dump is prioritized no setter makes it anything else. */
  lemma {:induction false} PriorityIsFinal(v: Values, calls: seq<Call>)
    requires LimitedByPriority in v.flags && Consistent(v)
    ensures LimitedByPriority in Run(v, calls).flags && Consistent(Run(v, calls))
  {
    if calls != [] {
      PriorityIsFinal(v, calls[..|calls| - 1]);
    }
  }

  // ---------- What a sequence of calls asks for ----------

  /** Two calls of one setter. */
  predicate SameSetter(a: Call, b: Call) {
    || (a.SetLimited? && b.SetLimited?) || (a.SetCompressed? && b.SetCompressed?)
    || (a.SetLimitedByPriority? && b.SetLimitedByPriority?) || (a.SetNotes? && b.SetNotes?)
  }

  /** Call `k` is the last one of its setter. */
  ghost predicate Last(calls: seq<Call>, k: int) {
    0 <= k < |calls| && forall j :: k < j < |calls| ==> !SameSetter(calls[j], calls[k])
  }

  /** A limit was asked for, or compressors were set last. */
  ghost predicate Obstructed(calls: seq<Call>) {
    || (exists j :: 0 <= j < |calls| && calls[j].SetLimited?)
    || (exists j :: Last(calls, j) && calls[j].SetCompressed? && calls[j].compressors.Some?)
  }

  /** Call `i` asks for prioritization, and nothing in front of it is in its way. */
  ghost predicate Prioritizes(calls: seq<Call>, i: int) {
    0 <= i < |calls| && calls[i].SetLimitedByPriority? && !Obstructed(calls[..i])
  }

  ghost predicate Prioritized(calls: seq<Call>) {
    exists i :: Prioritizes(calls, i)
  }

  /** The last call of the setter that decides on the length. */
  ghost predicate LimitsTo(calls: seq<Call>, k: int) {
    Last(calls, k) && if Prioritized(calls) then calls[k].SetLimitedByPriority? else calls[k].SetLimited?
  }

  lemma OneMore(calls: seq<Call>, c: Call)
    ensures forall k :: Last(calls + [c], k) <==> k == |calls| || (Last(calls, k) && !SameSetter(calls[k], c))
    ensures Prioritized(calls + [c]) <==> Prioritized(calls) || (c.SetLimitedByPriority? && !Obstructed(calls))
  {
    hide Obstructed;
    var more := calls + [c];
    forall i | 0 <= i <= |calls|
      ensures more[..i] == calls[..i]
    {
    }
    assert calls[..|calls|] == calls;
    assert forall i :: 0 <= i < |calls| ==> (Prioritizes(more, i) <==> Prioritizes(calls, i));
    assert Prioritizes(more, |calls|) <==> c.SetLimitedByPriority? && !Obstructed(calls);
  }

  lemma {:induction false} LastOf(calls: seq<Call>, j: nat) returns (k: nat)
    requires j < |calls|
    ensures Last(calls, k) && SameSetter(calls[k], calls[j])
    decreases |calls| - j
  {
    k := j;
    if !Last(calls, j) {
      var i :| j < i < |calls| && SameSetter(calls[i], calls[j]);
      k := LastOf(calls, i);
    }
  }

  /** What makes a setter refuse, in terms of the calls before it. */
  lemma RefusedAfter(calls: seq<Call>, v: Values, c: Call)
    requires Meant(calls, v)
    ensures Refuses(v, c) <==>
              match c
              case SetLimited(_) => Prioritized(calls)
              case SetCompressed(_) => Prioritized(calls)
              case SetLimitedByPriority(_) => !Prioritized(calls) && Obstructed(calls)
              case SetNotes(_) => false
  {
    hide Last, Prioritized;
    if v.compressors.Some? {
      var j :| 0 <= j < |calls| && calls[j].SetCompressed?;
      var k := LastOf(calls, j);
      LastInside(calls);
    }
    LastInside(calls);
  }

  lemma SettersStep(calls: seq<Call>, v: Values, c: Call)
    requires Meant(calls, v)
    ensures Meant(calls + [c], Apply(v, c))
  {
    hide Last, Prioritized, Obstructed;
    var more, w := calls + [c], Apply(v, c);
    RefusedAfter(calls, v, c);
    OneMore(calls, c);
    LastInside(calls);
    assert more[|calls|] == c && forall j :: 0 <= j < |calls| ==> more[j] == calls[j];
    assert LimitsTo(more, |calls|) || forall k :: LimitsTo(calls, k) ==> LimitsTo(more, k);
    assert forall k :: LimitsTo(more, k) ==> w.maxLength == more[k].maxLength;
    assert Limited in w.flags <==> Prioritized(more) || exists j :: 0 <= j < |more| && more[j].SetLimited?;
  }

  lemma LastInside(calls: seq<Call>)
    ensures forall k :: Last(calls, k) ==> 0 <= k < |calls|
  {
  }

  /** The values are those the calls ask for: prioritized if a call asked for it with
      nothing in its way; the length of the last call that could set it; the
      compressors and the notes set last, but no compressors in a prioritized dump. */
  ghost predicate Meant(calls: seq<Call>, v: Values) {
    && (LimitedByPriority in v.flags <==> Prioritized(calls))
    && (Limited in v.flags <==> Prioritized(calls) || exists j :: 0 <= j < |calls| && calls[j].SetLimited?)
    && (forall k :: LimitsTo(calls, k) ==> v.maxLength == calls[k].maxLength)
    && ((forall k :: !LimitsTo(calls, k)) ==> v.maxLength == 0xFFFF_FFFF_FFFF_FFFF)
    && (Prioritized(calls) ==> v.compressors == None)
    && (forall k :: Last(calls, k) && calls[k].SetCompressed? && !Prioritized(calls) ==>
          v.compressors == calls[k].compressors)
    && ((forall j :: 0 <= j < |calls| ==> !calls[j].SetCompressed?) ==> v.compressors == None)
    && (forall k :: Last(calls, k) && calls[k].SetNotes? ==> v.notes == calls[k].notes)
    && ((forall j :: 0 <= j < |calls| ==> !calls[j].SetNotes?) ==> v.notes == [])
  }

  /** Any sequence of calls leads to the values it asks for. */
  lemma {:induction false} SettersMean(calls: seq<Call>)
    ensures Meant(calls, Run(CLEARED, calls))
  {
    hide Meant, Apply;
    if calls == [] {
      NothingMeant();
    } else {
      var n := |calls| - 1;
      SettersMean(calls[..n]);
      SettersStep(calls[..n], Run(CLEARED, calls[..n]), calls[n]);
      assert calls[..n] + [calls[n]] == calls;
    }
  }

  lemma NothingMeant()
    ensures Meant([], CLEARED)
  {
  }

  /** A limit and compressors are refused once the dump is prioritized; prioritization is
      refused as long as it is not and something is in its way; notes never are. */
  lemma RefusalsMean(calls: seq<Call>, c: Call)
    ensures Refuses(Run(CLEARED, calls), c) <==>
              || ((c.SetLimited? || c.SetCompressed?) && Prioritized(calls))
              || (c.SetLimitedByPriority? && !Prioritized(calls) && Obstructed(calls))
  {
    hide Meant, Run, Prioritized, Obstructed;
    SettersMean(calls);
    RefusedAfter(calls, Run(CLEARED, calls), c);
  }

  /** There is a call that decides on the length of a prioritized dump. */
  lemma PriorityLimit(calls: seq<Call>) returns (k: nat)
    requires Prioritized(calls)
    ensures k < |calls| && LimitsTo(calls, k) && calls[k].SetLimitedByPriority?
    ensures Run(CLEARED, calls).maxLength == calls[k].maxLength
    ensures LimitedByPriority in Run(CLEARED, calls).flags
  {
    hide Run;
    SettersMean(calls);
    var i :| Prioritizes(calls, i);
    k := LastOf(calls, i);
  }

  class CoreDumpParameters {
    var flags: set<Flag>
    var maxLength: nat
    var compressors: Option<seq<string>>
    var notes: seq<UserNote>

    ghost function State(): Values
      reads this
    {
      Values(flags, maxLength, compressors, notes)
    }

    lemma StateOf()
      ensures State() == Values(flags, maxLength, compressors, notes)
    {
    }

    /** `ClearCoreDumpParameters` */
    constructor ()
      ensures State() == CLEARED
    {
      flags, maxLength, compressors, notes := {}, SIZE_LIMIT - 1, None, [];
    }

    method SetCoreDumpLimited(length: nat) returns (rc: int)
      modifies this
      ensures rc == 0 || rc == -1
      ensures rc == -1 <==> LimitedByPriority in old(flags)
      ensures rc == 0 ==> State() == Values(old(flags) + {Limited}, length, old(compressors), old(notes))
      ensures rc == -1 ==> State() == old(State())
      ensures State() == Apply(old(State()), SetLimited(length))
      ensures rc == if Refuses(old(State()), SetLimited(length)) then -1 else 0
    {
      if LimitedByPriority in flags {
        return -1;
      }
      flags, maxLength := flags + {Limited}, length;
      return 0;
    }

    method SetCoreDumpCompressed(cs: Option<seq<string>>) returns (rc: int)
      modifies this
      ensures rc == 0 || rc == -1
      ensures rc == -1 <==> LimitedByPriority in old(flags)
      ensures rc == 0 ==> State() == Values(old(flags), old(maxLength), cs, old(notes))
      ensures rc == -1 ==> State() == old(State())
      ensures State() == Apply(old(State()), SetCompressed(cs))
      ensures rc == if Refuses(old(State()), SetCompressed(cs)) then -1 else 0
    {
      if LimitedByPriority in flags {
        return -1;
      }
      compressors := cs;
      return 0;
    }

    method SetCoreDumpLimitedByPriority(length: nat) returns (rc: int)
      modifies this
      ensures rc == 0 || rc == -1
      ensures rc == -1 <==>
                (Limited in old(flags) && LimitedByPriority !in old(flags)) || old(compressors) != None
      ensures rc == 0 ==>
                State() == Values(old(flags) + {Limited, LimitedByPriority}, length, None, old(notes))
      ensures rc == -1 ==> State() == old(State())
      ensures State() == Apply(old(State()), SetLimitedByPriority(length))
      ensures rc == if Refuses(old(State()), SetLimitedByPriority(length)) then -1 else 0
    {
      if (Limited in flags && LimitedByPriority !in flags) || compressors.Some? {
        return -1;
      }
      flags, maxLength := flags + {Limited, LimitedByPriority}, length;
      return 0;
    }

    method SetCoreDumpNotes(ns: seq<UserNote>) returns (rc: int)
      modifies this
      ensures State() == Values(old(flags), old(maxLength), old(compressors), ns)
      ensures State() == Apply(old(State()), SetNotes(ns))
      ensures rc == 0
    {
      notes := ns;
      return 0;
    }

    method Set(c: Call) returns (rc: int)
      modifies this
      ensures State() == Apply(old(State()), c)
      ensures rc == if Refuses(old(State()), c) then -1 else 0
    {
      match c
      case SetLimited(n) => rc := SetCoreDumpLimited(n);
      case SetCompressed(cs) => rc := SetCoreDumpCompressed(cs);
      case SetLimitedByPriority(n) => rc := SetCoreDumpLimitedByPriority(n);
      case SetNotes(ns) => rc := SetCoreDumpNotes(ns);
    }
  }

  /** What becomes of a pipeline that is asked for: it cannot be created, none of its
      programs compresses, or one does. */
  datatype Pipeline = Broken | Uncompressed | Compressing

  /** How a dump to a file goes out. */
  datatype Route = Refused | Nothing | Direct | Piped

  /** The branch of `InternalGetCoreDump` taken for a file: a pipeline is created only
      for a non-empty list of compressors, before the length is looked at and the file
      is opened. */
  function RouteOf(v: Values, pipeline: Pipeline, opens: bool): Route {
    var compress := v.compressors.Some? && v.compressors.value != [];
    if compress && pipeline == Broken then Refused
    else if v.maxLength == 0 then Nothing
    else if !opens then Refused
    else if compress && pipeline == Compressing then Piped
    else Direct
  }

  /** A pipeline is asked for: compressors were set last, and the dump is not
      prioritized. */
  ghost predicate Compressed(calls: seq<Call>) {
    && !Prioritized(calls)
    && exists k :: Last(calls, k) && calls[k].SetCompressed?
                   && calls[k].compressors.Some? && calls[k].compressors.value != []
  }

  /** The length asked for is zero. */
  ghost predicate Zero(calls: seq<Call>) {
    exists k :: LimitsTo(calls, k) && calls[k].maxLength == 0
  }

  /** Which way a dump goes out, by the calls that were made. */
  lemma RouteAfter(calls: seq<Call>, pipeline: Pipeline, opens: bool)
    ensures var route := RouteOf(Run(CLEARED, calls), pipeline, opens);
            && (route == Refused <==> (Compressed(calls) && pipeline == Broken) || (!Zero(calls) && !opens))
            && (route == Nothing <==> Zero(calls) && !(Compressed(calls) && pipeline == Broken))
            && (route == Piped <==> Compressed(calls) && pipeline == Compressing && !Zero(calls) && opens)
  {
    hide Run, Last, LimitsTo, Prioritized;
    SettersMean(calls);
    LastInside(calls);
    LimitsInside(calls);
    if j :| 0 <= j < |calls| && calls[j].SetCompressed? {
      var _ := LastOf(calls, j);
    }
  }

  lemma LimitsInside(calls: seq<Call>)
    ensures forall k :: LimitsTo(calls, k) ==>
              0 <= k < |calls| && (calls[k].SetLimited? || calls[k].SetLimitedByPriority?)
  {
  }

  /** The file a memory map leads to. */
  ghost function PlannedFile(text: seq<byte>, p: Process, v: Option<Image>, mem: Memory, access: Access, priority: nat)
    : Option<seq<byte>>
    requires p.Valid()
  {
    var plan := Plan(text, p, v, mem, access, priority);
    if plan.None? then None else Some(CoreFile(p, plan.value))
  }

  /** The longest front of a file that a limit allows. */
  function Front(file: seq<byte>, limit: nat): seq<byte> {
    file[..Min(|file|, limit)]
  }

  /** What a dump leaves behind: never more than the limit, always a front of the
      planned file, and complete if that is all of it; if the file took every byte it
      was given, success is reported and it is the longest front the limit allows. */
  ghost predicate Dumped(out: seq<byte>, planned: Option<seq<byte>>, limit: nat, rc: int, started: bool,
                         complete: bool, clean: bool)
  {
    && |out| <= limit
    && (!started ==> !complete && out == [])
    && (started ==> planned.Some? && limit > 0 && out <= planned.value && (complete <==> out == planned.value))
    && (started && clean ==>
          rc == 0 && out == Front(planned.value, limit) && (complete <==> |planned.value| <= limit))
  }

  /** The file branch of `InternalGetCoreDump`. A dump that is not piped goes through
      `LimitWriter` with the length as its limit, and the same length is the target of
      the prioritization if that is asked for. What a compressor would put out is not
      modelled: anything may be in the file then. */
  method DumpToFile(params: CoreDumpParameters, pipeline: Pipeline, opens: bool, file: OutFile, calls: Calls,
                    first: Io, second: Io, p: Process, v: Option<Image>, mem: Memory, access: Access)
    returns (rc: int, ghost started: bool, ghost complete: bool, ghost planned: Option<seq<byte>>)
    requires p.Valid() && first != second && first.Valid() && second.Valid()
    requires first.Pending() == second.Pending() && file.contents == []
    modifies file, first, second
    ensures LimitedByPriority in params.flags ==>
              planned == PlannedFile(old(first.Pending()), p, v, mem, access, params.maxLength)
    ensures LimitedByPriority !in params.flags ==>
              planned == PlannedFile(old(first.Pending()), p, v, mem, access, 0)
    ensures RouteOf(params.State(), pipeline, opens) != Piped ==>
              Dumped(file.contents, planned, params.maxLength, rc, started, complete, Clean(old(file.answers)))
    ensures calls == Calls(true, true, true) && Clean(old(first.answers)) && Clean(old(second.answers)) ==>
              (started <==> RouteOf(params.State(), pipeline, opens) == Direct && planned.Some?)
    ensures started ==> RouteOf(params.State(), pipeline, opens) == Direct
    ensures RouteOf(params.State(), pipeline, opens) == Nothing ==> rc == 0
    ensures RouteOf(params.State(), pipeline, opens) == Refused ==> rc == -1
  {
    hide *;
    rc, started, complete := 0, false, false;
    var priority := if LimitedByPriority in params.flags then params.maxLength else 0;
    planned := PlannedFile(first.Pending(), p, v, mem, access, priority);
    PlannedFrom(first.Pending(), p, v, mem, access, priority);
    params.StateOf();
    var values := Values(params.flags, params.maxLength, params.compressors, params.notes);
    DirectHasRoom(values, pipeline, opens);
    var route := RouteOf(values, pipeline, opens);
    match route
    case Refused =>
      rc := -1;
      NothingDumped(file.contents, planned, params.maxLength, rc, Clean(old(file.answers)));
    case Nothing =>
      NothingDumped(file.contents, planned, params.maxLength, rc, Clean(old(file.answers)));
    case Piped =>
      rc, file.contents := *, *;
    case Direct =>
      var h := new Handle(file, true, params.maxLength);
      ghost var before := h.State();
      ViewOf(h);
      StartsEmpty(h);
      rc, started, complete := CreateElfCore(h, calls, first, second, p, v, mem, access, priority);
      OutputOf(h);
      FromEmpty(before, h.State(), planned, rc, started, complete);
  }

  lemma DirectHasRoom(v: Values, pipeline: Pipeline, opens: bool)
    ensures RouteOf(v, pipeline, opens) == Direct ==> v.maxLength > 0
  {
  }

  lemma PlannedFrom(text: seq<byte>, p: Process, v: Option<Image>, mem: Memory, access: Access, priority: nat)
    requires p.Valid()
    ensures var plan := Plan(text, p, v, mem, access, priority);
            var planned := PlannedFile(text, p, v, mem, access, priority);
            && (plan.Some? <==> planned.Some?)
            && (plan.Some? ==> planned.value == CoreFile(p, plan.value))
  {
    hide Plan, CoreFile;
  }

  lemma StartsEmpty(h: Handle)
    ensures h.State().out == h.file.contents && h.State().limited == h.limited && h.State().room == h.maxLength
  {
  }

  lemma OutputOf(h: Handle)
    ensures h.State().out == h.file.contents
  {
  }

  lemma NothingDumped(out: seq<byte>, planned: Option<seq<byte>>, limit: nat, rc: int, clean: bool)
    requires out == []
    ensures Dumped(out, planned, limit, rc, false, false, clean)
  {
  }

  lemma FromEmpty(before: View, after: View, planned: Option<seq<byte>>, rc: int, started: bool, complete: bool)
    requires before.out == [] && before.limited && before.room > 0
    requires started ==> planned.Some? && Attempt(before, after, planned.value, complete)
    requires started && before.clean ==> rc == 0 && WrittenUpTo(before, after, planned.value)
    requires !started ==> !complete && after == before
    ensures Dumped(after.out, planned, before.room, rc, started, complete, before.clean)
  {
    if started {
      var file := planned.value;
      assert [] + file == file;
      var n := Min(|file|, before.room);
      assert [] + file[..n] == file[..n];
    }
  }

  /** The file a process is dumped to, once its mappings and vdso are known. */
  function FileOf(p: Process, ms: seq<Mapping>, vdso: seq<Phdr>, mem: Memory, priority: nat): seq<byte>
    requires p.Valid()
  {
    CoreFile(p, CoreWriter.Segments(p, ms, vdso, mem, priority))
  }

  lemma SizeUnderPriority(p: Process, ms: seq<Mapping>, vdso: seq<Phdr>, mem: Memory, limit: nat)
    requires p.Valid() && CountOf(p.threads, p.mainPid) <= 1 && limit > 0
    ensures var full, size := |FileOf(p, ms, vdso, mem, 0)|, |FileOf(p, ms, vdso, mem, limit)|;
            && (FixedSize(p, |ms|, vdso) <= limit ==> size == Min(full, limit))
            && (FixedSize(p, |ms|, vdso) > limit ==> size > limit)
  {
    hide CoreFile, CoreWriter.Segments, FixedSize;
    PrioritizedSize(p, ms, vdso, mem, limit);
  }

  /** Nothing of a prioritized file is cut off if, and only if, the part of it that is
      never reduced fits; the file is then exactly as long as the limit allows. */
  lemma PrioritizedFileFits(p: Process, ms: seq<Mapping>, vdso: seq<Phdr>, mem: Memory, limit: nat)
    requires p.Valid() && CountOf(p.threads, p.mainPid) <= 1 && limit > 0
    ensures var file := FileOf(p, ms, vdso, mem, limit);
            FixedSize(p, |ms|, vdso) <= limit <==> Front(file, limit) == file
    ensures FixedSize(p, |ms|, vdso) <= limit ==>
              |FileOf(p, ms, vdso, mem, limit)| == Min(|FileOf(p, ms, vdso, mem, 0)|, limit)
  {
    hide FileOf, FixedSize;
    SizeUnderPriority(p, ms, vdso, mem, limit);
  }

  /** Prioritization cannot keep a limit of one byte: the file is cut off. */
  lemma PrioritizedFileCut(mem: Memory)
    ensures Front(FileOf(BareProcess([]), [], [], mem, 1), 1) != FileOf(BareProcess([]), [], [], mem, 1)
  {
    hide FileOf, FixedSize, Front, CountOf;
    var p := BareProcess([]);
    NoThreads(p);
    FixedPositive(p, 0, []);
    PrioritizedFileFits(p, [], [], mem, 1);
  }

  /** What a prioritized dump leaves behind when nothing goes wrong: if the part of the
      file that is never reduced fits, a complete file exactly as long as the limit
      allows, and otherwise the front of one, as long as the limit. */
  ghost predicate FitsOrFills(fixed: nat, limit: nat, file: seq<byte>, full: seq<byte>, out: seq<byte>, rc: int,
                              complete: bool)
  {
    && rc == 0
    && (fixed <= limit ==> complete && out == file && |out| == Min(|full|, limit))
    && (fixed > limit ==> !complete && out == Front(file, limit) && |out| == limit)
  }

  /** The same for what a memory map leads to. */
  ghost predicate PrioritizedOutcome(text: seq<byte>, p: Process, v: Option<Image>, mem: Memory, access: Access,
                                     limit: nat, out: seq<byte>, rc: int, complete: bool)
    requires p.Valid()
  {
    var ms := MapTable(Newlines(text), text, mem, access, p.pagesize);
    ms.Some? ==>
      var vdso := TrustedHeaders(ms.value, v);
      FitsOrFills(FixedSize(p, |ms.value|, vdso), limit, FileOf(p, ms.value, vdso, mem, limit),
                  FileOf(p, ms.value, vdso, mem, 0), out, rc, complete)
  }

  lemma DumpedOutcome(out: seq<byte>, planned: Option<seq<byte>>, full: seq<byte>, fixed: nat, limit: nat, rc: int,
                      started: bool, complete: bool)
    requires planned.Some? && Dumped(out, planned, limit, rc, started, complete, true)
    requires started <==> limit > 0
    requires limit == 0 ==> rc == 0 && fixed > 0
    requires limit > 0 && fixed <= limit ==> |planned.value| == Min(|full|, limit)
    requires limit > 0 && fixed > limit ==> |planned.value| > limit
    ensures FitsOrFills(fixed, limit, planned.value, full, out, rc, complete)
  {
  }

  lemma OutcomeOf(text: seq<byte>, p: Process, v: Option<Image>, mem: Memory, access: Access, limit: nat,
                  out: seq<byte>, rc: int, started: bool, complete: bool)
    requires p.Valid() && CountOf(p.threads, p.mainPid) <= 1
    requires Dumped(out, PlannedFile(text, p, v, mem, access, limit), limit, rc, started, complete, true)
    requires started <==> limit > 0 && PlannedFile(text, p, v, mem, access, limit).Some?
    requires limit == 0 ==> rc == 0
    ensures PrioritizedOutcome(text, p, v, mem, access, limit, out, rc, complete)
  {
    hide FileOf, FixedSize, MapTable, TrustedHeaders, CountOf, Dumped, FitsOrFills, PlannedFile, Front;
    var ms := MapTable(Newlines(text), text, mem, access, p.pagesize);
    PlannedIs(text, p, v, mem, access, limit);
    if ms.Some? {
      var vdso := TrustedHeaders(ms.value, v);
      FixedPositive(p, |ms.value|, vdso);
      if limit > 0 {
        SizeUnderPriority(p, ms.value, vdso, mem, limit);
      }
      DumpedOutcome(out, PlannedFile(text, p, v, mem, access, limit), FileOf(p, ms.value, vdso, mem, 0),
                    FixedSize(p, |ms.value|, vdso), limit, rc, started, complete);
    }
  }

  lemma PlannedIs(text: seq<byte>, p: Process, v: Option<Image>, mem: Memory, access: Access, limit: nat)
    requires p.Valid()
    ensures var ms, planned := MapTable(Newlines(text), text, mem, access, p.pagesize),
                               PlannedFile(text, p, v, mem, access, limit);
            && (ms.Some? <==> planned.Some?)
            && (ms.Some? ==> planned.value == FileOf(p, ms.value, TrustedHeaders(ms.value, v), mem, limit))
  {
    hide MapTable, CoreFile, TrustedHeaders, CoreWriter.Segments;
  }

  lemma FixedPositive(p: Process, n: nat, vdso: seq<Phdr>)
    requires p.Valid()
    ensures FixedSize(p, n, vdso) > 1
  {
    hide AnnouncedNoteSize, PagePadding, VdsoSize, ExtraHeaders;
  }

  /** Calls setters, in any order and with any arguments. */
  method CallSetters(params: CoreDumpParameters, calls: seq<Call>)
    requires params.State() == CLEARED
    modifies params
    ensures params.State() == Run(CLEARED, calls)
  {
    hide Apply;
    assert calls[..0] == [];
    for i := 0 to |calls|
      invariant params.State() == Run(CLEARED, calls[..i])
    {
      assert calls[..i + 1][..i] == calls[..i];
      var _ := params.Set(calls[i]);
    }
    assert calls[..|calls|] == calls;
  }

  /** The prioritized dump, end to end. Whatever setters asked for it, it goes straight
      through the limiting writer, with the length of the last call that could set it
      as the limit; and if the file can be opened and written and the map be read, the
      outcome is as above. */
  method DumpPrioritized(setters: seq<Call>, pipeline: Pipeline, opens: bool, file: OutFile, calls: Calls,
                         first: Io, second: Io, p: Process, v: Option<Image>, mem: Memory, access: Access)
    returns (rc: int, ghost complete: bool, ghost last: nat)
    requires p.Valid() && first != second && first.Valid() && second.Valid()
    requires first.Pending() == second.Pending() && file.contents == []
    requires CountOf(p.threads, p.mainPid) <= 1 && Prioritized(setters)
    modifies file, first, second
    ensures Last(setters, last) && setters[last].SetLimitedByPriority?
    ensures RouteOf(Run(CLEARED, setters), pipeline, opens) != Piped
    ensures |file.contents| <= setters[last].maxLength
    ensures opens && Clean(old(file.answers)) && Clean(old(first.answers)) && Clean(old(second.answers))
            && calls == Calls(true, true, true) ==>
              PrioritizedOutcome(old(first.Pending()), p, v, mem, access, setters[last].maxLength,
                                 file.contents, rc, complete)
  {
    hide *;
    last := PriorityLimit(setters);
    LimitsLast(setters, last);
    var params := new CoreDumpParameters();
    CallSetters(params, setters);
    params.StateOf();
    ghost var limit := setters[last].maxLength;
    ghost var text := first.Pending();
    ghost var clean := Clean(file.answers) && Clean(first.answers) && Clean(second.answers);
    SettersKeepConsistency(setters);
    PrioritizedRoute(Run(CLEARED, setters), pipeline, opens);
    ghost var started: bool, planned: Option<seq<byte>>;
    rc, started, complete, planned :=
      DumpToFile(params, pipeline, opens, file, calls, first, second, p, v, mem, access);
    DumpedWithin(file.contents, planned, limit, rc, started, complete, Clean(old(file.answers)));
    if opens && clean && calls == Calls(true, true, true) {
      OutcomeOf(text, p, v, mem, access, limit, file.contents, rc, started, complete);
    }
  }

  lemma LimitsLast(calls: seq<Call>, k: int)
    requires LimitsTo(calls, k)
    ensures Last(calls, k)
  {
  }

  lemma PrioritizedRoute(values: Values, pipeline: Pipeline, opens: bool)
    requires Consistent(values) && LimitedByPriority in values.flags
    ensures RouteOf(values, pipeline, opens)
            == if values.maxLength == 0 then Nothing else if opens then Direct else Refused
  {
  }

  lemma DumpedWithin(out: seq<byte>, planned: Option<seq<byte>>, limit: nat, rc: int, started: bool, complete: bool,
                     clean: bool)
    requires Dumped(out, planned, limit, rc, started, complete, clean)
    ensures |out| <= limit
  {
  }
}
