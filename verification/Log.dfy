/** The log: its list of handlers, the cached priority that lets messages be dropped
    early, and diversion. */
module Log {
  import opened Bytes

  const LOG_EMERG := 0
  const LOG_DEBUG := 7

  /** A handler, and the least severe priority it takes. */
  datatype Handler = Handler(id: int, limit: int)

  /** The handlers, the newest first; the cached priority; and the handler all messages
      are diverted to. */
  datatype State = State(handlers: seq<Handler>, maxPriority: int, diverted: Option<int>)

  const START := State([], -1, None)

  datatype Call =
    | Register(id: int, limit: int)
    | Unregister(id: int)
    | Divert(handler: Option<int>)
    | Clear

  function Without(hs: seq<Handler>, id: int): seq<Handler> {
    if hs == [] then []
    else if hs[0].id == id then Without(hs[1..], id)
    else [hs[0]] + Without(hs[1..], id)
  }

  function Max(a: int, b: int): int {
    if a > b then a else b
  }

  function MaxLimit(hs: seq<Handler>): int {
    if hs == [] then -1 else Max(hs[0].limit, MaxLimit(hs[1..]))
  }

  function Apply(s: State, c: Call): State {
    match c
    case Register(id, limit) =>
      if s.diverted.Some? then s
      else State([Handler(id, limit)] + s.handlers, Max(limit, s.maxPriority), None)
    case Unregister(id) =>
      if s.diverted.Some? then s
      else
        var rest := Without(s.handlers, id);
        State(rest, if rest == [] then -1 else Max(LOG_EMERG, MaxLimit(rest)), None)
    case Divert(handler) => State([], LOG_DEBUG, handler)
    case Clear => State([], -1, s.diverted)
  }

  function Run(calls: seq<Call>): State {
    if calls == [] then START else Apply(Run(calls[..|calls| - 1]), calls[|calls| - 1])
  }

  /** The handlers that get a message of a priority: from the front of the list, up to
      the first that refuses to propagate it. */
  function Dispatch(hs: seq<Handler>, priority: int, propagates: int -> bool): seq<int> {
    if hs == [] then []
    else if hs[0].limit < priority then Dispatch(hs[1..], priority, propagates)
    else if propagates(hs[0].id) then [hs[0].id] + Dispatch(hs[1..], priority, propagates)
    else [hs[0].id]
  }

  /** Who gets a message, without any early dropping. */
  function Full(s: State, priority: int, propagates: int -> bool): seq<int> {
    if s.diverted.Some? then [s.diverted.value] else Dispatch(s.handlers, priority, propagates)
  }

  /** What the macros call. */
  function Wrapped(s: State, priority: int, propagates: int -> bool): seq<int> {
    if s.maxPriority >= priority then Full(s, priority, propagates) else []
  }

  // ---------- The log itself ----------

  /** In the middle of unregistering: `hs` has the handlers up to `i` from the first `k`
      of `was`, and the rest of it unchanged. */
  ghost predicate Scanned(hs: seq<Handler>, i: nat, max: int, was: seq<Handler>, k: nat, id: int) {
    && i <= |hs| && k <= |was| && hs[i..] == was[k..]
    && hs[..i] + Without(was[k..], id) == Without(was, id)
    && max == Max(LOG_EMERG, MaxLimit(hs[..i]))
  }

  lemma BeginScan(was: seq<Handler>, id: int)
    ensures Scanned(was, 0, LOG_EMERG, was, 0, id)
  {
    assert was[..0] == [] && was[0..] == was;
  }

  lemma AllScanned(hs: seq<Handler>, max: int, was: seq<Handler>, id: int)
    requires Scanned(hs, |hs|, max, was, |was|, id)
    ensures hs == Without(was, id) && max == Max(LOG_EMERG, MaxLimit(hs))
  {
    assert hs[..|hs|] == hs && was[|was|..] == [] && hs + [] == hs;
  }

  lemma NextScanned(hs: seq<Handler>, i: nat, max: int, was: seq<Handler>, k: nat, id: int)
    requires Scanned(hs, i, max, was, k, id) && i < |hs| && k < |was|
    ensures hs[i].id == id ==> Scanned(hs[..i] + hs[i + 1..], i, max, was, k + 1, id)
    ensures hs[i].id != id ==> Scanned(hs, i + 1, Max(hs[i].limit, max), was, k + 1, id)
  {
    var h, front := hs[i], hs[..i];
    assert was[k..][0] == hs[i..][0] == h;
    assert was[k..][1..] == was[k + 1..] && hs[i..][1..] == hs[i + 1..];
    if h.id == id {
      var shorter := front + hs[i + 1..];
      assert shorter[..i] == front && shorter[i..] == hs[i + 1..];
    } else {
      TakeSnoc(hs, i);
      MaxLimitSnoc(front, h);
      Assoc(front, [h], Without(was[k + 1..], id));
    }
  }

  class LogSystem {
    var handlers: seq<Handler>
    var maxPriority: int
    var diverted: Option<int>

    ghost function Now(): State
      reads this
    {
      State(handlers, maxPriority, diverted)
    }

    constructor ()
      ensures Now() == START
    {
      handlers, maxPriority, diverted := [], -1, None;
    }

    /** `log_register_message_handler` */
    method RegisterMessageHandler(id: int, limit: int) returns (accepted: bool)
      modifies this
      ensures Now() == Apply(old(Now()), Register(id, limit))
      ensures accepted == old(diverted).None?
    {
      if diverted.Some? {
        return false;
      }
      if limit > maxPriority {
        maxPriority := limit;
      }
      handlers := [Handler(id, limit)] + handlers;
      return true;
    }

    /** `log_unregister_message_handler`: takes the handler out while walking the list,
        and recomputes the cached priority. */
    method UnregisterMessageHandler(id: int)
      modifies this
      ensures Now() == Apply(old(Now()), Unregister(id))
    {
      if diverted.Some? {
        return;
      }
      maxPriority := LOG_EMERG;
      ghost var was, k := handlers, 0;
      var i := 0;
      hide Scanned;
      BeginScan(was, id);
      while i < |handlers|
        invariant 0 <= i <= |handlers| && 0 <= k <= |was| && diverted.None?
        invariant |handlers| - i == |was| - k
        invariant Scanned(handlers, i, maxPriority, was, k, id)
        decreases |handlers| - i
      {
        NextScanned(handlers, i, maxPriority, was, k, id);
        if handlers[i].id == id {
          handlers := handlers[..i] + handlers[i + 1..];
        } else {
          if handlers[i].limit > maxPriority {
            maxPriority := handlers[i].limit;
          }
          i := i + 1;
        }
        k := k + 1;
      }
      AllScanned(handlers, maxPriority, was, id);
      if handlers == [] {
        maxPriority := -1;
      }
    }

    /** `log_clear`: a diversion stays. */
    method LogClear()
      modifies this
      ensures Now() == Apply(old(Now()), Clear)
    {
      maxPriority, handlers := -1, [];
    }

    /** `log_divert`; without a handler it ends the diversion. */
    method LogDivert(handler: Option<int>)
      modifies this
      ensures Now() == Apply(old(Now()), Divert(handler))
    {
      LogClear();
      diverted := handler;
      maxPriority := LOG_DEBUG;
    }

    /** `_log_alert_handlers` */
    method AlertHandlers(priority: int, propagates: int -> bool) returns (called: seq<int>)
      ensures called == Dispatch(handlers, priority, propagates)
    {
      called := [];
      var i, propagate := 0, true;
      while i < |handlers| && propagate
        invariant 0 <= i <= |handlers|
        invariant called + (if propagate then Dispatch(handlers[i..], priority, propagates) else [])
               == Dispatch(handlers, priority, propagates)
      {
        assert handlers[i..][1..] == handlers[i + 1..];
        if handlers[i].limit >= priority {
          called := called + [handlers[i].id];
          propagate := propagates(handlers[i].id);
        }
        i := i + 1;
      }
    }

    /** `log_message` and `log_vformat`: a message nobody wants is dropped without
        walking the list, yet everybody gets what they would have got. */
    method LogMessage(priority: int, propagates: int -> bool) returns (called: seq<int>)
      requires Bounded(Now())
      ensures called == Full(Now(), priority, propagates)
      ensures diverted.Some? ==> called == [diverted.value]
    {
      if diverted.Some? {
        return [diverted.value];
      }
      if handlers == [] || priority > maxPriority {
        NobodyWants(handlers, priority, propagates);
        return [];
      }
      called := AlertHandlers(priority, propagates);
    }

    /** The macros around `log_format`. */
    method LogWrap(priority: int, propagates: int -> bool) returns (called: seq<int>)
      requires Bounded(Now())
      ensures called == Wrapped(Now(), priority, propagates)
    {
      if maxPriority >= priority {
        called := LogMessage(priority, propagates);
      } else {
        called := [];
      }
    }
  }

  lemma {:induction false} MaxLimitSnoc(hs: seq<Handler>, h: Handler)
    ensures MaxLimit(hs + [h]) == Max(MaxLimit(hs), h.limit)
  {
    if hs != [] {
      assert (hs + [h])[1..] == hs[1..] + [h];
      MaxLimitSnoc(hs[1..], h);
    } else {
      assert (hs + [h])[1..] == [];
    }
  }

  lemma {:induction false} NobodyWants(hs: seq<Handler>, priority: int, propagates: int -> bool)
    requires forall h :: h in hs ==> h.limit < priority
    ensures Dispatch(hs, priority, propagates) == []
  {
    if hs != [] {
      assert hs[0] in hs && forall h :: h in hs[1..] ==> h in hs;
      NobodyWants(hs[1..], priority, propagates);
    }
  }

  // ---------- The cached priority ----------

  /** The cached priority bounds what every handler takes. */
  ghost predicate Bounded(s: State) {
    forall h :: h in s.handlers ==> h.limit <= s.maxPriority
  }

  /** The priorities there are. */
  predicate Regular(c: Call) {
    c.Register? ==> LOG_EMERG <= c.limit <= LOG_DEBUG
  }

  lemma {:induction false} MaxLimitBounds(hs: seq<Handler>)
    ensures forall h :: h in hs ==> h.limit <= MaxLimit(hs)
    ensures MaxLimit(hs) == -1 || exists h :: h in hs && h.limit == MaxLimit(hs)
  {
    if hs != [] {
      MaxLimitBounds(hs[1..]);
      assert forall h :: h in hs[1..] ==> h in hs;
      assert hs[0] in hs;
    }
  }

  lemma {:induction false} WithoutIsFilter(hs: seq<Handler>, id: int)
    ensures forall h :: h in Without(hs, id) <==> h in hs && h.id != id
  {
    if hs != [] {
      WithoutIsFilter(hs[1..], id);
      assert hs == [hs[0]] + hs[1..];
    }
  }

  /** Whatever has been registered, unregistered, diverted and cleared, the cached
      priority bounds every handler; if messages were never diverted it is exactly the
      maximum of what the handlers take, or -1 without handlers. */
  lemma {:induction false} CacheBounds(calls: seq<Call>)
    requires forall c :: c in calls ==> Regular(c)
    ensures Bounded(Run(calls))
    ensures forall h :: h in Run(calls).handlers ==> LOG_EMERG <= h.limit <= LOG_DEBUG
    ensures -1 <= Run(calls).maxPriority <= LOG_DEBUG
    ensures (forall c :: c in calls ==> !c.Divert?) ==>
              Run(calls).maxPriority == MaxLimit(Run(calls).handlers) && Run(calls).diverted.None?
    ensures Run(calls).diverted.Some? ==> Run(calls).handlers == []
  {
    if calls != [] {
      var k := |calls| - 1;
      var s := Run(calls[..k]);
      assert calls[k] in calls && forall c :: c in calls[..k] ==> c in calls;
      CacheBounds(calls[..k]);
      match calls[k]
      case Register(id, limit) =>
        assert ([Handler(id, limit)] + s.handlers)[1..] == s.handlers;
      case Unregister(id) =>
        WithoutIsFilter(s.handlers, id);
        MaxLimitBounds(Without(s.handlers, id));
      case _ =>
    }
  }

  /** Whether a diversion is in force that `log_clear` was called during. */
  predicate ClearedWhileDiverted(calls: seq<Call>) {
    calls != [] &&
    var k := |calls| - 1;
    match calls[k]
    case Divert(_) => false
    case Clear => Run(calls[..k]).diverted.Some?
    case _ => ClearedWhileDiverted(calls[..k])
  }

  lemma {:induction false} DivertedCache(calls: seq<Call>)
    ensures ClearedWhileDiverted(calls) ==> Run(calls).diverted.Some? && Run(calls).maxPriority == -1
    ensures Run(calls).diverted.Some? && !ClearedWhileDiverted(calls) ==> Run(calls).maxPriority == LOG_DEBUG
  {
    if calls != [] {
      DivertedCache(calls[..|calls| - 1]);
    }
  }

  /** The macros lose messages that a full dispatch would deliver exactly after the log
      was cleared while diverted: then they lose every one. */
  lemma MacrosAgree(calls: seq<Call>, priority: int, propagates: int -> bool)
    requires forall c :: c in calls ==> Regular(c)
    requires LOG_EMERG <= priority <= LOG_DEBUG
    ensures Wrapped(Run(calls), priority, propagates) == Full(Run(calls), priority, propagates)
            <==> !ClearedWhileDiverted(calls)
  {
    CacheBounds(calls);
    DivertedCache(calls);
    var s := Run(calls);
    if s.maxPriority < priority && s.diverted.None? {
      NobodyWants(s.handlers, priority, propagates);
    }
  }

  /** A message that the macros lose. */
  lemma MacrosLose(propagates: int -> bool)
    ensures var s := Run([Divert(Some(1)), Clear]);
            Wrapped(s, LOG_EMERG, propagates) == [] && Full(s, LOG_EMERG, propagates) == [1]
  {
    var calls := [Divert(Some(1)), Clear];
    assert calls[..1] == [Divert(Some(1))] && calls[..1][..0] == [];
    assert Run(calls[..1]) == State([], LOG_DEBUG, Some(1));
  }
}
