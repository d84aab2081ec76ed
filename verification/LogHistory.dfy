/** Who gets a message, by the calls that were made to the log. */
module LogHistory {
  import opened Bytes
  import opened Log

  // ---------- One message ----------

  /** Handler `k` takes the priority, and every handler in front of it that does
      propagates the message. */
  ghost predicate Gets(hs: seq<Handler>, k: int, priority: int, propagates: int -> bool) {
    && 0 <= k < |hs| && hs[k].limit >= priority
    && forall j :: 0 <= j < k && hs[j].limit >= priority ==> propagates(hs[j].id)
  }

  /** How many handlers take the priority. */
  function Takers(hs: seq<Handler>, priority: int): nat {
    if hs == [] then 0
    else Takers(hs[..|hs| - 1], priority) + if hs[|hs| - 1].limit >= priority then 1 else 0
  }

  lemma {:induction false} TakersFirst(hs: seq<Handler>, priority: int)
    requires hs != []
    ensures Takers(hs, priority) == (if hs[0].limit >= priority then 1 else 0) + Takers(hs[1..], priority)
  {
    var n := |hs| - 1;
    if n > 0 {
      TakersFirst(hs[..n], priority);
      assert hs[1..][..n - 1] == hs[..n][1..];
    }
  }

  lemma GetsBehind(hs: seq<Handler>, k: int, priority: int, propagates: int -> bool)
    requires 0 < k < |hs|
    ensures Gets(hs, k, priority, propagates)
            <==> Gets(hs[1..], k - 1, priority, propagates) && (hs[0].limit >= priority ==> propagates(hs[0].id))
    ensures Takers(hs[..k], priority)
         == (if hs[0].limit >= priority then 1 else 0) + Takers(hs[1..][..k - 1], priority)
  {
    TakersFirst(hs[..k], priority);
    assert hs[..k][1..] == hs[1..][..k - 1];
    assert forall j :: 0 < j < |hs| ==> hs[1..][j - 1] == hs[j];
    if Gets(hs, k, priority, propagates) {
      assert forall j :: 0 <= j < k - 1 ==> hs[1..][j] == hs[j + 1];
    }
  }

  /** A handler that is to get the message is called, behind those in front of it that
      take the priority. */
  lemma {:induction false} CalledIfGets(hs: seq<Handler>, k: int, priority: int, propagates: int -> bool)
    requires Gets(hs, k, priority, propagates)
    ensures var called, at := Dispatch(hs, priority, propagates), Takers(hs[..k], priority);
            at < |called| && called[at] == hs[k].id
  {
    if k > 0 {
      GetsBehind(hs, k, priority, propagates);
      CalledIfGets(hs[1..], k - 1, priority, propagates);
    } else {
      assert hs[..0] == [];
    }
  }

  /** Whoever is called is to get the message. */
  lemma {:induction false} GetsIfCalled(hs: seq<Handler>, at: nat, priority: int, propagates: int -> bool)
    returns (k: int)
    requires at < |Dispatch(hs, priority, propagates)|
    ensures Gets(hs, k, priority, propagates) && Takers(hs[..k], priority) == at
    ensures hs[k].id == Dispatch(hs, priority, propagates)[at]
  {
    var first := if hs[0].limit >= priority then 1 else 0;
    if first == 1 && at == 0 {
      k := 0;
      assert hs[..0] == [];
    } else {
      var i := GetsIfCalled(hs[1..], at - first, priority, propagates);
      k := i + 1;
      GetsBehind(hs, k, priority, propagates);
    }
  }

  // ---------- The handlers in force ----------

  /** Call `i` is the last one about a diversion. */
  ghost predicate LastDivert(calls: seq<Call>, i: int) {
    0 <= i < |calls| && calls[i].Divert? && forall j :: i < j < |calls| ==> !calls[j].Divert?
  }

  ghost predicate Undiverted(calls: seq<Call>) {
    forall i :: LastDivert(calls, i) ==> calls[i].handler.None?
  }

  /** Call `k` registered a handler, while nothing was diverted, and since then it was
      not unregistered, and the log neither cleared nor diverted. */
  ghost predicate Stands(calls: seq<Call>, k: int) {
    && 0 <= k < |calls| && calls[k].Register? && Undiverted(calls[..k])
    && forall j :: k < j < |calls| ==>
         !calls[j].Clear? && !calls[j].Divert? && calls[j] != Unregister(calls[k].id)
  }

  /** The handlers that stand of those registered by the first `n` calls, the newest
      first. */
  ghost function Standing(calls: seq<Call>, n: nat): seq<Handler>
    requires n <= |calls|
  {
    if n == 0 then []
    else
      (if Stands(calls, n - 1) then [Handler(calls[n - 1].id, calls[n - 1].limit)] else []) + Standing(calls, n - 1)
  }

  lemma DivertedSnoc(calls: seq<Call>, c: Call)
    ensures forall i :: LastDivert(calls + [c], i) <==>
                          (i == |calls| && c.Divert?) || (LastDivert(calls, i) && !c.Divert?)
  {
    var more := calls + [c];
    assert more[|calls|] == c && forall j :: 0 <= j < |calls| ==> more[j] == calls[j];
    forall i | LastDivert(calls, i) && !c.Divert?
      ensures LastDivert(more, i)
    {
    }
    forall i | LastDivert(more, i) && i < |calls|
      ensures LastDivert(calls, i) && !c.Divert?
    {
    }
  }

  /** Messages are diverted to whatever the last such call named. */
  lemma {:induction false} DivertedLast(calls: seq<Call>)
    ensures forall i :: LastDivert(calls, i) ==> Run(calls).diverted == calls[i].handler
    ensures (forall i :: 0 <= i < |calls| ==> !calls[i].Divert?) ==> Run(calls).diverted == None
    ensures Undiverted(calls) <==> Run(calls).diverted == None
  {
    if calls != [] {
      var n := |calls| - 1;
      DivertedLast(calls[..n]);
      DivertedSnoc(calls[..n], calls[n]);
      assert calls == calls[..n] + [calls[n]];
      LastDivertExists(calls);
    }
  }

  lemma {:induction false} LastDivertExists(calls: seq<Call>)
    ensures (exists i :: LastDivert(calls, i)) || forall i :: 0 <= i < |calls| ==> !calls[i].Divert?
  {
    if calls != [] {
      var n := |calls| - 1;
      LastDivertExists(calls[..n]);
      DivertedSnoc(calls[..n], calls[n]);
      assert calls == calls[..n] + [calls[n]];
      assert calls[n].Divert? ==> LastDivert(calls, n);
      if i :| LastDivert(calls[..n], i) && !calls[n].Divert? {
        assert LastDivert(calls, i);
      } else if !calls[n].Divert? {
        assert forall i :: 0 <= i < n ==> calls[..n][i] == calls[i];
      }
    }
  }

  /** What one more call leaves standing. */
  lemma StandsSnoc(calls: seq<Call>, c: Call, k: int)
    requires 0 <= k < |calls|
    ensures Stands(calls + [c], k) <==>
              Stands(calls, k) && !c.Clear? && !c.Divert? && c != Unregister(calls[k].id)
  {
    assert (calls + [c])[..k] == calls[..k];
    if Stands(calls + [c], k) {
      assert (calls + [c])[|calls|] == c;
      assert forall j :: 0 <= j < |calls| ==> (calls + [c])[j] == calls[j];
    }
  }

  lemma StandsLast(calls: seq<Call>, c: Call)
    ensures Stands(calls + [c], |calls|) <==> c.Register? && Undiverted(calls)
  {
    assert (calls + [c])[..|calls|] == calls;
  }

  /** If something stands, nothing is diverted. */
  lemma StandsUndiverted(calls: seq<Call>, k: int)
    requires Stands(calls, k)
    ensures Undiverted(calls)
  {
    forall i | LastDivert(calls, i)
      ensures calls[i].handler.None?
    {
      assert i < k;
      assert LastDivert(calls[..k], i);
    }
  }

  lemma WithoutCons(h: Handler, hs: seq<Handler>, id: int)
    ensures Without([h] + hs, id) == (if h.id == id then [] else [h]) + Without(hs, id)
  {
    assert ([h] + hs)[1..] == hs;
  }

  /** What the handlers in force become with one more call. */
  function Afterwards(hs: seq<Handler>, c: Call, undiverted: bool): seq<Handler> {
    match c
    case Register(_, _) => hs
    case Unregister(id) => if undiverted then Without(hs, id) else hs
    case _ => []
  }

  lemma AfterwardsCons(h: Handler, hs: seq<Handler>, c: Call)
    ensures Afterwards([h] + hs, c, true)
         == (if c.Clear? || c.Divert? || c == Unregister(h.id) then [] else [h]) + Afterwards(hs, c, true)
  {
    if c.Unregister? {
      WithoutCons(h, hs, c.id);
    }
  }

  lemma StandingStep(calls: seq<Call>, n: nat)
    requires 0 < n <= |calls|
    ensures !Stands(calls, n - 1) ==> Standing(calls, n) == Standing(calls, n - 1)
    ensures Stands(calls, n - 1) ==>
              Standing(calls, n) == [Handler(calls[n - 1].id, calls[n - 1].limit)] + Standing(calls, n - 1)
  {
    if Stands(calls, n - 1) {
      StandsRegister(calls, n - 1);
    }
  }

  lemma {:induction false} StandingSnoc(calls: seq<Call>, c: Call, n: nat)
    requires n <= |calls|
    ensures Standing(calls + [c], n) == Afterwards(Standing(calls, n), c, Undiverted(calls))
    ensures !Undiverted(calls) ==> Standing(calls, n) == []
  {
    hide Stands, Undiverted, Afterwards, Standing;
    if n > 0 {
      StandingSnoc(calls, c, n - 1);
      StandsSnoc(calls, c, n - 1);
      StandingStep(calls, n);
      StandingStep(calls + [c], n);
      if Stands(calls, n - 1) {
        StandsRegister(calls, n - 1);
        StandsUndiverted(calls, n - 1);
        AfterwardsCons(Handler(calls[n - 1].id, calls[n - 1].limit), Standing(calls, n - 1), c);
      }
    } else {
      NothingStands(calls, c);
    }
  }

  lemma NothingStands(calls: seq<Call>, c: Call)
    ensures Standing(calls, 0) == [] == Standing(calls + [c], 0) == Afterwards([], c, Undiverted(calls))
  {
  }

  lemma StandsRegister(calls: seq<Call>, k: int)
    requires Stands(calls, k)
    ensures 0 <= k < |calls| && calls[k].Register?
  {
  }

  /** After any sequence of calls the handlers are those that stand, the newest first. */
  lemma {:induction false} HandlersStand(calls: seq<Call>)
    ensures Run(calls).handlers == Standing(calls, |calls|)
  {
    hide Stands, Undiverted, Without;
    if calls != [] {
      var n := |calls| - 1;
      HandlersStand(calls[..n]);
      DivertedLast(calls[..n]);
      StandingSnoc(calls[..n], calls[n], n);
      StandsLast(calls[..n], calls[n]);
      assert calls[..n] + [calls[n]] == calls;
    }
  }
}
