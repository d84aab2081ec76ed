/** The output side of the core dumper: `c_write`, `SimpleWriter`, `LimitWriter`
    and the "limit reached" test, over a kernel that may interrupt a write, cut it
    short at any length, or fail. */
module Writers {
  import opened Bytes

  /** What the kernel answers to one `write` or `read` system call. */
  datatype Answer =
    | Interrupted          // -1 with EINTR
    | Failed               // -1 with any other error
    | Moved(count: nat)    // at most this many bytes are transferred

  predicate Faultless(a: Answer) {
    a.Interrupted? || (a.Moved? && a.count > 0)
  }

  /** No I/O error: interruptions and short transfers only. */
  predicate Clean(answers: seq<Answer>) {
    forall a | a in answers :: Faultless(a)
  }

  function Min(a: nat, b: nat): nat {
    if a <= b then a else b
  }

  /** What `c_write` makes of the kernel's answers for `n` bytes: how many of them go
      out, and whether it ends with an error. */
  function Transfer(answers: seq<Answer>, n: nat): (r: (nat, bool))
    ensures r.0 <= n && (r.1 ==> r.0 < n)
    ensures Clean(answers) ==> r == (n, false)
    decreases |answers|
  {
    if n == 0 then (0, false)
    else if answers == [] then (n, false)
    else
      assert Clean(answers) ==> answers[0] in answers && Clean(answers[1..]);
      match answers[0]
      case Interrupted => Transfer(answers[1..], n)
      case Failed => (0, true)
      case Moved(0) => (0, false)
      case Moved(count) =>
        var rest := Transfer(answers[1..], n - Min(count, n));
        (Min(count, n) + rest.0, rest.1)
  }

  /** The kernel takes one byte and then fails: the byte is out, the call has failed. */
  lemma FailureAfterProgress(n: nat)
    requires n >= 2
    ensures Transfer([Moved(1), Failed], n) == (1, true)
  {
    assert [Moved(1), Failed][1..] == [Failed];
  }

  /** An open file descriptor. The kernel's future answers are a script; when the
      script runs out every write succeeds in full. */
  class OutFile {
    var answers: seq<Answer>
    var contents: seq<byte>

    constructor (answers: seq<Answer>)
      ensures this.answers == answers && contents == []
    {
      this.answers, contents := answers, [];
    }

    /** `sys_write`, already re-issued while it is interrupted; -1 on error. */
    method SysWrite(buf: seq<byte>) returns (rc: int)
      requires buf != []
      modifies this
      ensures Clean(old(answers)) ==> Clean(answers) && rc > 0
      ensures -1 <= rc <= |buf|
      ensures contents == old(contents) + (if rc > 0 then buf[..rc] else [])
      ensures rc == |buf| || |answers| < |old(answers)|
      ensures rc < 0 ==> Transfer(old(answers), |buf|) == (0, true)
      ensures rc == 0 ==> Transfer(old(answers), |buf|) == (0, false)
      ensures rc > 0 ==>
                var rest := Transfer(answers, |buf| - rc);
                Transfer(old(answers), |buf|) == (rc + rest.0, rest.1)
    {
      while answers != [] && answers[0].Interrupted?
        invariant contents == old(contents)
        invariant |answers| <= |old(answers)|
        invariant Clean(old(answers)) ==> Clean(answers)
        invariant Transfer(answers, |buf|) == Transfer(old(answers), |buf|)
        decreases |answers|
      {
        answers := answers[1..];
      }
      if answers == [] {
        contents := contents + buf;
        return |buf|;
      }
      var a := answers[0];
      assert a in answers;
      answers := answers[1..];
      match a
      case Moved(count) =>
        rc := Min(count, |buf|);
        contents := contents + buf[..rc];
      case _ =>
        rc := -1;
    }

    /** `c_write`: keeps writing until everything is out, an error occurs, or the
        kernel accepts nothing. After an error the result is -1 although a part of
        the buffer may be in the file. */
    method CWrite(buf: seq<byte>) returns (rc: int)
      modifies this
      ensures Clean(old(answers)) ==> Clean(answers) && rc == |buf|
      ensures -1 <= rc <= |buf|
      ensures old(contents) <= contents <= old(contents) + buf
      ensures rc >= 0 ==> contents == old(contents) + buf[..rc]
      ensures var t := Transfer(old(answers), |buf|);
              contents == old(contents) + buf[..t.0] && rc == if t.1 then -1 else t.0
    {
      var sent := 0;
      while sent < |buf|
        invariant 0 <= sent <= |buf|
        invariant contents == old(contents) + buf[..sent]
        invariant Clean(old(answers)) ==> Clean(answers)
        invariant var t, rest := Transfer(old(answers), |buf|), Transfer(answers, |buf| - sent);
                  t == (sent + rest.0, rest.1)
        decreases |buf| - sent, |answers|
      {
        var n := SysWrite(buf[sent..]);
        if n < 0 {
          return n;
        } else if n == 0 {
          break;
        }
        assert buf[..sent] + buf[sent..][..n] == buf[..sent + n];
        sent := sent + n;
      }
      return sent;
    }
  }

  /** What can be seen of a writer between two calls. */
  datatype View = View(out: seq<byte>, limited: bool, room: nat, clean: bool)

  /** From `a` to `b` an attempt was made to write `data`, in one or more calls, and
      the attempt stopped at the first call that fell short. `ok` tells whether all
      of `data` went out. */
  ghost predicate Attempt(a: View, b: View, data: seq<byte>, ok: bool) {
    && b.limited == a.limited
    && (a.clean ==> b.clean)
    && a.out <= b.out <= a.out + data
    && (ok <==> b.out == a.out + data)
    && (ok ==> (a.limited ==> |data| <= a.room && b.room == a.room - |data|))
    && (a.limited ==> |b.out| - |a.out| <= a.room && b.room <= a.room)
    && (a.clean && !ok ==>
          && a.limited
          && |data| > a.room
          && b.room == 0
          && |b.out| == |a.out| + a.room)
  }

  lemma AttemptNothing(a: View)
    ensures Attempt(a, a, [], true)
  {
    assert a.out + [] == a.out;
  }

  /** A successful attempt followed by another one is one attempt at both. */
  lemma AttemptThen(a: View, b: View, c: View, first: seq<byte>, second: seq<byte>, ok: bool)
    requires Attempt(a, b, first, true) && Attempt(b, c, second, ok)
    ensures Attempt(a, c, first + second, ok)
  {
    assert a.out + (first + second) == (a.out + first) + second;
  }

  /** A failed attempt at `first` is a failed attempt at anything longer. */
  lemma AttemptStops(a: View, b: View, first: seq<byte>, rest: seq<byte>)
    requires Attempt(a, b, first, false)
    ensures Attempt(a, b, first + rest, false)
  {
    assert a.out + first <= a.out + (first + rest);
  }

  /** In a run without I/O errors an attempt leaves exactly the longest prefix of
      `data` that fits, succeeds exactly when all of it fits, and keeps the sum of
      the bytes written and the room left constant. */
  lemma CleanAttemptIsPrefix(a: View, b: View, data: seq<byte>, ok: bool)
    requires Attempt(a, b, data, ok) && a.clean
    ensures var n := if a.limited then Min(|data|, a.room) else |data|;
            && b.out == a.out + data[..n]
            && (ok <==> n == |data|)
            && (a.limited ==> |b.out| + b.room == |a.out| + a.room)
  {
    var n := |b.out| - |a.out|;
    assert b.out == (a.out + data)[..|b.out|];
    assert (a.out + data)[..|a.out| + n] == a.out + data[..n];
  }

  /** The `handle` given to `CreateElfCore` together with its writer function:
      `LimitWriter` over `struct WriterFds` if `limited`, else `SimpleWriter`. */
  class Handle {
    const file: OutFile
    const limited: bool
    var maxLength: nat

    constructor (file: OutFile, limited: bool, maxLength: nat)
      ensures this.file == file && this.limited == limited && this.maxLength == maxLength
    {
      this.file, this.limited, this.maxLength := file, limited, maxLength;
    }

    ghost function State(): View
      reads this, file
    {
      View(file.contents, limited, maxLength, Clean(file.answers))
    }

    method SimpleWriter(buf: seq<byte>) returns (rc: int)
      requires !limited
      modifies file
      ensures Attempt(old(State()), State(), buf, rc == |buf|)
      ensures rc == |buf| <==> file.contents == old(file.contents) + buf
    {
      rc := file.CWrite(buf);
    }

    /** `LimitWriter`. A call that fails after a part of the buffer went out does not
        charge for that part: the bytes written and the room left then add up to more
        than before, and only then. */
    method LimitWriter(buf: seq<byte>) returns (rc: int)
      requires limited
      modifies this, file
      ensures Attempt(old(State()), State(), buf, rc == |buf|)
      ensures var t := Transfer(old(file.answers), Min(|buf|, old(maxLength)));
              && file.contents == old(file.contents) + buf[..t.0]
              && rc == (if t.1 then -1 else t.0)
              && maxLength == old(maxLength) - (if t.1 then 0 else t.0)
      ensures |file.contents| + maxLength == |old(file.contents)| + old(maxLength)
              <==> rc >= 0 || file.contents == old(file.contents)
      ensures rc < 0 ==> maxLength == old(maxLength)
    {
      var bytes := Min(|buf|, maxLength);
      rc := file.CWrite(buf[..bytes]);
      assert file.contents <= old(file.contents) + buf[..bytes] <= old(file.contents) + buf;
      if rc > 0 {
        maxLength := maxLength - rc;
      }
    }

    /** The call through the `writer` function pointer; `ok` is the caller's test
        that the whole buffer was accepted. */
    method Write(buf: seq<byte>) returns (ok: bool)
      modifies this, file
      ensures Attempt(old(State()), State(), buf, ok)
    {
      var rc: int;
      if limited {
        rc := LimitWriter(buf);
      } else {
        rc := SimpleWriter(buf);
      }
      ok := rc == |buf|;
    }

    /** `PipeDone` for the limited writer, `SimpleDone` otherwise. */
    method IsDone() returns (done: bool)
      ensures done <==> limited && maxLength == 0
    {
      done := limited && maxLength == 0;
    }
  }
}
