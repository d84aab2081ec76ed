/** Writing towards a known file, one writer call at a time, through a writer that
    may stop at any point. */
module Emission {
  import opened Bytes
  import opened Writers

  /** `done`, the front of `target`, has been written since `start`. */
  ghost predicate Reached(start: View, now: View, done: seq<byte>, target: seq<byte>) {
    done <= target && Attempt(start, now, done, true)
  }

  /** Either everything up to `done` is out, or writing `target` has stopped early. */
  ghost predicate Outcome(start: View, now: View, done: seq<byte>, target: seq<byte>, ok: bool) {
    if ok then Reached(start, now, done, target) else Attempt(start, now, target, false)
  }

  /** One call of the writer, and the test of its result. */
  method Emit(h: Handle, buf: seq<byte>, ghost start: View, ghost done: seq<byte>, ghost target: seq<byte>)
    returns (ok: bool)
    requires Reached(start, h.State(), done, target) && done + buf <= target
    modifies h, h.file
    ensures Outcome(start, h.State(), done + buf, target, ok)
  {
    ghost var before := h.State();
    ok := h.Write(buf);
    AttemptThen(start, before, h.State(), done, buf, ok);
    if !ok {
      AttemptStops(start, h.State(), done + buf, target[|done + buf|..]);
      assert done + buf + target[|done + buf|..] == target;
    }
  }

  lemma FlattenPrefix(parts: seq<seq<byte>>, n: nat)
    requires n <= |parts|
    ensures Flatten(parts[..n]) <= Flatten(parts)
  {
    hide Flatten;
    assert parts == parts[..n] + parts[n..];
    FlattenAppend(parts[..n], parts[n..]);
  }

  lemma FlattenTake(parts: seq<seq<byte>>, i: nat)
    requires i < |parts|
    ensures Flatten(parts[..i + 1]) == Flatten(parts[..i]) + parts[i]
  {
    hide Flatten;
    TakeSnoc(parts, i);
    FlattenSnoc(parts[..i], parts[i]);
  }

  /** The next part of a list whose whole is inside the target. */
  lemma NextPart(done: seq<byte>, parts: seq<seq<byte>>, i: nat, target: seq<byte>)
    requires i < |parts| && done + Flatten(parts) <= target
    ensures done + Flatten(parts[..i + 1]) == done + Flatten(parts[..i]) + parts[i]
    ensures done + Flatten(parts[..i]) + parts[i] <= target
  {
    hide Flatten;
    FlattenTake(parts, i);
    FlattenPrefix(parts, i + 1);
    Assoc(done, Flatten(parts[..i]), parts[i]);
    PrefixOfPrefix(done, Flatten(parts[..i + 1]), Flatten(parts), target);
  }

  lemma PrefixOfPrefix(done: seq<byte>, a: seq<byte>, b: seq<byte>, target: seq<byte>)
    requires a <= b && done + b <= target
    ensures done + a <= target
  {
  }

  lemma NothingFlattened(done: seq<byte>, parts: seq<seq<byte>>)
    ensures done + Flatten(parts[..0]) == done
  {
  }
}
