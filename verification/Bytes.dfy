/** Byte strings, little-endian integers and flattening: the vocabulary shared by
    the code that writes a core file and the independent reader of that file. */
module Bytes {

  datatype Option<+T> = None | Some(value: T)

  type byte = b: int | 0 <= b < 256

  /** The contents of an address space, one byte per address. */
  type Memory = int -> byte

  /** Largest value of `size_t` on x86-64, plus one. */
  const SIZE_LIMIT: nat := 0x1_0000_0000_0000_0000

  function Pow256(width: nat): (p: nat)
    ensures p > 0
  {
    if width == 0 then 1 else 256 * Pow256(width - 1)
  }

  lemma Pow256Values()
    ensures Pow256(2) == 0x1_0000 && Pow256(4) == 0x1_0000_0000 && Pow256(8) == SIZE_LIMIT
  {
    assert Pow256(2) == 0x1_0000;
    assert Pow256(4) == 256 * 256 * Pow256(2);
    assert Pow256(6) == 256 * 256 * Pow256(4);
    assert Pow256(8) == 256 * 256 * Pow256(6);
  }

  /** Digit number `i` of `n` in base 256. */
  function Digit(n: nat, i: nat): byte {
    n / Pow256(i) % 256
  }

  /** The low `width` bytes of `n`, least significant byte first. */
  function LittleEndian(width: nat, n: nat): (s: seq<byte>)
    ensures |s| == width
  {
    seq(width, i requires 0 <= i => Digit(n, i))
  }

  function FromLittleEndian(s: seq<byte>): nat {
    if s == [] then 0 else s[0] + 256 * FromLittleEndian(s[1..])
  }

  lemma DigitShift(n: nat, i: nat)
    ensures Digit(n, i + 1) == Digit(n / 256, i)
  {
    DivDiv(n, 256, Pow256(i));
  }

  lemma DivDiv(n: nat, a: nat, b: nat)
    requires a > 0 && b > 0
    ensures a * b > 0 && n / (a * b) == n / a / b
  {
    MulAtLeast(a, b);
    ModSplit(n, a, b);
    var m, q, r := n / a, n / a / b, n / a % b;
    Combine(n, a, b, m, n % a, q, r);
    DivModUnique(n, a * b, q, n % (a * b));
  }

  lemma Combine(n: nat, a: nat, b: nat, m: nat, s: nat, q: nat, r: nat)
    requires n == a * m + s && m == b * q + r
    ensures n == (a * b) * q + (s + a * r)
  {
    assert a * (b * q + r) == a * (b * q) + a * r;
    assert a * (b * q) == (a * b) * q;
  }

  /** Storing a number in a fixed-width field keeps it modulo the field's range. */
  lemma {:induction false} LittleEndianTruncates(width: nat, n: nat)
    ensures FromLittleEndian(LittleEndian(width, n)) == n % Pow256(width)
  {
    if width > 0 {
      LittleEndianTruncates(width - 1, n / 256);
      forall i | 0 <= i < width - 1
        ensures LittleEndian(width, n)[1..][i] == LittleEndian(width - 1, n / 256)[i]
      {
        DigitShift(n, i);
      }
      assert LittleEndian(width, n)[1..] == LittleEndian(width - 1, n / 256);
      assert Digit(n, 0) == n % 256 by {
        assert Pow256(0) == 1;
      }
      ModSplit(n, 256, Pow256(width - 1));
    }
  }

  /** A number that fits its field is read back unchanged. */
  lemma LittleEndianExact(width: nat, n: nat)
    requires n < Pow256(width)
    ensures FromLittleEndian(LittleEndian(width, n)) == n
  {
    LittleEndianTruncates(width, n);
    DivModUnique(n, Pow256(width), 0, n);
  }

  /** The ranges of the field widths that ELF uses. */
  predicate FitsField(width: nat, n: nat) {
    || (width == 2 && n < 0x1_0000)
    || (width == 4 && n < 0x1_0000_0000)
    || (width == 8 && n < SIZE_LIMIT)
  }

  lemma FieldExact(width: nat, n: nat)
    requires FitsField(width, n)
    ensures FromLittleEndian(LittleEndian(width, n)) == n
  {
    Pow256Values();
    LittleEndianExact(width, n);
  }

  /** Dividing out the lowest digit commutes with taking a remainder. */
  lemma ModSplit(n: nat, d: nat, p: nat)
    requires d > 0 && p > 0
    ensures d * p > 0 && n % (d * p) == n % d + d * (n / d % p)
  {
    var q, r := n / d, n % d;
    var a, b := q / p, q % p;
    MulAtLeast(d, p);
    assert n == (d * p) * a + (d * b + r) by {
      assert n == d * q + r;
      assert q == p * a + b;
      assert d * (p * a + b) == d * (p * a) + d * b;
      assert d * (p * a) == (d * p) * a;
    }
    assert d * b + r < d * p by {
      MulMonotone(d, b + 1, p);
      assert d * (b + 1) == d * b + d;
    }
    DivModUnique(n, d * p, a, d * b + r);
  }

  lemma MulMonotone(d: nat, a: nat, b: nat)
    requires a <= b
    ensures d * a <= d * b
  {
    assert d * b == d * a + d * (b - a);
  }

  lemma DivModUnique(n: nat, m: nat, a: nat, r: nat)
    requires m > 0 && n == m * a + r && r < m
    ensures n % m == r && n / m == a
  {
    var q, s := n / m, n % m;
    SmallMultiple(m, q - a, r - s) by {
      assert m * (q - a) == m * q - m * a;
    }
  }

  lemma {:induction false} SmallMultiple(m: int, k: int, d: int)
    requires m > 0 && m * k == d && -m < d < m
    ensures k == 0
  {
    if k > 0 {
      MulAtLeast(m, k);
    } else if k < 0 {
      assert m * (-k) == -(m * k);
      MulAtLeast(m, -k);
    }
  }

  lemma {:induction false} MulAtLeast(m: int, k: int)
    requires m > 0 && k > 0
    ensures m * k >= m
    decreases k
  {
    if k > 1 {
      MulAtLeast(m, k - 1);
      assert m * k == m * (k - 1) + m;
    }
  }

  function Zeros(n: nat): (s: seq<byte>)
    ensures |s| == n
    ensures forall i :: 0 <= i < n ==> s[i] == 0
  {
    seq(n, _ => 0)
  }

  /** The bytes of `mem` from address `start` on. */
  function MemoryRange(mem: Memory, start: nat, size: nat): (s: seq<byte>)
    ensures |s| == size
    ensures forall i :: 0 <= i < size ==> s[i] == mem(start + i)
  {
    seq(size, i => mem(start + i))
  }

  lemma Assoc<T>(a: seq<T>, b: seq<T>, c: seq<T>)
    ensures (a + b) + c == a + (b + c)
  {
  }

  function Flatten(parts: seq<seq<byte>>): seq<byte> {
    if parts == [] then [] else parts[0] + Flatten(parts[1..])
  }

  lemma {:induction false} FlattenAppend(a: seq<seq<byte>>, b: seq<seq<byte>>)
    ensures Flatten(a + b) == Flatten(a) + Flatten(b)
  {
    if a == [] {
      assert a + b == b;
    } else {
      assert (a + b)[1..] == a[1..] + b;
      FlattenAppend(a[1..], b);
      Assoc(a[0], Flatten(a[1..]), Flatten(b));
    }
  }

  lemma FlattenSnoc(parts: seq<seq<byte>>, last: seq<byte>)
    ensures Flatten(parts + [last]) == Flatten(parts) + last
  {
    FlattenAppend(parts, [last]);
    assert Flatten([last]) == last + Flatten([]);
  }

  lemma TakeSnoc<T>(s: seq<T>, i: nat)
    requires i < |s|
    ensures s[..i + 1] == s[..i] + [s[i]]
  {
  }

  /** Bytes needed to bring `n` up to a multiple of four. */
  function Pad4(n: nat): (p: nat)
    ensures p < 4 && (n + p) % 4 == 0
  {
    if n % 4 != 0 then 4 - n % 4 else 0
  }
}
