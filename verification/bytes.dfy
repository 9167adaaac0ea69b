// Big-endian integers in a byte buffer: packi16/32/64 and their unpackers in
// Common/serial.c are the widths 2, 4 and 8 of the functions below.
module Bytes {

  type byte = x: int | 0 <= x < 256

  datatype Option<+T> = None | Some(value: T) {
    predicate IsFailure() { None? }

    function PropagateFailure<U>(): Option<U>
      requires None?
    {
      None
    }

    function Extract(): T
      requires Some?
    {
      value
    }
  }

  /** 256 to the power n: how many values fit in n bytes. */
  function Span(n: nat): (s: int)
    ensures s >= 1
  {
    if n == 0 then 1 else 256 * Span(n - 1)
  }

  lemma SpanValues()
    ensures Span(1) == 0x100 && Span(2) == 0x1_0000
    ensures Span(4) == 0x1_0000_0000 && Span(8) == 0x1_0000_0000_0000_0000
  {
    assert Span(3) == 256 * Span(2);
    assert Span(5) == 256 * Span(4);
    assert Span(6) == 256 * Span(5);
    assert Span(7) == 256 * Span(6);
  }

  /** The n low-order bytes of i, most significant first. C's conversion of a
      negative int to unsigned is the floor division used here. */
  function PackBytes(n: nat, i: int): (b: seq<byte>)
    ensures |b| == n
  {
    if n == 0 then [] else PackBytes(n - 1, i / 256) + [i % 256]
  }

  /** The unsigned value of a big-endian byte string. */
  function UnpackUnsigned(b: seq<byte>): (u: nat)
    ensures u < Span(|b|)
  {
    if b == [] then 0 else 256 * UnpackUnsigned(b[..|b| - 1]) + b[|b| - 1]
  }

  /** The re-signing step shared by unpacki16, unpacki32 and unpacki64. */
  function UnpackSigned(b: seq<byte>): (i: int)
    requires |b| > 0
    ensures -Span(|b|) <= 2 * i < Span(|b|)
  {
    var u := UnpackUnsigned(b);
    if 2 * u < Span(|b|) then u else -1 - (Span(|b|) - 1 - u)
  }

  /** What is left of i after a trip through n unsigned bytes. */
  function WrapUnsigned(n: nat, i: int): (u: int)
    ensures 0 <= u < Span(n)
    ensures 0 <= i < Span(n) <==> u == i
  {
    ModExact(i, Span(n));
    i % Span(n)
  }

  /** What is left of i after a trip through n signed bytes. */
  function WrapSigned(n: nat, i: int): (s: int)
    requires n > 0
    ensures -Span(n) <= 2 * s < Span(n)
    ensures -Span(n) <= 2 * i < Span(n) <==> s == i
  {
    var u := i % Span(n);
    ModExact(i, Span(n));
    if 2 * u < Span(n) then u else u - Span(n)
  }

  lemma ModExact(i: int, m: int)
    requires m > 0
    ensures 0 <= i % m < m
    ensures 0 <= i < m ==> i % m == i
    ensures -m <= i < 0 ==> i % m == i + m || i == -m
    ensures i == -m ==> i % m == 0
  {
    if 0 <= i < m {
      DivModUnique(i, m, 0, i);
    } else if -m <= i < 0 {
      DivModUnique(i, m, -1, i + m);
    }
  }

  lemma MulAtLeast(k: int, m: int)
    requires k >= 1 && m > 0
    ensures k * m >= m
  {
    assert (k - 1) * m >= 0;
  }

  lemma DivModUnique(i: int, m: int, q: int, r: int)
    requires m > 0 && i == q * m + r && 0 <= r < m
    ensures i / m == q && i % m == r
  {
    var q', r' := i / m, i % m;
    assert i == q' * m + r';
    assert (q - q') * m == r' - r;
    assert (q' - q) * m == r - r';
    if q > q' {
      MulAtLeast(q - q', m);
    } else if q < q' {
      MulAtLeast(q' - q, m);
    }
  }

  /** Reducing modulo 256 m is reducing the quotient by 256 modulo m. */
  lemma ModSplit(i: int, m: int)
    requires m > 0
    ensures i % (256 * m) == 256 * ((i / 256) % m) + i % 256
  {
    var h, q, r := i / 256, (i / 256) / m, (i / 256) % m;
    assert h == q * m + r;
    assert i == q * (256 * m) + (256 * r + i % 256) by {
      assert 256 * (q * m) == q * (256 * m);
    }
    DivModUnique(i, 256 * m, q, 256 * r + i % 256);
  }

  /** The most significant byte goes first: byte k is the digit of i that n - 1 - k others
      follow. */
  lemma {:induction false} PackedByte(n: nat, i: int, k: nat)
    requires k < n
    ensures PackBytes(n, i)[k] == i / Span(n - 1 - k) % 256
  {
    if k < n - 1 {
      PackedByte(n - 1, i / 256, k);
      DivTwice(i, Span(n - 2 - k));
    }
  }

  lemma DivTwice(i: int, m: int)
    requires m > 0
    ensures i / 256 / m == i / (256 * m)
  {
    var h, q, r := i / 256, i / 256 / m, i / 256 % m;
    assert h == q * m + r && i == h * 256 + i % 256;
    assert i == q * (256 * m) + (256 * r + i % 256) by {
      assert 256 * (q * m) == q * (256 * m);
    }
    DivModUnique(i, 256 * m, q, 256 * r + i % 256);
  }

  /** Unpacking n packed bytes gives i back modulo 256^n. */
  lemma {:induction false} UnpackPackUnsigned(n: nat, i: int)
    ensures UnpackUnsigned(PackBytes(n, i)) == WrapUnsigned(n, i)
  {
    if n == 0 {
    } else {
      var b := PackBytes(n, i);
      assert b[..n - 1] == PackBytes(n - 1, i / 256);
      UnpackPackUnsigned(n - 1, i / 256);
      ModSplit(i, Span(n - 1));
    }
  }

  lemma UnpackPackSigned(n: nat, i: int)
    requires n > 0
    ensures UnpackSigned(PackBytes(n, i)) == WrapSigned(n, i)
  {
    UnpackPackUnsigned(n, i);
  }

  /** The converse: packing what was unpacked rebuilds the bytes. */
  lemma {:induction false} PackUnpack(b: seq<byte>)
    ensures PackBytes(|b|, UnpackUnsigned(b)) == b
    ensures |b| > 0 ==> PackBytes(|b|, UnpackSigned(b)) == b
  {
    if b != [] {
      var n, u := |b|, UnpackUnsigned(b);
      PackUnpack(b[..n - 1]);
      DivModUnique(u, 256, UnpackUnsigned(b[..n - 1]), b[n - 1]);
      assert PackBytes(n, u) == b;
      if UnpackSigned(b) != u {
        PackModular(n, u);
      }
    }
  }

  /** Only the residue modulo 256^n is packed. */
  lemma {:induction false} PackModular(n: nat, i: int)
    ensures PackBytes(n, i - Span(n)) == PackBytes(n, i)
  {
    if n > 0 {
      var q, r := i / 256, i % 256;
      DivModUnique(i - Span(n), 256, q - Span(n - 1), r);
      PackModular(n - 1, q);
    }
  }
}
