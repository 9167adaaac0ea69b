// Common/serial.c:200-476: the format-string interpreter behind serial_pack and
// serial_unpack. One letter of the format stands for one field; digits in front of
// an s limit the length of the string that is unpacked.
module Serial {
  import opened Bytes
  import F = Float754

  datatype Arg = Number(i: int) | Text(s: seq<byte>) | Floating(f: real)

  /** Bytes of a number field; 0 for every other character. */
  function Width(c: char): nat {
    if c in "cC" then 1 else if c in "hHf" then 2 else if c in "lLd" then 4 else if c in "qQg" then 8 else 0
  }

  predicate IsSigned(c: char) { c in "chlq" }

  predicate IsFloat(c: char) { c in "fdg" }

  predicate TakesArgument(c: char) { Width(c) > 0 || c == 's' }

  predicate IsDigit(c: char) { '0' <= c <= '9' }

  /** The word format of a floating-point code. */
  function FormatOf(c: char): (fmt: F.Format)
    requires IsFloat(c)
    ensures fmt.Valid() && fmt.bits == 8 * Width(c)
  {
    if c == 'f' then F.Format(16, 5) else if c == 'd' then F.Format(32, 8) else F.Format(64, 11)
  }

  /** (1 << sigbits) + 0.5f keeps the 0.5 in single precision only for 10 bits. */
  function HalfOf(c: char): real { if c == 'f' then 0.5 else 0.0 }

  /** A C string has no NUL inside. */
  predicate CString(s: seq<byte>) { 0 !in s }

  /** What a C program sees of some bytes followed by a NUL. */
  function UpToNul(b: seq<byte>): (s: seq<byte>)
    ensures CString(s) && s <= b
    ensures CString(b) ==> s == b
  {
    if b == [] || b[0] == 0 then [] else [b[0]] + UpToNul(b[1..])
  }

  predicate Accepts(c: char, a: Arg) {
    match a
    case Number(_) => Width(c) > 0 && !IsFloat(c)
    case Floating(_) => IsFloat(c)
    case Text(s) => c == 's' && CString(s)
  }

  /** The arguments are those the format asks for. */
  predicate Matches(format: string, args: seq<Arg>) {
    if format == [] then args == []
    else if !TakesArgument(format[0]) then Matches(format[1..], args)
    else args != [] && Accepts(format[0], args[0]) && Matches(format[1..], args[1..])
  }

  // ----- Packing

  function Field(c: char, a: Arg): (b: seq<byte>)
    requires Accepts(c, a)
  {
    match a
    case Number(i) => PackBytes(Width(c), i)
    case Floating(f) => PackBytes(Width(c), F.Pack(FormatOf(c), HalfOf(c), f))
    case Text(s) => PackBytes(2, |s|) + s
  }

  function FieldSize(c: char, a: Arg): nat {
    if a.Text? then 2 + |a.s| else Width(c)
  }

  function Packed(format: string, args: seq<Arg>): seq<byte>
    requires Matches(format, args)
  {
    if format == [] then []
    else if !TakesArgument(format[0]) then Packed(format[1..], args)
    else Field(format[0], args[0]) + Packed(format[1..], args[1..])
  }

  function TotalSize(format: string, args: seq<Arg>): nat
    requires Matches(format, args)
  {
    if format == [] then 0
    else if !TakesArgument(format[0]) then TotalSize(format[1..], args)
    else FieldSize(format[0], args[0]) + TotalSize(format[1..], args[1..])
  }

  // ----- Unpacking

  /** One field and the number of bytes it takes up; None where a byte is read beyond the
      buffer. A string that is cut is skipped as a whole, but only the bytes kept are read:
      the position may move to the end or, which is all the same, beyond it. */
  function ReadField(c: char, b: seq<byte>, maxlen: nat): (r: Option<(Arg, nat)>)
    requires TakesArgument(c)
    ensures r.Some? ==> r.value.1 <= |b|
  {
    if c == 's' then
      if |b| < 2 then None
      else
        var len := UnpackUnsigned(b[..2]);
        var count := if maxlen > 0 && len > maxlen then maxlen - 1 else len;
        if |b| < 2 + count then None
        else Some((Text(UpToNul(b[2..2 + count])), if |b| < 2 + len then |b| else 2 + len))
    else if |b| < Width(c) then None
    else
      var field := b[..Width(c)];
      var a := if IsFloat(c) then Floating(F.Unpack(FormatOf(c), UnpackUnsigned(field)))
               else if IsSigned(c) then Number(UnpackSigned(field)) else Number(UnpackUnsigned(field));
      Some((a, Width(c)))
  }

  /** maxstrlen, an unsigned int, after another character of the format. */
  function NextLimit(c: char, maxlen: nat): nat {
    if IsDigit(c) then (maxlen * 10 + (c as int - '0' as int)) % 0x1_0000_0000 else 0
  }

  function Unpacked(format: string, b: seq<byte>, maxlen: nat): Option<seq<Arg>>
    decreases |format|
  {
    if format == [] then Some([])
    else if !TakesArgument(format[0]) then Unpacked(format[1..], b, NextLimit(format[0], maxlen))
    else
      match ReadField(format[0], b, maxlen)
      case None => None
      case Some((a, n)) =>
        match Unpacked(format[1..], b[n..], 0)
        case None => None
        case Some(rest) => Some([a] + rest)
  }

  // ----- What arrives

  function Received1(c: char, a: Arg, maxlen: nat): Arg
    requires Accepts(c, a)
  {
    match a
    case Number(i) => Number(if IsSigned(c) then WrapSigned(Width(c), i) else WrapUnsigned(Width(c), i))
    case Floating(f) => Floating(F.Unpack(FormatOf(c), WrapUnsigned(Width(c), F.Pack(FormatOf(c), HalfOf(c), f))))
    case Text(s) => Text(if maxlen > 0 && |s| > maxlen then s[..maxlen - 1] else s)
  }

  function Received(format: string, args: seq<Arg>, maxlen: nat): (r: seq<Arg>)
    requires Matches(format, args)
    decreases |format|
  {
    if format == [] then []
    else if !TakesArgument(format[0]) then Received(format[1..], args, NextLimit(format[0], maxlen))
    else [Received1(format[0], args[0], maxlen)] + Received(format[1..], args[1..], 0)
  }

  /** Lengths fit the 16-bit prefix. */
  predicate ShortTexts(args: seq<Arg>) { forall a :: a in args && a.Text? ==> |a.s| < 0x1_0000 }

  lemma FieldBack(c: char, a: Arg, maxlen: nat, rest: seq<byte>)
    requires Accepts(c, a) && (a.Text? ==> |a.s| < 0x1_0000)
    ensures |Field(c, a)| == FieldSize(c, a)
    ensures ReadField(c, Field(c, a) + rest, maxlen) == Some((Received1(c, a, maxlen), FieldSize(c, a)))
  {
    var b := Field(c, a) + rest;
    match a {
      case Number(i) =>
        assert b[..Width(c)] == Field(c, a);
        UnpackPackUnsigned(Width(c), i);
        UnpackPackSigned(Width(c), i);
      case Floating(f) =>
        assert b[..Width(c)] == Field(c, a);
        UnpackPackUnsigned(Width(c), F.Pack(FormatOf(c), HalfOf(c), f));
      case Text(s) => TextBack(s, maxlen, rest);
    }
  }

  lemma TextBack(s: seq<byte>, maxlen: nat, rest: seq<byte>)
    requires CString(s) && |s| < 0x1_0000
    ensures |Field('s', Text(s))| == 2 + |s|
    ensures ReadField('s', Field('s', Text(s)) + rest, maxlen) == Some((Received1('s', Text(s), maxlen), 2 + |s|))
  {
    var b, count := Field('s', Text(s)) + rest, if maxlen > 0 && |s| > maxlen then maxlen - 1 else |s|;
    SpanValues();
    UnpackPackUnsigned(2, |s|);
    assert b[..2] == PackBytes(2, |s|);
    assert UnpackUnsigned(b[..2]) == |s|;
    assert b[2..2 + count] == s[..count] && CString(s[..count]);
    assert UpToNul(b[2..2 + count]) == s[..count];
  }

  /** Unpacking what was packed, whatever follows it, gives every argument reduced to
      its field: numbers to their width, strings to their limit. A truncated string
      does not disturb the fields after it. */
  lemma {:induction false} UnpackInvertsPack(format: string, args: seq<Arg>, maxlen: nat, rest: seq<byte>)
    requires Matches(format, args) && ShortTexts(args)
    ensures Unpacked(format, Packed(format, args) + rest, maxlen) == Some(Received(format, args, maxlen))
    decreases |format|
  {
    if format != [] {
      if !TakesArgument(format[0]) {
        UnpackInvertsPack(format[1..], args, NextLimit(format[0], maxlen), rest);
      } else {
        var field, tail := Field(format[0], args[0]), Packed(format[1..], args[1..]);
        FieldBack(format[0], args[0], maxlen, tail + rest);
        assert Packed(format, args) + rest == field + (tail + rest);
        assert (field + (tail + rest))[|field|..] == tail + rest;
        UnpackInvertsPack(format[1..], args[1..], 0, rest);
      }
    }
  }

  /** The size returned is the sum of the field sizes. */
  lemma {:induction false} SizeIsSum(format: string, args: seq<Arg>)
    requires Matches(format, args)
    ensures |Packed(format, args)| == TotalSize(format, args)
  {
    if format != [] {
      if !TakesArgument(format[0]) { SizeIsSum(format[1..], args); } else { SizeIsSum(format[1..], args[1..]); }
    }
  }

  /** Whether a field brings its argument across unchanged. */
  ghost predicate Survives(c: char, a: Arg, maxlen: nat)
    requires Accepts(c, a)
  {
    match a
    case Number(i) => if IsSigned(c) then -Span(Width(c)) <= 2 * i < Span(Width(c)) else 0 <= i < Span(Width(c))
    case Floating(f) => exists w: nat | w < F.Pow2(FormatOf(c).bits) :: f == F.Unpack(FormatOf(c), w)
    case Text(s) => |s| < 0x1_0000 && (maxlen == 0 || |s| <= maxlen)
  }

  ghost predicate AllSurvive(format: string, args: seq<Arg>, maxlen: nat)
    requires Matches(format, args)
    decreases |format|
  {
    if format == [] then true
    else if !TakesArgument(format[0]) then AllSurvive(format[1..], args, NextLimit(format[0], maxlen))
    else Survives(format[0], args[0], maxlen) && AllSurvive(format[1..], args[1..], 0)
  }

  /** The floats that survive are those some word of the format stands for. */
  lemma FieldSurvivesIff(c: char, a: Arg, maxlen: nat)
    requires Accepts(c, a) && (a.Text? ==> |a.s| < 0x1_0000)
    ensures Received1(c, a, maxlen) == a <==> Survives(c, a, maxlen)
  {
    if a.Floating? {
      var fmt, n := FormatOf(c), Width(c);
      WordsFit(c);
      var w := WrapUnsigned(n, F.Pack(fmt, HalfOf(c), a.f));
      if Survives(c, a, maxlen) {
        var w' :| 0 <= w' < F.Pow2(fmt.bits) && a.f == F.Unpack(fmt, w');
        F.PackUnpackWord(fmt, HalfOf(c), w');
      }
    }
  }

  lemma WordsFit(c: char)
    requires IsFloat(c)
    ensures F.Pow2(FormatOf(c).bits) == Span(Width(c))
  {
    SpanValues();
    F.Pow2Values();
    assert F.Pow2(8) == 0x100;
    F.Pow2Sum(8, 8);
    F.Pow2Sum(16, 16);
    F.Pow2Sum(1, 63);
  }

  /** A text of 65536 bytes or more comes back shorter, if at all: its length wraps. */
  lemma LongTextShrinks(s: seq<byte>, maxlen: nat, rest: seq<byte>)
    requires CString(s) && |s| >= 0x1_0000
    ensures var r := ReadField('s', Field('s', Text(s)) + rest, maxlen);
            r.Some? ==> r.value.0 != Text(s)
  {
    var b := Field('s', Text(s)) + rest;
    SpanValues();
    assert UnpackUnsigned(b[..2]) < 0x1_0000;
  }

  /** A field gives its argument back, and takes up its own bytes, if and only if the
      argument survives. */
  lemma FieldBackIff(c: char, a: Arg, maxlen: nat, rest: seq<byte>)
    requires Accepts(c, a)
    ensures var r := ReadField(c, Field(c, a) + rest, maxlen);
            if Survives(c, a, maxlen) then r == Some((a, |Field(c, a)|)) else r.Some? ==> r.value.0 != a
  {
    if a.Text? && |a.s| >= 0x1_0000 {
      LongTextShrinks(a.s, maxlen, rest);
    } else {
      FieldBack(c, a, maxlen, rest);
      FieldSurvivesIff(c, a, maxlen);
    }
  }

  /** Packed and unpacked again, whatever follows, the arguments are as they were if and
      only if each fits its field: numbers their width, texts 65535 bytes and their
      limit, floats the words of their format. */
  lemma {:induction false} ArgumentsBackIff(format: string, args: seq<Arg>, maxlen: nat, rest: seq<byte>)
    requires Matches(format, args)
    ensures Unpacked(format, Packed(format, args) + rest, maxlen) == Some(args) <==> AllSurvive(format, args, maxlen)
    decreases |format|
  {
    if format != [] {
      if !TakesArgument(format[0]) {
        ArgumentsBackIff(format[1..], args, NextLimit(format[0], maxlen), rest);
      } else {
        FirstBackIff(format, args, maxlen, rest);
        ArgumentsBackIff(format[1..], args[1..], 0, rest);
      }
    }
  }

  lemma FirstBackIff(format: string, args: seq<Arg>, maxlen: nat, rest: seq<byte>)
    requires Matches(format, args) && format != [] && TakesArgument(format[0])
    ensures Unpacked(format, Packed(format, args) + rest, maxlen) == Some(args)
            <==> Survives(format[0], args[0], maxlen)
                 && Unpacked(format[1..], Packed(format[1..], args[1..]) + rest, 0) == Some(args[1..])
  {
    var field, tail := Field(format[0], args[0]), Packed(format[1..], args[1..]);
    FieldBackIff(format[0], args[0], maxlen, tail + rest);
    FieldThenRest(field, tail, rest);
    HeadDecides(format, Packed(format, args) + rest, maxlen, args, Survives(format[0], args[0], maxlen), |field|);
  }

  lemma FieldThenRest(field: seq<byte>, tail: seq<byte>, rest: seq<byte>)
    ensures (field + tail) + rest == field + (tail + rest) && ((field + tail) + rest)[|field|..] == tail + rest
  {
  }

  lemma HeadDecides(format: string, b: seq<byte>, maxlen: nat, args: seq<Arg>, back: bool, n: nat)
    requires format != [] && TakesArgument(format[0]) && args != [] && n <= |b|
    requires var r := ReadField(format[0], b, maxlen);
             if back then r == Some((args[0], n)) else r.Some? ==> r.value.0 != args[0]
    ensures Unpacked(format, b, maxlen) == Some(args) <==> back && Unpacked(format[1..], b[n..], 0) == Some(args[1..])
  {
    HeadAndTail(args, Unpacked(format[1..], b[n..], 0));
  }

  lemma HeadAndTail(args: seq<Arg>, r: Option<seq<Arg>>)
    requires args != []
    ensures r.Some? ==> ([args[0]] + r.value == args <==> r.value == args[1..])
  {
    if r.Some? { assert ([args[0]] + r.value)[1..] == r.value && [args[0]] + args[1..] == args; }
  }

  // ----- What each letter stands for

  lemma OneNumber(c: char, b: seq<byte>)
    requires Width(c) > 0 && !IsFloat(c) && |b| == Width(c)
    ensures Unpacked([c], b, 0) == Some([Number(if IsSigned(c) then UnpackSigned(b) else UnpackUnsigned(b))])
  {
    assert [c][1..] == "" && b[..Width(c)] == b;
    var a := ReadField(c, b, 0).value.0;
    assert [a] + [] == [a];
  }

  /** Bytes that are all ones, in each of the four widths: -1 for the small letter, the
      greatest number of the width for the capital. */
  lemma AllOnes(k: nat)
    requires k < 4
    ensures var n := [1, 2, 4, 8][k];
            && Unpacked(["chlq"[k]], PackBytes(n, -1), 0) == Some([Number(-1)])
            && Unpacked(["CHLQ"[k]], PackBytes(n, -1), 0)
               == Some([Number([0xff, 0xffff, 0xffff_ffff, 0xffff_ffff_ffff_ffff][k])])
  {
    SpanValues();
    AllOnesOf("chlq"[k], "CHLQ"[k], [1, 2, 4, 8][k]);
  }

  lemma AllOnesOf(signed: char, unsigned: char, n: nat)
    requires n > 0 && Width(signed) == n == Width(unsigned) && !IsFloat(signed) && !IsFloat(unsigned)
    requires IsSigned(signed) && !IsSigned(unsigned)
    ensures Unpacked([signed], PackBytes(n, -1), 0) == Some([Number(-1)])
    ensures Unpacked([unsigned], PackBytes(n, -1), 0) == Some([Number(Span(n) - 1)])
  {
    OneNumber(signed, PackBytes(n, -1));
    OneNumber(unsigned, PackBytes(n, -1));
    UnpackPackSigned(n, -1);
    UnpackPackUnsigned(n, -1);
    ModExact(-1, Span(n));
  }

  /** 1.0 in half precision, and a number just below 2 that loses its carry there. */
  lemma OneInHalf()
    ensures Field('f', Floating(1.0)) == [0x3C, 0] == Field('f', Floating(1.9998))
  {
    F.OnesArePacked(F.Format(16, 5), 0.5);
    F.CarriedWord();
    F.SixteenBits();
    WordBytes();
  }

  lemma OneInSingle()
    ensures Field('d', Floating(1.0)) == [0x3F, 0x80, 0, 0]
  {
    F.OnesArePacked(F.Format(32, 8), 0.0);
    F.SixteenBits();
    F.Pow2Sum(10, 10);
    F.Pow2Sum(20, 3);
    assert F.Pow2(3) == 8 && F.Pow2(7) == 128;
    WordBytes();
  }

  lemma OneInDouble()
    ensures Field('g', Floating(1.0)) == [0x3F, 0xF0, 0, 0, 0, 0, 0, 0]
  {
    var fmt := F.Format(64, 11);
    F.OnesArePacked(fmt, 0.0);
    DoubleSizes();
    assert F.Pack(fmt, 0.0, 1.0) == 0x3FF0_0000_0000_0000;
    WordBytes();
  }

  lemma DoubleSizes()
    ensures F.Format(64, 11).SigBits() == 52 && F.Format(64, 11).Bias() == 1023
    ensures F.Pow2(52) == 0x10_0000_0000_0000
  {
    F.SixteenBits();
    F.Pow2Sum(10, 10);
    F.Pow2Sum(20, 6);
    assert F.Pow2(6) == 64 && F.Pow2(20) == 0x10_0000;
    assert F.Pow2(26) == 0x400_0000;
    F.Pow2Sum(26, 26);
  }

  lemma WordBytes()
    ensures PackBytes(2, 0x3C00) == [0x3C, 0] && PackBytes(4, 0x3F80_0000) == [0x3F, 0x80, 0, 0]
    ensures PackBytes(8, 0x3FF0_0000_0000_0000) == [0x3F, 0xF0, 0, 0, 0, 0, 0, 0]
  {
    assert PackBytes(4, 0x3FF0_0000) == [0x3F, 0xF0, 0, 0];
    assert PackBytes(5, 0x3F_F000_0000) == PackBytes(4, 0x3FF0_0000) + [0];
    assert PackBytes(6, 0x3FF0_0000_0000) == PackBytes(5, 0x3F_F000_0000) + [0];
    assert PackBytes(7, 0x3F_F000_0000_0000) == PackBytes(6, 0x3FF0_0000_0000) + [0];
  }

  // ----- The loops over a buffer

  method PutBytes(buf: array<byte>, at: nat, b: seq<byte>)
    requires at + |b| <= buf.Length
    modifies buf
    ensures buf[..] == old(buf[..at]) + b + old(buf[at + |b|..])
  {
    for k := 0 to |b|
      invariant buf[..at] == old(buf[..at]) && buf[at..at + k] == b[..k] && buf[at + k..] == old(buf[at + k..])
    {
      buf[at + k] := b[k];
    }
    assert buf[..] == buf[..at] + buf[at..at + |b|] + buf[at + |b|..];
  }

  /** A buffer that began as was and has been written from position at on. */
  ghost predicate Appended(b: seq<byte>, was: seq<byte>, at: nat, done: seq<byte>) {
    at + |done| <= |was| && b == was[..at] + done + was[at + |done|..]
  }

  /** Appends a field to what has been written. */
  method PutField(buf: array<byte>, at: nat, field: seq<byte>, ghost was: seq<byte>, ghost done: seq<byte>, size: nat)
    requires size == |done| && at + size + |field| <= buf.Length && Appended(buf[..], was, at, done)
    modifies buf
    ensures Appended(buf[..], was, at, done + field)
  {
    Spliced(was, at, done, field);
    PutBytes(buf, at + size, field);
  }

  /** serial_pack_va, writing from position at on. */
  method PackInto(buf: array<byte>, at: nat, format: string, args: seq<Arg>) returns (size: nat)
    requires Matches(format, args) && at + TotalSize(format, args) <= buf.Length
    modifies buf
    ensures size == TotalSize(format, args)
    ensures buf[..] == old(buf[..at]) + Packed(format, args) + old(buf[at + size..])
  {
    size := 0;
    var next := 0;
    ghost var was, done: seq<byte> := buf[..], [];
    SizeIsSum(format, args);
    for i := 0 to |format|
      invariant next <= |args| && Matches(format[i..], args[next..]) && size == |done|
      invariant size + TotalSize(format[i..], args[next..]) == TotalSize(format, args)
      invariant Appended(buf[..], was, at, done)
      invariant done + Packed(format[i..], args[next..]) == Packed(format, args)
    {
      PackOn(format, args, i, next, done);
      if TakesArgument(format[i]) {
        var field := Field(format[i], args[next]);
        PutField(buf, at, field, was, done, size);
        done := done + field;
        size, next := size + |field|, next + 1;
      }
    }
  }

  /** One letter of the format, with what has been packed before it. */
  lemma PackOn(format: string, args: seq<Arg>, i: nat, next: nat, done: seq<byte>)
    requires i < |format| && next <= |args| && Matches(format[i..], args[next..])
    ensures var f, a := format[i..], args[next..];
            if TakesArgument(format[i]) then
              && next < |args| && Accepts(format[i], args[next]) && Matches(format[i + 1..], args[next + 1..])
              && TotalSize(f, a) == |Field(format[i], args[next])| + TotalSize(format[i + 1..], args[next + 1..])
              && done + Packed(f, a) == (done + Field(format[i], args[next]))
                 + Packed(format[i + 1..], args[next + 1..])
            else
              && Matches(format[i + 1..], a)
              && TotalSize(f, a) == TotalSize(format[i + 1..], a) && Packed(f, a) == Packed(format[i + 1..], a)
  {
    assert format[i..][1..] == format[i + 1..];
    if TakesArgument(format[i]) {
      assert args[next..][1..] == args[next + 1..] && args[next..][0] == args[next];
      FieldLength(format[i], args[next]);
      assert done + (Field(format[i], args[next]) + Packed(format[i + 1..], args[next + 1..]))
          == (done + Field(format[i], args[next])) + Packed(format[i + 1..], args[next + 1..]);
    }
  }

  lemma FieldLength(c: char, a: Arg)
    requires Accepts(c, a)
    ensures |Field(c, a)| == FieldSize(c, a)
  {
  }

  lemma Spliced(was: seq<byte>, at: nat, done: seq<byte>, field: seq<byte>)
    requires at + |done| + |field| <= |was|
    ensures var b := was[..at] + done + was[at + |done|..];
            b[..at + |done|] + field + b[at + |done| + |field|..]
                == was[..at] + (done + field) + was[at + |done| + |field|..]
  {
  }

  function Prefixed(args: seq<Arg>, r: Option<seq<Arg>>): Option<seq<Arg>> {
    match r
    case None => None
    case Some(rest) => Some(args + rest)
  }

  lemma PrefixedTwice(args: seq<Arg>, a: Arg, r: Option<seq<Arg>>)
    ensures Prefixed(args, Prefixed([a], r)) == Prefixed(args + [a], r)
  {
    if r.Some? { assert args + ([a] + r.value) == (args + [a]) + r.value; }
  }

  lemma PrefixedByNothing(r: Option<seq<Arg>>)
    ensures Prefixed([], r) == r
  {
    if r.Some? { assert [] + r.value == r.value; }
  }

  /** One letter of the format, with what has been unpacked before it. */
  lemma UnpackOn(format: string, b: seq<byte>, i: nat, at: nat, maxlen: nat, args: seq<Arg>)
    requires i < |format| && at <= |b|
    ensures Prefixed(args, Unpacked(format[i..], b[at..], maxlen))
         == if !TakesArgument(format[i])
            then Prefixed(args, Unpacked(format[i + 1..], b[at..], NextLimit(format[i], maxlen)))
            else match ReadField(format[i], b[at..], maxlen)
                 case None => None
                 case Some((a, n)) => Prefixed(args + [a], Unpacked(format[i + 1..], b[at + n..], 0))
  {
    assert format[i..][1..] == format[i + 1..];
    if TakesArgument(format[i]) && ReadField(format[i], b[at..], maxlen).Some? {
      var (a, n) := ReadField(format[i], b[at..], maxlen).value;
      assert b[at..][n..] == b[at + n..];
      PrefixedTwice(args, a, Unpacked(format[i + 1..], b[at + n..], 0));
    }
  }

  /** serial_unpack_va; None where the original would read past the buffer. */
  method UnpackFrom(b: seq<byte>, format: string) returns (r: Option<seq<Arg>>)
    ensures r == Unpacked(format, b, 0)
  {
    var at, maxlen := 0, 0;
    var args: seq<Arg> := [];
    PrefixedByNothing(Unpacked(format, b, 0));
    assert format[0..] == format && b[0..] == b;
    for i := 0 to |format|
      invariant at <= |b|
      invariant Unpacked(format, b, 0) == Prefixed(args, Unpacked(format[i..], b[at..], maxlen))
    {
      UnpackOn(format, b, i, at, maxlen, args);
      if TakesArgument(format[i]) {
        match ReadField(format[i], b[at..], maxlen) {
          case None => return None;
          case Some((a, n)) =>
            args, at := args + [a], at + n;
        }
      }
      maxlen := NextLimit(format[i], maxlen);
    }
    assert args + [] == args;
    return Some(args);
  }
}
