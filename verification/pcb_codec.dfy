// Common/serial.c:478-615: a PCB with its code index, tags and stack as bytes. Each
// number is a 16-bit field; a list of the stack is preceded by its length.
module PcbCodec {
  import opened Bytes
  import opened Structures
  import opened Serial
  import SM = StackMachine

  // ----- Lists

  function EncodeAll<T>(xs: seq<T>, enc: T -> seq<byte>): seq<byte> {
    if xs == [] then [] else enc(xs[0]) + EncodeAll(xs[1..], enc)
  }

  /** n elements and what follows them. */
  function DecodeAll<T>(n: nat, b: seq<byte>, dec: seq<byte> -> Option<(T, seq<byte>)>): Option<(seq<T>, seq<byte>)> {
    if n == 0 then Some(([], b))
    else
      var (x, b1) :- dec(b);
      var (xs, b2) :- DecodeAll(n - 1, b1, dec);
      Some(([x] + xs, b2))
  }

  lemma {:induction false} AllBack<T>(xs: seq<T>, enc: T -> seq<byte>, dec: seq<byte> -> Option<(T, seq<byte>)>,
                                      rest: seq<byte>)
    requires forall x, r: seq<byte> {:trigger enc(x) + r} :: x in xs ==> dec(enc(x) + r) == Some((x, r))
    ensures DecodeAll(|xs|, EncodeAll(xs, enc) + rest, dec) == Some((xs, rest))
  {
    if xs == [] {
      assert EncodeAll(xs, enc) + rest == rest;
    } else {
      var tail := EncodeAll(xs[1..], enc) + rest;
      assert EncodeAll(xs, enc) + rest == enc(xs[0]) + tail;
      assert dec(enc(xs[0]) + tail) == Some((xs[0], tail));
      AllBack(xs[1..], enc, dec, rest);
      assert [xs[0]] + xs[1..] == xs;
    }
  }

  lemma {:induction false} AllDecoded<T(!new)>(n: nat, b: seq<byte>, dec: seq<byte> -> Option<(T, seq<byte>)>,
                                        ok: T -> bool)
    requires forall c :: dec(c).Some? ==> ok(dec(c).value.0)
    ensures var r := DecodeAll(n, b, dec);
            r.Some? ==> |r.value.0| == n && forall x :: x in r.value.0 ==> ok(x)
  {
    if n > 0 && dec(b).Some? {
      AllDecoded(n - 1, dec(b).value.1, dec, ok);
    }
  }

  lemma {:induction false} AllSizes<T>(xs: seq<T>, enc: T -> seq<byte>, size: nat)
    requires forall x :: x in xs ==> |enc(x)| == size
    ensures |EncodeAll(xs, enc)| == size * |xs|
  {
    if xs != [] {
      AllSizes(xs[1..], enc, size);
      assert size * |xs| == size + size * (|xs| - 1);
    }
  }

  // ----- Numbers

  function EncodeShort(i: int): (b: seq<byte>)
    ensures |b| == 2
  {
    PackBytes(2, i)
  }

  function DecodeShort(b: seq<byte>): (r: Option<(int, seq<byte>)>)
    ensures r.Some? ==> FitsShort(r.value.0)
  {
    SpanValues();
    if |b| < 2 then None else Some((UnpackSigned(b[..2]), b[2..]))
  }

  predicate FitsShort(i: int) { -0x8000 <= i < 0x8000 }

  lemma ShortBack(i: int, rest: seq<byte>)
    ensures DecodeShort(EncodeShort(i) + rest).Some?
    ensures FitsShort(i) ==> DecodeShort(EncodeShort(i) + rest) == Some((i, rest))
  {
    SpanValues();
    assert (EncodeShort(i) + rest)[..2] == EncodeShort(i) && (EncodeShort(i) + rest)[2..] == rest;
    UnpackPackSigned(2, i);
  }

  /** An int stored into a 32-bit unsigned field. */
  function Word32(i: int): (w: int)
    ensures 0 <= w < 0x1_0000_0000
  {
    i % 0x1_0000_0000
  }

  /** The 32-bit values that a signed 16-bit field can carry: small ones, and those
      that are negative as an int, such as the -1 of a label not found. */
  predicate FitsWord(w: int) { 0 <= w < 0x8000 || 0xffff_8000 <= w < 0x1_0000_0000 }

  function DecodeWord(b: seq<byte>): (r: Option<(int, seq<byte>)>)
    ensures r.Some? ==> FitsWord(r.value.0)
  {
    var (i, b1) :- DecodeShort(b);
    Some((Word32(i), b1))
  }

  lemma WordBack(w: int, rest: seq<byte>)
    requires FitsWord(w)
    ensures DecodeWord(EncodeShort(w) + rest) == Some((w, rest))
  {
    if w < 0x8000 {
      ShortBack(w, rest);
    } else {
      var i := w - 0x1_0000_0000;
      ShortBack(i, rest);
      SpanValues();
      DropHighBytes(i);
    }
  }

  lemma DropHighBytes(i: int)
    ensures PackBytes(2, i + 0x1_0000_0000) == PackBytes(2, i)
  {
    assert (i + 0x1_0000_0000) / 256 == i / 256 + 0x100_0000;
    assert PackBytes(1, i / 256 + 0x100_0000) == PackBytes(1, i / 256);
  }

  // ----- Variables, contexts, instructions, tags

  function EncodeVar(v: Var): seq<byte> {
    PackBytes(1, v.id) + EncodeShort(v.mempos.page) + EncodeShort(v.mempos.offset) + EncodeShort(v.mempos.size)
  }

  function DecodeVar(b: seq<byte>): (r: Option<(Var, seq<byte>)>)
    ensures r.Some? ==> FitsVar(r.value.0)
  {
    SpanValues();
    if b == [] then None
    else
      var id := UnpackSigned(b[..1]);
      var (page, b1) :- DecodeShort(b[1..]);
      var (offset, b2) :- DecodeShort(b1);
      var (size, b3) :- DecodeShort(b2);
      Some((Var(id, MemPos(page, offset, size)), b3))
  }

  predicate FitsPos(p: MemPos) { FitsShort(p.page) && FitsShort(p.offset) && FitsShort(p.size) }

  predicate FitsVar(v: Var) { -0x80 <= v.id < 0x80 && FitsPos(v.mempos) }

  lemma VarBack(v: Var, rest: seq<byte>)
    requires FitsVar(v)
    ensures DecodeVar(EncodeVar(v) + rest) == Some((v, rest))
  {
    var p := v.mempos;
    var b3 := EncodeShort(p.size) + rest;
    var b2 := EncodeShort(p.offset) + b3;
    var b1 := EncodeShort(p.page) + b2;
    var b := EncodeVar(v) + rest;
    assert b[..1] == PackBytes(1, v.id) && b[1..] == b1;
    SpanValues();
    UnpackPackSigned(1, v.id);
    ShortBack(p.page, b2);
    ShortBack(p.offset, b3);
    ShortBack(p.size, rest);
  }

  function EncodeVars(vs: seq<Var>): seq<byte> { EncodeShort(|vs|) + EncodeAll(vs, EncodeVar) }

  /** A negative count reads as an empty list: the loop does not start. */
  function DecodeVars(b: seq<byte>): (r: Option<(seq<Var>, seq<byte>)>)
    ensures r.Some? ==> FitsVars(r.value.0)
  {
    var (n, b1) :- DecodeShort(b);
    AllDecoded(if n < 0 then 0 else n, b1, DecodeVar, FitsVar);
    DecodeAll(if n < 0 then 0 else n, b1, DecodeVar)
  }

  predicate FitsVars(vs: seq<Var>) { |vs| < 0x8000 && forall v :: v in vs ==> FitsVar(v) }

  lemma VarsBack(vs: seq<Var>, rest: seq<byte>)
    requires FitsVars(vs)
    ensures DecodeVars(EncodeVars(vs) + rest) == Some((vs, rest))
  {
    var b := EncodeAll(vs, EncodeVar) + rest;
    assert EncodeVars(vs) + rest == EncodeShort(|vs|) + b;
    ShortBack(|vs|, b);
    forall v, r: seq<byte> {:trigger EncodeVar(v) + r} | v in vs ensures DecodeVar(EncodeVar(v) + r) == Some((v, r)) {
      VarBack(v, r);
    }
    AllBack(vs, EncodeVar, DecodeVar, rest);
  }

  /** A list whose length does not fit its count arrives empty, and what was in it is read
      as what follows. */
  lemma CountWraps(n: nat, rest: seq<byte>)
    requires 0x8000 <= n < 0x1_0000
    ensures DecodeVars(EncodeShort(n) + rest) == Some(([], rest))
  {
    var b := EncodeShort(n) + rest;
    assert b[..2] == EncodeShort(n) && b[2..] == rest;
    SpanValues();
    UnpackPackSigned(2, n);
    DivModUnique(n, 0x1_0000, 0, n);
  }

  function EncodePos(p: MemPos): seq<byte> { EncodeShort(p.page) + EncodeShort(p.offset) + EncodeShort(p.size) }

  function DecodePos(b: seq<byte>): (r: Option<(MemPos, seq<byte>)>)
    ensures r.Some? ==> FitsPos(r.value.0)
  {
    var (page, b1) :- DecodeShort(b);
    var (offset, b2) :- DecodeShort(b1);
    var (size, b3) :- DecodeShort(b2);
    Some((MemPos(page, offset, size), b3))
  }

  lemma PosBack(p: MemPos, rest: seq<byte>)
    requires FitsPos(p)
    ensures DecodePos(EncodePos(p) + rest) == Some((p, rest))
  {
    var b2 := EncodeShort(p.size) + rest;
    var b1 := EncodeShort(p.offset) + b2;
    assert EncodePos(p) + rest == EncodeShort(p.page) + b1;
    ShortBack(p.page, b1);
    ShortBack(p.offset, b2);
    ShortBack(p.size, rest);
  }

  function EncodeContext(c: Context): seq<byte> {
    EncodeShort(c.retPos) + EncodeVars(c.args) + EncodeVars(c.vars) + EncodePos(c.retVar)
  }

  function DecodeContext(b: seq<byte>): (r: Option<(Context, seq<byte>)>)
    ensures r.Some? ==> FitsContext(r.value.0)
  {
    var (retPos, b1) :- DecodeShort(b);
    var (args, b2) :- DecodeVars(b1);
    var (vars, b3) :- DecodeVars(b2);
    var (retVar, b4) :- DecodePos(b3);
    Some((Context(args, vars, retPos, retVar), b4))
  }

  predicate FitsContext(c: Context) {
    FitsShort(c.retPos) && FitsVars(c.args) && FitsVars(c.vars) && FitsPos(c.retVar)
  }

  lemma ContextBack(c: Context, rest: seq<byte>)
    requires FitsContext(c)
    ensures DecodeContext(EncodeContext(c) + rest) == Some((c, rest))
  {
    var b3 := EncodePos(c.retVar) + rest;
    var b2 := EncodeVars(c.vars) + b3;
    var b1 := EncodeVars(c.args) + b2;
    assert EncodeContext(c) + rest == EncodeShort(c.retPos) + b1;
    ShortBack(c.retPos, b1);
    VarsBack(c.args, b2);
    VarsBack(c.vars, b3);
    PosBack(c.retVar, rest);
  }

  function EncodeStack(stack: seq<Context>): seq<byte> { EncodeShort(|stack|) + EncodeAll(stack, EncodeContext) }

  function DecodeStack(b: seq<byte>): (r: Option<(seq<Context>, seq<byte>)>)
    ensures r.Some? ==> FitsStack(r.value.0)
  {
    var (n, b1) :- DecodeShort(b);
    AllDecoded(if n < 0 then 0 else n, b1, DecodeContext, FitsContext);
    DecodeAll(if n < 0 then 0 else n, b1, DecodeContext)
  }

  predicate FitsStack(stack: seq<Context>) { |stack| < 0x8000 && forall c :: c in stack ==> FitsContext(c) }

  lemma StackBack(stack: seq<Context>, rest: seq<byte>)
    requires FitsStack(stack)
    ensures DecodeStack(EncodeStack(stack) + rest) == Some((stack, rest))
  {
    var b := EncodeAll(stack, EncodeContext) + rest;
    assert EncodeStack(stack) + rest == EncodeShort(|stack|) + b;
    ShortBack(|stack|, b);
    forall c, r: seq<byte> {:trigger EncodeContext(c) + r} | c in stack
      ensures DecodeContext(EncodeContext(c) + r) == Some((c, r))
    {
      ContextBack(c, r);
    }
    AllBack(stack, EncodeContext, DecodeContext, rest);
  }

  function EncodeInstruction(i: Instruction): seq<byte> { EncodeShort(i.start) + EncodeShort(i.offset) }

  function DecodeInstruction(b: seq<byte>): (r: Option<(Instruction, seq<byte>)>)
    ensures r.Some? ==> FitsInstruction(r.value.0)
  {
    var (start, b1) :- DecodeWord(b);
    var (offset, b2) :- DecodeWord(b1);
    Some((Instruction(start, offset), b2))
  }

  predicate FitsInstruction(i: Instruction) { FitsWord(i.start) && FitsWord(i.offset) }

  lemma InstructionBack(i: Instruction, rest: seq<byte>)
    requires FitsInstruction(i)
    ensures DecodeInstruction(EncodeInstruction(i) + rest) == Some((i, rest))
  {
    var b1 := EncodeShort(i.offset) + rest;
    assert EncodeInstruction(i) + rest == EncodeShort(i.start) + b1;
    WordBack(i.start, b1);
    WordBack(i.offset, rest);
  }

  const TAG_LIMIT := 64

  function EncodeTag(t: Tag): seq<byte> { EncodeShort(|t.name|) + t.name + EncodeShort(t.PC) }

  /** The name is unpacked with the limit 64 into 64 bytes, so a name of exactly 64
      has no room for its NUL (None); a longer one is cut to 63 bytes. The position
      then advances by the length of the name as it was unpacked. */
  function DecodeTag(b: seq<byte>): (r: Option<(Tag, seq<byte>)>)
    ensures r.Some? ==> FitsTag(r.value.0)
  {
    if |b| < 2 then None
    else
      var len := UnpackUnsigned(b[..2]);
      var count := if len > TAG_LIMIT then TAG_LIMIT - 1 else len;
      if count == TAG_LIMIT || |b| < 2 + count then None
      else
        var name := UpToNul(b[2..2 + count]);
        var (pc, b1) :- DecodeWord(b[2 + |name|..]);
        Some((Tag(name, pc), b1))
  }

  predicate FitsTag(t: Tag) { |t.name| < TAG_LIMIT && CString(t.name) && FitsWord(t.PC) }

  lemma TagBack(t: Tag, rest: seq<byte>)
    requires FitsTag(t)
    ensures DecodeTag(EncodeTag(t) + rest) == Some((t, rest))
  {
    var b, n := EncodeTag(t) + rest, |t.name|;
    assert b[..2] == EncodeShort(n) && b[2..2 + n] == t.name && b[2 + n..] == EncodeShort(t.PC) + rest;
    SpanValues();
    UnpackPackUnsigned(2, n);
    WordBack(t.PC, rest);
  }

  // ----- The PCB

  /** The nine numbers in front, in the order of the buffer. */
  function Head(p: Pcb): (h: seq<int>)
    ensures |h| == 9
  {
    [p.idProcess, p.PC, p.quantum, p.status, p.pagesCode, |p.indexCode|, |p.indexTag|, p.stackPointer, p.exitCode]
  }

  function EncodeBody(p: Pcb): seq<byte> {
    EncodeAll(p.indexCode, EncodeInstruction) + EncodeAll(p.indexTag, EncodeTag) + EncodeStack(p.stack)
  }

  function EncodePcb(p: Pcb): seq<byte> { EncodeAll(Head(p), EncodeShort) + EncodeBody(p) }

  /** None where the program stops or reads beyond the buffer: allocating a negative
      number of instructions or tags ends the process. */
  function DecodePcb(b: seq<byte>): (r: Option<Pcb>)
    ensures r.Some? ==> FitsPcb(r.value)
  {
    AllDecoded(9, b, DecodeShort, FitsShort);
    var (h, b1) :- DecodeAll(9, b, DecodeShort);
    DecodeBody(h, b1)
  }

  function DecodeLists(instructions: nat, tags: nat, b1: seq<byte>)
    : (r: Option<(seq<Instruction>, seq<Tag>, seq<Context>)>)
    ensures r.Some? ==> |r.value.0| == instructions && (forall i :: i in r.value.0 ==> FitsInstruction(i))
    ensures r.Some? ==> |r.value.1| == tags && (forall t :: t in r.value.1 ==> FitsTag(t))
    ensures r.Some? ==> FitsStack(r.value.2)
  {
    AllDecoded(instructions, b1, DecodeInstruction, FitsInstruction);
    var (indexCode, b2) :- DecodeAll(instructions, b1, DecodeInstruction);
    AllDecoded(tags, b2, DecodeTag, FitsTag);
    var (indexTag, b3) :- DecodeAll(tags, b2, DecodeTag);
    var (stack, _) :- DecodeStack(b3);
    Some((indexCode, indexTag, stack))
  }

  function DecodeBody(h: seq<int>, b1: seq<byte>): (r: Option<Pcb>)
    requires |h| == 9 && forall i :: i in h ==> FitsShort(i)
    ensures r.Some? ==> FitsPcb(r.value)
  {
    if h[5] < 0 || h[6] < 0 then None
    else
      var (indexCode, indexTag, stack) :- DecodeLists(h[5], h[6], b1);
      Some(Pcb(h[0], h[1], h[2], h[3], h[4], indexCode, indexTag, stack, h[7], h[8]))
  }

  /** Numbers in 16 signed bits, positions that a 16-bit field can carry, names of at
      most 63 bytes, lists short enough to be counted. */
  predicate FitsPcb(p: Pcb) {
    && (forall i :: i in Head(p) ==> FitsShort(i))
    && (forall i :: i in p.indexCode ==> FitsInstruction(i))
    && (forall t :: t in p.indexTag ==> FitsTag(t))
    && FitsStack(p.stack)
  }

  /** A PCB that counts a negative number of instructions or tags is not read at all. */
  lemma NegativeCountsStop(p: Pcb, rest: seq<byte>)
    requires |p.indexCode| < 0x1_0000 && |p.indexTag| < 0x1_0000
    requires |p.indexCode| >= 0x8000 || |p.indexTag| >= 0x8000
    ensures DecodePcb(EncodePcb(p) + rest) == None
  {
    var h := seq(9, i requires 0 <= i < 9 => WrapSigned(2, Head(p)[i]));
    assert EncodePcb(p) + rest == EncodeAll(Head(p), EncodeShort) + (EncodeBody(p) + rest);
    ShortsWrap(Head(p), EncodeBody(p) + rest);
    if |p.indexCode| >= 0x8000 { HalfTheSpanWraps(|p.indexCode|); } else { HalfTheSpanWraps(|p.indexTag|); }
    assert h[5] == WrapSigned(2, |p.indexCode|) && h[6] == WrapSigned(2, |p.indexTag|);
    StopsAt(EncodePcb(p) + rest, h, EncodeBody(p) + rest);
  }

  lemma HalfTheSpanWraps(n: nat)
    requires 0x8000 <= n
    ensures n < 0x1_0000 ==> WrapSigned(2, n) < 0
  {
    SpanValues();
    if n < 0x1_0000 { DivModUnique(n, 0x1_0000, 0, n); }
  }

  lemma StopsAt(b: seq<byte>, h: seq<int>, b1: seq<byte>)
    requires DecodeAll(9, b, DecodeShort) == Some((h, b1)) && |h| == 9 && (h[5] < 0 || h[6] < 0)
    ensures DecodePcb(b) == None
  {
  }

  /** Numbers of any size come back reduced to 16 signed bits. */
  lemma {:induction false} ShortsWrap(xs: seq<int>, rest: seq<byte>)
    ensures DecodeAll(|xs|, EncodeAll(xs, EncodeShort) + rest, DecodeShort)
         == Some((seq(|xs|, i requires 0 <= i < |xs| => WrapSigned(2, xs[i])), rest))
  {
    if xs == [] {
      assert EncodeAll(xs, EncodeShort) + rest == rest;
    } else {
      var tail := EncodeAll(xs[1..], EncodeShort) + rest;
      var b := EncodeAll(xs, EncodeShort) + rest;
      assert b == EncodeShort(xs[0]) + tail && b[..2] == EncodeShort(xs[0]) && b[2..] == tail;
      UnpackPackSigned(2, xs[0]);
      ShortsWrap(xs[1..], rest);
      assert [WrapSigned(2, xs[0])] + seq(|xs| - 1, i requires 0 <= i < |xs| - 1 => WrapSigned(2, xs[1..][i]))
          == seq(|xs|, i requires 0 <= i < |xs| => WrapSigned(2, xs[i]));
    }
  }

  lemma ListsBack(p: Pcb, rest: seq<byte>)
    requires FitsPcb(p)
    ensures DecodeLists(|p.indexCode|, |p.indexTag|, EncodeBody(p) + rest) == Some((p.indexCode, p.indexTag, p.stack))
  {
    var b3 := EncodeStack(p.stack) + rest;
    var b2 := EncodeAll(p.indexTag, EncodeTag) + b3;
    assert EncodeBody(p) + rest == EncodeAll(p.indexCode, EncodeInstruction) + b2;
    InstructionsBack(p.indexCode, b2);
    TagsBack(p.indexTag, b3);
    StackBack(p.stack, rest);
  }

  lemma BodyBack(p: Pcb, h: seq<int>, rest: seq<byte>)
    requires FitsPcb(p) && h == Head(p)
    ensures DecodeBody(h, EncodeBody(p) + rest) == Some(p)
  {
    ListsBack(p, rest);
    assert h[5] == |p.indexCode| && h[6] == |p.indexTag|;
    assert p == Pcb(h[0], h[1], h[2], h[3], h[4], p.indexCode, p.indexTag, p.stack, h[7], h[8]);
  }

  lemma PcbBack(p: Pcb, rest: seq<byte>)
    requires FitsPcb(p)
    ensures DecodePcb(EncodePcb(p) + rest) == Some(p)
  {
    HeadBack(p, EncodeBody(p) + rest);
    assert EncodePcb(p) + rest == EncodeAll(Head(p), EncodeShort) + (EncodeBody(p) + rest);
    BodyBack(p, Head(p), rest);
  }

  lemma HeadBack(p: Pcb, rest: seq<byte>)
    requires forall i :: i in Head(p) ==> FitsShort(i)
    ensures DecodeAll(9, EncodeAll(Head(p), EncodeShort) + rest, DecodeShort) == Some((Head(p), rest))
  {
    ShortsBack(Head(p), rest);
  }

  lemma ShortsBack(xs: seq<int>, rest: seq<byte>)
    requires forall i :: i in xs ==> FitsShort(i)
    ensures DecodeAll(|xs|, EncodeAll(xs, EncodeShort) + rest, DecodeShort) == Some((xs, rest))
  {
    forall i, r: seq<byte> {:trigger EncodeShort(i) + r} | i in xs
      ensures DecodeShort(EncodeShort(i) + r) == Some((i, r))
    {
      ShortBack(i, r);
    }
    AllBack(xs, EncodeShort, DecodeShort, rest);
  }

  lemma InstructionsBack(xs: seq<Instruction>, rest: seq<byte>)
    requires forall i :: i in xs ==> FitsInstruction(i)
    ensures DecodeAll(|xs|, EncodeAll(xs, EncodeInstruction) + rest, DecodeInstruction) == Some((xs, rest))
  {
    forall i, r: seq<byte> {:trigger EncodeInstruction(i) + r} | i in xs
      ensures DecodeInstruction(EncodeInstruction(i) + r) == Some((i, r))
    {
      InstructionBack(i, r);
    }
    AllBack(xs, EncodeInstruction, DecodeInstruction, rest);
  }

  lemma TagsBack(xs: seq<Tag>, rest: seq<byte>)
    requires forall t :: t in xs ==> FitsTag(t)
    ensures DecodeAll(|xs|, EncodeAll(xs, EncodeTag) + rest, DecodeTag) == Some((xs, rest))
  {
    forall t, r: seq<byte> {:trigger EncodeTag(t) + r} | t in xs ensures DecodeTag(EncodeTag(t) + r) == Some((t, r)) {
      TagBack(t, r);
    }
    AllBack(xs, EncodeTag, DecodeTag, rest);
  }

  /** A PCB survives the trip, whatever bytes follow it, if and only if all its parts
      fit their fields. */
  lemma PcbRoundTripIff(p: Pcb, rest: seq<byte>)
    ensures DecodePcb(EncodePcb(p) + rest) == Some(p) <==> FitsPcb(p)
  {
    if FitsPcb(p) { PcbBack(p, rest); }
  }

  // ----- Sizes

  function NameBytes(tags: seq<Tag>): nat {
    if tags == [] then 0 else |tags[0].name| + NameBytes(tags[1..])
  }

  lemma VarsSize(vs: seq<Var>)
    ensures |EncodeVars(vs)| == 2 + 7 * |vs|
  {
    AllSizes(vs, EncodeVar, 7);
  }

  lemma {:induction false} TagsSize(tags: seq<Tag>)
    ensures |EncodeAll(tags, EncodeTag)| == 4 * |tags| + NameBytes(tags)
  {
    if tags != [] { TagsSize(tags[1..]); }
  }

  function CountAll(stack: seq<Context>): nat {
    if stack == [] then 0 else SM.Count(stack[0]) + CountAll(stack[1..])
  }

  lemma {:induction false} CountAllSnoc(stack: seq<Context>, c: Context)
    ensures CountAll(stack + [c]) == CountAll(stack) + SM.Count(c)
  {
    if stack == [] {
      assert stack + [c] == [c];
    } else {
      assert (stack + [c])[1..] == stack[1..] + [c];
      CountAllSnoc(stack[1..], c);
    }
  }

  lemma {:induction false} CountAllIsTotal(stack: seq<Context>)
    ensures CountAll(stack) == SM.Total(stack)
  {
    if stack != [] {
      var below := stack[..|stack| - 1];
      assert stack == below + [stack[|stack| - 1]];
      CountAllSnoc(below, stack[|stack| - 1]);
      CountAllIsTotal(below);
    }
  }

  lemma {:induction false} ContextsSize(stack: seq<Context>)
    ensures |EncodeAll(stack, EncodeContext)| == 12 * |stack| + 7 * CountAll(stack)
  {
    if stack != [] {
      VarsSize(stack[0].args);
      VarsSize(stack[0].vars);
      ContextsSize(stack[1..]);
    }
  }

  /** The size that serial_pack_pcb returns, over all nested lists; for a stack in
      order, seven bytes per four bytes of stack pointer. */
  lemma PcbSize(p: Pcb)
    ensures |EncodePcb(p)| == 20 + 4 * |p.indexCode| + 4 * |p.indexTag| + NameBytes(p.indexTag)
                              + 12 * |p.stack| + 7 * SM.Total(p.stack)
  {
    AllSizes(Head(p), EncodeShort, 2);
    AllSizes(p.indexCode, EncodeInstruction, 4);
    TagsSize(p.indexTag);
    ContextsSize(p.stack);
    CountAllIsTotal(p.stack);
  }

  /** A tag name of more than 64 bytes comes back cut, and what follows is misread. */
  lemma LongTagIsCut(t: Tag, rest: seq<byte>)
    requires TAG_LIMIT < |t.name| < 0x1_0000 && CString(t.name)
    ensures DecodeTag(EncodeTag(t) + rest).Some?
    ensures DecodeTag(EncodeTag(t) + rest).value.0.name == t.name[..TAG_LIMIT - 1]
    ensures DecodeTag(EncodeTag(t) + rest).value.1 != rest
  {
    var b, n := EncodeTag(t) + rest, |t.name|;
    assert b[..2] == EncodeShort(n) && b[2..2 + (TAG_LIMIT - 1)] == t.name[..TAG_LIMIT - 1];
    SpanValues();
    UnpackPackUnsigned(2, n);
  }
}
