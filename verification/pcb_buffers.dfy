// Common/serial.c:478-615 as loops over a buffer: serial_pack_pcb and its parts
// append to what is already there, serial_unpack_pcb and its parts advance a
// position. Both are proved against PcbCodec.
module PcbBuffers {
  import opened Bytes
  import opened Structures
  import opened Serial
  import opened PcbCodec

  /** A buffer that began as was and has been written from its start. */
  ghost predicate Written(b: seq<byte>, was: seq<byte>, done: seq<byte>) {
    |done| <= |was| && b == done + was[|done|..]
  }

  lemma PackedShort(i: int)
    ensures Matches("h", [Number(i)]) && Packed("h", [Number(i)]) == EncodeShort(i) && TotalSize("h", [Number(i)]) == 2
  {
    assert "h"[1..] == "" && [Number(i)][1..] == [];
    assert Packed("", []) == [];
  }

  lemma PackedShorts(a: int, b: int, c: int)
    ensures var args := [Number(a), Number(b), Number(c)];
            Matches("hhh", args) && Packed("hhh", args) == EncodePos(MemPos(a, b, c)) && TotalSize("hhh", args) == 6
  {
    var args := [Number(a), Number(b), Number(c)];
    assert "hhh"[1..] == "hh" && args[1..] == [Number(b), Number(c)];
    assert "hh"[1..] == "h" && args[1..][1..] == [Number(c)];
    PackedShort(c);
    assert Packed("hh", [Number(b), Number(c)]) == EncodeShort(b) + EncodeShort(c);
  }

  lemma PackedVar(v: Var)
    ensures var args := [Number(v.id), Number(v.mempos.page), Number(v.mempos.offset), Number(v.mempos.size)];
            Matches("chhh", args) && Packed("chhh", args) == EncodeVar(v) && TotalSize("chhh", args) == 7
  {
    var args := [Number(v.id), Number(v.mempos.page), Number(v.mempos.offset), Number(v.mempos.size)];
    assert "chhh"[1..] == "hhh" && args[1..] == [Number(v.mempos.page), Number(v.mempos.offset), Number(v.mempos.size)];
    PackedShorts(v.mempos.page, v.mempos.offset, v.mempos.size);
    assert Packed("chhh", args) == PackBytes(1, v.id) + EncodePos(v.mempos);
  }

  lemma PackedTagName(name: seq<byte>)
    requires CString(name)
    ensures Matches("s", [Text(name)]) && Packed("s", [Text(name)]) == EncodeShort(|name|) + name
    ensures TotalSize("s", [Text(name)]) == 2 + |name|
  {
    assert "s"[1..] == "" && [Text(name)][1..] == [];
    assert Packed("", []) == [];
  }

  /** One call of serial_pack at buff + tam. */
  method Put(buff: array<byte>, tam: nat, format: string, args: seq<Arg>, ghost was: seq<byte>, ghost done: seq<byte>)
    returns (size: nat)
    requires Written(buff[..], was, done) && tam == |done|
    requires Matches(format, args) && tam + TotalSize(format, args) <= buff.Length
    modifies buff
    ensures size == |Packed(format, args)| && Written(buff[..], was, done + Packed(format, args))
  {
    SizeIsSum(format, args);
    size := PackInto(buff, tam, format, args);
  }

  method PackShort(buff: array<byte>, tam: nat, i: int, ghost was: seq<byte>, ghost done: seq<byte>) returns (size: nat)
    requires Written(buff[..], was, done) && tam == |done| && tam + 2 <= buff.Length
    modifies buff
    ensures size == 2 && Written(buff[..], was, done + EncodeShort(i))
  {
    PackedShort(i);
    size := Put(buff, tam, "h", [Number(i)], was, done);
  }

  lemma {:induction false} EncodeAllSnoc<T>(xs: seq<T>, x: T, enc: T -> seq<byte>)
    ensures EncodeAll(xs + [x], enc) == EncodeAll(xs, enc) + enc(x)
  {
    if xs == [] {
      assert xs + [x] == [x];
    } else {
      assert (xs + [x])[1..] == xs[1..] + [x];
      EncodeAllSnoc(xs[1..], x, enc);
    }
  }

  lemma {:induction false} EncodePrefix<T>(xs: seq<T>, i: nat, enc: T -> seq<byte>)
    requires i <= |xs|
    ensures |EncodeAll(xs[..i], enc)| <= |EncodeAll(xs, enc)|
    ensures i < |xs| ==> EncodeAll(xs[..i + 1], enc) == EncodeAll(xs[..i], enc) + enc(xs[i])
    decreases |xs| - i
  {
    if i == |xs| {
      assert xs[..i] == xs;
    } else {
      assert xs[..i + 1] == xs[..i] + [xs[i]];
      EncodeAllSnoc(xs[..i], xs[i], enc);
      EncodePrefix(xs, i + 1, enc);
    }
  }

  lemma OneMore<T>(xs: seq<T>, i: nat, enc: T -> seq<byte>)
    requires i < |xs|
    ensures EncodeAll(xs[..i + 1], enc) == EncodeAll(xs[..i], enc) + enc(xs[i])
    ensures |EncodeAll(xs[..i + 1], enc)| <= |EncodeAll(xs, enc)|
  {
    EncodePrefix(xs, i, enc);
    EncodePrefix(xs, i + 1, enc);
  }

  lemma Regroup(a: seq<byte>, b: seq<byte>, c: seq<byte>)
    ensures (a + b) + c == a + (b + c)
  {
  }

  /** serial_pack_vars */
  method PackVars(buff: array<byte>, start: nat, vs: seq<Var>, ghost was: seq<byte>, ghost done: seq<byte>)
    returns (tam: nat)
    requires Written(buff[..], was, done) && start == |done| && start + |EncodeVars(vs)| <= buff.Length
    modifies buff
    ensures tam == |EncodeVars(vs)| && Written(buff[..], was, done + EncodeVars(vs))
  {
    tam := PackShort(buff, start, |vs|, was, done);
    ghost var d := done + EncodeShort(|vs|);
    for i := 0 to |vs|
      invariant start + tam == |d| && d == done + (EncodeShort(|vs|) + EncodeAll(vs[..i], EncodeVar))
      invariant Written(buff[..], was, d)
    {
      OneMore(vs, i, EncodeVar);
      var v := vs[i];
      PackedVar(v);
      Regroup(done, EncodeShort(|vs|) + EncodeAll(vs[..i], EncodeVar), EncodeVar(v));
      Regroup(EncodeShort(|vs|), EncodeAll(vs[..i], EncodeVar), EncodeVar(v));
      var n := Put(buff, start + tam, "chhh",
                   [Number(v.id), Number(v.mempos.page), Number(v.mempos.offset), Number(v.mempos.size)], was, d);
      tam, d := tam + n, d + EncodeVar(v);
    }
    assert vs[..|vs|] == vs;
  }

  /** serial_pack_stack */
  method PackStack(buff: array<byte>, start: nat, stack: seq<Context>, ghost was: seq<byte>, ghost done: seq<byte>)
    returns (tam: nat)
    requires Written(buff[..], was, done) && start == |done| && start + |EncodeStack(stack)| <= buff.Length
    modifies buff
    ensures tam == |EncodeStack(stack)| && Written(buff[..], was, done + EncodeStack(stack))
  {
    tam := PackShort(buff, start, |stack|, was, done);
    var n := PackContexts(buff, start + tam, stack, was, done + EncodeShort(|stack|));
    assert done + EncodeShort(|stack|) + EncodeAll(stack, EncodeContext) == done + EncodeStack(stack);
    tam := tam + n;
  }

  method PackContexts(buff: array<byte>, start: nat, stack: seq<Context>, ghost was: seq<byte>, ghost done: seq<byte>)
    returns (tam: nat)
    requires Written(buff[..], was, done) && start == |done| && start + |EncodeAll(stack, EncodeContext)| <= buff.Length
    modifies buff
    ensures tam == |EncodeAll(stack, EncodeContext)| && Written(buff[..], was, done + EncodeAll(stack, EncodeContext))
  {
    tam := 0;
    ghost var d := done;
    for i := 0 to |stack|
      invariant start + tam == |d| && d == done + EncodeAll(stack[..i], EncodeContext) && Written(buff[..], was, d)
    {
      OneMore(stack, i, EncodeContext);
      Regroup(done, EncodeAll(stack[..i], EncodeContext), EncodeContext(stack[i]));
      var n := PackContext(buff, start + tam, stack[i], was, d);
      tam, d := tam + n, d + EncodeContext(stack[i]);
    }
    assert stack[..|stack|] == stack;
  }

  method PackContext(buff: array<byte>, start: nat, c: Context, ghost was: seq<byte>, ghost done: seq<byte>)
    returns (tam: nat)
    requires Written(buff[..], was, done) && start == |done| && start + |EncodeContext(c)| <= buff.Length
    modifies buff
    ensures tam == |EncodeContext(c)| && Written(buff[..], was, done + EncodeContext(c))
  {
    tam := PackShort(buff, start, c.retPos, was, done);
    ghost var d := done + EncodeShort(c.retPos);
    var n := PackVars(buff, start + tam, c.args, was, d);
    tam, d := tam + n, d + EncodeVars(c.args);
    n := PackVars(buff, start + tam, c.vars, was, d);
    tam, d := tam + n, d + EncodeVars(c.vars);
    PackedShorts(c.retVar.page, c.retVar.offset, c.retVar.size);
    n := Put(buff, start + tam, "hhh", [Number(c.retVar.page), Number(c.retVar.offset), Number(c.retVar.size)], was, d);
    tam, d := tam + n, d + EncodePos(c.retVar);
    assert d == done + EncodeContext(c);
  }

  /** serial_pack_pcb */
  method PackPcb(buff: array<byte>, p: Pcb) returns (tam: nat)
    requires |EncodePcb(p)| <= buff.Length && forall t :: t in p.indexTag ==> CString(t.name)
    modifies buff
    ensures tam == |EncodePcb(p)| && buff[..tam] == EncodePcb(p) && buff[tam..] == old(buff[tam..])
  {
    ghost var was := buff[..];
    tam := PackShorts(buff, Head(p), was);
    ghost var d := EncodeAll(Head(p), EncodeShort);
    var n := PackCode(buff, tam, p.indexCode, was, d);
    tam, d := tam + n, d + EncodeAll(p.indexCode, EncodeInstruction);
    n := PackTags(buff, tam, p.indexTag, was, d);
    tam, d := tam + n, d + EncodeAll(p.indexTag, EncodeTag);
    n := PackStack(buff, tam, p.stack, was, d);
    tam, d := tam + n, d + EncodeStack(p.stack);
    PcbInOrder(p);
  }

  lemma PcbInOrder(p: Pcb)
    ensures EncodeAll(Head(p), EncodeShort) + EncodeAll(p.indexCode, EncodeInstruction)
            + EncodeAll(p.indexTag, EncodeTag)
              + EncodeStack(p.stack) == EncodePcb(p)
  {
  }

  /** The numbers in front of everything else. */
  method PackShorts(buff: array<byte>, head: seq<int>, ghost was: seq<byte>) returns (tam: nat)
    requires buff[..] == was && |EncodeAll(head, EncodeShort)| <= buff.Length
    modifies buff
    ensures tam == |EncodeAll(head, EncodeShort)| && Written(buff[..], was, EncodeAll(head, EncodeShort))
  {
    tam := 0;
    ghost var d: seq<byte> := [];
    for i := 0 to |head|
      invariant tam == |d| && d == EncodeAll(head[..i], EncodeShort) && Written(buff[..], was, d)
    {
      OneMore(head, i, EncodeShort);
      var n := PackShort(buff, tam, head[i], was, d);
      tam, d := tam + n, d + EncodeShort(head[i]);
    }
    assert head[..|head|] == head;
  }

  method PackCode(buff: array<byte>, start: nat, xs: seq<Instruction>, ghost was: seq<byte>, ghost done: seq<byte>)
    returns (tam: nat)
    requires Written(buff[..], was, done) && start == |done|
    requires start + |EncodeAll(xs, EncodeInstruction)| <= buff.Length
    modifies buff
    ensures tam == |EncodeAll(xs, EncodeInstruction)| && Written(buff[..], was, done + EncodeAll(xs, EncodeInstruction))
  {
    tam := 0;
    ghost var d := done;
    for i := 0 to |xs|
      invariant start + tam == |d| && d == done + EncodeAll(xs[..i], EncodeInstruction) && Written(buff[..], was, d)
    {
      OneMore(xs, i, EncodeInstruction);
      var n := PackShort(buff, start + tam, xs[i].start, was, d);
      tam, d := tam + n, d + EncodeShort(xs[i].start);
      n := PackShort(buff, start + tam, xs[i].offset, was, d);
      tam, d := tam + n, d + EncodeShort(xs[i].offset);
    }
    assert xs[..|xs|] == xs;
  }

  method PackTags(buff: array<byte>, start: nat, ts: seq<Tag>, ghost was: seq<byte>, ghost done: seq<byte>)
    returns (tam: nat)
    requires Written(buff[..], was, done) && start == |done| && start + |EncodeAll(ts, EncodeTag)| <= buff.Length
    requires forall t :: t in ts ==> CString(t.name)
    modifies buff
    ensures tam == |EncodeAll(ts, EncodeTag)| && Written(buff[..], was, done + EncodeAll(ts, EncodeTag))
  {
    tam := 0;
    ghost var d := done;
    for i := 0 to |ts|
      invariant start + tam == |d| && d == done + EncodeAll(ts[..i], EncodeTag) && Written(buff[..], was, d)
    {
      OneMore(ts, i, EncodeTag);
      Regroup(done, EncodeAll(ts[..i], EncodeTag), EncodeTag(ts[i]));
      var n := PackTag(buff, start + tam, ts[i], was, d);
      tam, d := tam + n, d + EncodeTag(ts[i]);
    }
    assert ts[..|ts|] == ts;
  }

  method PackTag(buff: array<byte>, start: nat, t: Tag, ghost was: seq<byte>, ghost done: seq<byte>)
    returns (tam: nat)
    requires Written(buff[..], was, done) && start == |done| && start + |EncodeTag(t)| <= buff.Length
    requires CString(t.name)
    modifies buff
    ensures tam == |EncodeTag(t)| && Written(buff[..], was, done + EncodeTag(t))
  {
    PackedTagName(t.name);
    tam := Put(buff, start, "s", [Text(t.name)], was, done);
    var n := PackShort(buff, start + tam, t.PC, was, done + (EncodeShort(|t.name|) + t.name));
    tam := tam + n;
    Regroup(done, EncodeShort(|t.name|) + t.name, EncodeShort(t.PC));
  }

  // ----- Unpacking

  ghost function Prepended<T>(xs: seq<T>, r: Option<(seq<T>, seq<byte>)>): Option<(seq<T>, seq<byte>)> {
    match r
    case None => None
    case Some((ys, rest)) => Some((xs + ys, rest))
  }

  lemma PrependedTwice<T>(xs: seq<T>, x: T, r: Option<(seq<T>, seq<byte>)>)
    ensures Prepended(xs, Prepended([x], r)) == Prepended(xs + [x], r)
  {
    if r.Some? { assert xs + ([x] + r.value.0) == (xs + [x]) + r.value.0; }
  }

  lemma PrependedToNothing<T>(xs: seq<T>, rest: seq<byte>)
    ensures Prepended(xs, Some(([], rest))) == Some((xs, rest))
  {
    assert xs + [] == xs;
  }

  /** One letter of a format that takes an argument. */
  lemma UnpackedInFront(c: char, format: string, b: seq<byte>)
    requires TakesArgument(c)
    ensures var r := ReadField(c, b, 0);
            Unpacked([c] + format, b, 0)
            == if r == None then None else Prefixed([r.value.0], Unpacked(format, b[r.value.1..], 0))
  {
    assert ([c] + format)[1..] == format;
  }

  lemma UnpackedShort(b: seq<byte>)
    ensures Unpacked("h", b, 0) == if DecodeShort(b) == None then None else Some([Number(DecodeShort(b).value.0)])
  {
    UnpackedInFront('h', "", b);
    assert ['h'] + "" == "h";
    if |b| >= 2 {
      assert ReadField('h', b, 0) == Some((Number(UnpackSigned(b[..2])), 2));
      assert [Number(UnpackSigned(b[..2]))] + [] == [Number(UnpackSigned(b[..2]))];
    }
  }

  lemma UnpackedPos(b: seq<byte>)
    ensures Unpacked("hhh", b, 0)
            == if DecodePos(b) == None then None
               else var p := DecodePos(b).value.0; Some([Number(p.page), Number(p.offset), Number(p.size)])
  {
    UnpackedInFront('h', "hh", b);
    assert ['h'] + "hh" == "hhh" && ['h'] + "h" == "hh";
    if |b| >= 2 {
      var b1, x := b[2..], Number(UnpackSigned(b[..2]));
      UnpackedInFront('h', "h", b1);
      assert ReadField('h', b, 0) == Some((x, 2));
      if |b1| >= 2 {
        var b2, y := b1[2..], Number(UnpackSigned(b1[..2]));
        UnpackedShort(b2);
        assert ReadField('h', b1, 0) == Some((y, 2));
        if |b2| >= 2 {
          var z := Number(UnpackSigned(b2[..2]));
          assert [x] + ([y] + [z]) == [x, y, z];
        }
      }
    }
  }

  lemma UnpackedVar(b: seq<byte>)
    ensures Unpacked("chhh", b, 0)
            == if DecodeVar(b) == None then None
               else var v := DecodeVar(b).value.0;
                    Some([Number(v.id), Number(v.mempos.page), Number(v.mempos.offset), Number(v.mempos.size)])
  {
    UnpackedInFront('c', "hhh", b);
    assert ['c'] + "hhh" == "chhh";
    if b != [] {
      var id := Number(UnpackSigned(b[..1]));
      UnpackedPos(b[1..]);
      assert ReadField('c', b, 0) == Some((id, 1));
      if DecodePos(b[1..]).Some? {
        var p := DecodePos(b[1..]).value.0;
        var rest := [Number(p.page), Number(p.offset), Number(p.size)];
        assert [id] + rest == [id, Number(p.page), Number(p.offset), Number(p.size)];
      }
    }
  }

  method UnpackShort(b: seq<byte>) returns (r: Option<(int, seq<byte>)>)
    ensures r == DecodeShort(b)
  {
    UnpackedShort(b);
    var args := UnpackFrom(b, "h");
    r := if args == None then None else Some((args.value[0].i, b[2..]));
  }

  method UnpackPos(b: seq<byte>) returns (r: Option<(MemPos, seq<byte>)>)
    ensures r == DecodePos(b)
  {
    UnpackedPos(b);
    PosTakesSix(b);
    var args := UnpackFrom(b, "hhh");
    r := if args == None then None else Some((MemPos(args.value[0].i, args.value[1].i, args.value[2].i), b[6..]));
  }

  lemma PosTakesSix(b: seq<byte>)
    ensures DecodePos(b).Some? <==> |b| >= 6
    ensures |b| >= 6 ==> DecodePos(b).value.1 == b[6..]
  {
    if |b| >= 6 { assert b[2..][2..][2..] == b[6..]; }
  }

  method UnpackVar(b: seq<byte>) returns (r: Option<(Var, seq<byte>)>)
    ensures r == DecodeVar(b)
  {
    UnpackedVar(b);
    if |b| >= 1 {
      PosTakesSix(b[1..]);
      assert |b| >= 7 ==> b[1..][6..] == b[7..];
    }
    var args := UnpackFrom(b, "chhh");
    if args == None { return None; }
    var a := args.value;
    r := Some((Var(a[0].i, MemPos(a[1].i, a[2].i, a[3].i)), b[7..]));
  }

  /** One turn of a loop that reads what is left of a list. */
  lemma ReadOn<T>(xs: seq<T>, left: nat, rest: seq<byte>, dec: seq<byte> -> Option<(T, seq<byte>)>)
    requires left > 0
    ensures Prepended(xs, DecodeAll(left, rest, dec))
            == if dec(rest).None? then None
               else Prepended(xs + [dec(rest).value.0], DecodeAll(left - 1, dec(rest).value.1, dec))
  {
    if dec(rest).Some? {
      var (x, after) := dec(rest).value;
      PrependedTwice(xs, x, DecodeAll(left - 1, after, dec));
    }
  }

  lemma PrependedByNothing<T>(r: Option<(seq<T>, seq<byte>)>)
    ensures Prepended([], r) == r
  {
    if r.Some? { assert [] + r.value.0 == r.value.0; }
  }

  /** serial_unpack_vars: the count, then one variable a turn. */
  method UnpackVars(b: seq<byte>) returns (r: Option<(seq<Var>, seq<byte>)>)
    ensures r == DecodeVars(b)
  {
    var count := UnpackShort(b);
    if count == None { return None; }
    var n, rest := count.value.0, count.value.1;
    ghost var total := if n < 0 then 0 else n;
    var vs: seq<Var> := [];
    var i := 0;
    PrependedByNothing(DecodeAll(total, rest, DecodeVar));
    while i < n
      invariant 0 <= i <= total && Prepended(vs, DecodeAll(total - i, rest, DecodeVar)) == DecodeVars(b)
    {
      ReadOn(vs, total - i, rest, DecodeVar);
      var v := UnpackVar(rest);
      if v == None { return None; }
      vs, rest, i := vs + [v.value.0], v.value.1, i + 1;
    }
    PrependedToNothing(vs, rest);
    return Some((vs, rest));
  }

  method UnpackContext(b: seq<byte>) returns (r: Option<(Context, seq<byte>)>)
    ensures r == DecodeContext(b)
  {
    var retPos := UnpackShort(b);
    if retPos == None { return None; }
    var args := UnpackVars(retPos.value.1);
    if args == None { return None; }
    var vars := UnpackVars(args.value.1);
    if vars == None { return None; }
    var retVar := UnpackPos(vars.value.1);
    if retVar == None { return None; }
    return Some((Context(args.value.0, vars.value.0, retPos.value.0, retVar.value.0), retVar.value.1));
  }

  /** serial_unpack_stack: the count, then one context a turn. */
  method UnpackStack(b: seq<byte>) returns (r: Option<(seq<Context>, seq<byte>)>)
    ensures r == DecodeStack(b)
  {
    var count := UnpackShort(b);
    if count == None { return None; }
    var n, rest := count.value.0, count.value.1;
    r := UnpackContexts(if n < 0 then 0 else n, rest);
  }

  method UnpackContexts(n: nat, b: seq<byte>) returns (r: Option<(seq<Context>, seq<byte>)>)
    ensures r == DecodeAll(n, b, DecodeContext)
  {
    var stack: seq<Context> := [];
    var rest := b;
    PrependedByNothing(DecodeAll(n, rest, DecodeContext));
    for i := 0 to n
      invariant Prepended(stack, DecodeAll(n - i, rest, DecodeContext)) == DecodeAll(n, b, DecodeContext)
    {
      ReadOn(stack, n - i, rest, DecodeContext);
      var c := UnpackContext(rest);
      if c == None { return None; }
      stack, rest := stack + [c.value.0], c.value.1;
    }
    PrependedToNothing(stack, rest);
    return Some((stack, rest));
  }

  /** The numbers in front of everything else. */
  method UnpackShorts(n: nat, b: seq<byte>) returns (r: Option<(seq<int>, seq<byte>)>)
    ensures r == DecodeAll(n, b, DecodeShort)
  {
    var xs: seq<int> := [];
    var rest := b;
    PrependedByNothing(DecodeAll(n, rest, DecodeShort));
    for i := 0 to n
      invariant Prepended(xs, DecodeAll(n - i, rest, DecodeShort)) == DecodeAll(n, b, DecodeShort)
    {
      ReadOn(xs, n - i, rest, DecodeShort);
      var x := UnpackShort(rest);
      if x == None { return None; }
      xs, rest := xs + [x.value.0], x.value.1;
    }
    PrependedToNothing(xs, rest);
    return Some((xs, rest));
  }

  /** A number stored into a 32-bit unsigned field. */
  method UnpackWord(b: seq<byte>) returns (r: Option<(int, seq<byte>)>)
    ensures r == DecodeWord(b)
  {
    var x := UnpackShort(b);
    if x == None { return None; }
    return Some((Word32(x.value.0), x.value.1));
  }

  method UnpackCode(n: nat, b: seq<byte>) returns (r: Option<(seq<Instruction>, seq<byte>)>)
    ensures r == DecodeAll(n, b, DecodeInstruction)
  {
    var xs: seq<Instruction> := [];
    var rest := b;
    PrependedByNothing(DecodeAll(n, rest, DecodeInstruction));
    for i := 0 to n
      invariant Prepended(xs, DecodeAll(n - i, rest, DecodeInstruction)) == DecodeAll(n, b, DecodeInstruction)
    {
      ReadOn(xs, n - i, rest, DecodeInstruction);
      var start := UnpackWord(rest);
      if start == None { return None; }
      var offset := UnpackWord(start.value.1);
      if offset == None { return None; }
      xs, rest := xs + [Instruction(start.value.0, offset.value.0)], offset.value.1;
    }
    PrependedToNothing(xs, rest);
    return Some((xs, rest));
  }

  lemma LimitedText(b: seq<byte>)
    ensures var f := ReadField('s', b, TAG_LIMIT);
            Unpacked("64s", b, 0) == if f == None then None else Some([f.value.0])
  {
    assert "64s" == ['6'] + (['4'] + ['s']);
    UnpackedPast('6', ['4'] + ['s'], b, 0);
    UnpackedPast('4', ['s'], b, 6);
    LastText(b, TAG_LIMIT);
  }

  lemma LastText(b: seq<byte>, maxlen: nat)
    ensures var f := ReadField('s', b, maxlen);
            Unpacked(['s'], b, maxlen) == if f == None then None else Some([f.value.0])
  {
    var f := ReadField('s', b, maxlen);
    assert ['s'][1..] == "";
    if f.Some? { assert [f.value.0] + [] == [f.value.0]; }
  }

  /** A letter that takes no argument. */
  lemma UnpackedPast(c: char, format: string, b: seq<byte>, maxlen: nat)
    requires !TakesArgument(c)
    ensures Unpacked([c] + format, b, maxlen) == Unpacked(format, b, NextLimit(c, maxlen))
  {
    assert ([c] + format)[1..] == format;
  }

  /** The field of a tag's name, and the tag. */
  lemma NameField(b: seq<byte>)
    ensures var f := ReadField('s', b, TAG_LIMIT);
            && (f.Some? ==> |b| >= 2 && f.value.0.Text? && 2 + |f.value.0.s| <= |b|)
            && DecodeTag(b) == if f == None || UnpackUnsigned(b[..2]) == TAG_LIMIT then None
                               else TagBehind(f.value.0.s, b)
  {
  }

  /** What the interpreter makes of a tag's name: at most 64 bytes, a longer one cut to
      63; one of exactly 64 does not leave room for its NUL. */
  lemma UnpackedName(b: seq<byte>)
    ensures var r := Unpacked("64s", b, 0);
            && (r.Some? ==> |b| >= 2 && |r.value| == 1 && r.value[0].Text? && 2 + |r.value[0].s| <= |b|)
            && DecodeTag(b) == if r == None || UnpackUnsigned(b[..2]) == TAG_LIMIT then None
                               else TagBehind(r.value[0].s, b)
  {
    LimitedText(b);
    NameField(b);
  }

  /** The label's position follows the bytes of the name as it was unpacked. */
  function TagBehind(name: seq<byte>, b: seq<byte>): Option<(Tag, seq<byte>)>
    requires 2 + |name| <= |b|
  {
    match DecodeWord(b[2 + |name|..])
    case None => None
    case Some((pc, rest)) => Some((Tag(name, pc), rest))
  }

  /** The name through a buffer of 64 bytes, then the label's position behind what the
      name's length was found to be. */
  method UnpackTag(b: seq<byte>) returns (r: Option<(Tag, seq<byte>)>)
    ensures r == DecodeTag(b)
  {
    UnpackedName(b);
    var name := UnpackFrom(b, "64s");
    if name == None || UnpackUnsigned(b[..2]) == TAG_LIMIT { return None; }
    var pc := UnpackWord(b[2 + |name.value[0].s|..]);
    if pc == None { return None; }
    return Some((Tag(name.value[0].s, pc.value.0), pc.value.1));
  }

  method UnpackTags(n: nat, b: seq<byte>) returns (r: Option<(seq<Tag>, seq<byte>)>)
    ensures r == DecodeAll(n, b, DecodeTag)
  {
    var ts: seq<Tag> := [];
    var rest := b;
    PrependedByNothing(DecodeAll(n, rest, DecodeTag));
    for i := 0 to n
      invariant Prepended(ts, DecodeAll(n - i, rest, DecodeTag)) == DecodeAll(n, b, DecodeTag)
    {
      ReadOn(ts, n - i, rest, DecodeTag);
      var t := UnpackTag(rest);
      if t == None { return None; }
      ts, rest := ts + [t.value.0], t.value.1;
    }
    PrependedToNothing(ts, rest);
    return Some((ts, rest));
  }

  /** serial_unpack_pcb: the numbers in front, then each list by its own loop. */
  method UnpackPcb(b: seq<byte>) returns (r: Option<Pcb>)
    ensures r == DecodePcb(b)
  {
    var head := UnpackShorts(9, b);
    if head == None { return None; }
    var (h, b1) := head.value;
    AllDecoded(9, b, DecodeShort, FitsShort);
    if h[5] < 0 || h[6] < 0 { return None; }
    var code := UnpackCode(h[5], b1);
    if code == None { return None; }
    var tags := UnpackTags(h[6], code.value.1);
    if tags == None { return None; }
    var stack := UnpackStack(tags.value.1);
    if stack == None { return None; }
    return Some(Pcb(h[0], h[1], h[2], h[3], h[4], code.value.0, tags.value.0, stack.value.0, h[7], h[8]));
  }
}
