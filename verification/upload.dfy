// Kernel/src/Kernel.c:128-180, the page-by-page upload of a program's code, and
// CPU/src/CPU.c:128-149, the fetch of an instruction.
module Uploads {
  import opened Bytes
  import opened PageTables
  import opened Memories

  /** Pages the code takes. */
  function CodePages(size: nat, pageSize: int): (n: nat)
    requires pageSize > 0
  {
    size / pageSize + if size % pageSize != 0 then 1 else 0
  }

  /** The last page is sent with the remainder as its size, also when that is 0. */
  function ChunkSize(size: nat, pageSize: int, page: int): (n: nat)
    requires pageSize > 0
    ensures n <= pageSize
  {
    if page < CodePages(size, pageSize) - 1 then pageSize else size % pageSize
  }

  /** They are the fewest that hold it. */
  lemma PagesHoldCode(size: nat, pageSize: int)
    requires pageSize > 0
    ensures size <= CodePages(size, pageSize) * pageSize
    ensures forall n: nat :: size <= n * pageSize ==> CodePages(size, pageSize) <= n
  {
    var q := size / pageSize;
    assert size == q * pageSize + size % pageSize;
    if q < 0 { FramesApart(q, 0, pageSize); }
    assert (q + 1) * pageSize == q * pageSize + pageSize;
    forall n: nat | size <= n * pageSize ensures CodePages(size, pageSize) <= n {
      if n < q { FramesApart(n, q, pageSize); }
    }
  }

  lemma ChunkFits(size: nat, pageSize: int, page: nat)
    requires pageSize > 0 && page < CodePages(size, pageSize)
    ensures 0 <= page * pageSize && page * pageSize + ChunkSize(size, pageSize, page) <= size
    ensures page * pageSize + pageSize == (page + 1) * pageSize
  {
    var q := size / pageSize;
    assert size == q * pageSize + size % pageSize;
    FrameFits(page, page + 1, pageSize);
    if page < q { FrameFits(page, q, pageSize); }
  }

  function Chunk(code: seq<byte>, pageSize: int, page: nat): (c: seq<byte>)
    requires pageSize > 0 && page < CodePages(|code|, pageSize)
    ensures |c| == ChunkSize(|code|, pageSize, page) <= pageSize
  {
    ChunkFits(|code|, pageSize, page);
    code[page * pageSize..page * pageSize + ChunkSize(|code|, pageSize, page)]
  }

  /** The write requests for the pages from page on. */
  function Uploaded(m: Memory, pid: int, code: seq<byte>, pageSize: int, page: nat): Memory
    requires 0 < pageSize < 0x8000 && page <= CodePages(|code|, pageSize)
    decreases CodePages(|code|, pageSize) - page
  {
    if page == CodePages(|code|, pageSize) then m
    else
      var chunk := Chunk(code, pageSize, page);
      Uploaded(Write(m, pid, page, 0, |chunk|, chunk).0, pid, code, pageSize, page + 1)
  }

  lemma ChunkAt(code: seq<byte>, pageSize: int, page: nat, tam: nat)
    requires pageSize > 0 && page < CodePages(|code|, pageSize) && tam == page * pageSize
    ensures tam + ChunkSize(|code|, pageSize, page) <= |code|
    ensures code[tam..tam + ChunkSize(|code|, pageSize, page)] == Chunk(code, pageSize, page)
  {
    ChunkFits(|code|, pageSize, page);
  }

  method SendChunk(server: Server, pid: int, code: seq<byte>, pageSize: int, pag: nat, data: seq<byte>)
    requires server.Valid() && 0 < pageSize < 0x8000 && server.frameSize == pageSize && MemoryOk(server.View())
    requires pag < CodePages(|code|, pageSize) && data == Chunk(code, pageSize, pag)
    requires Mapped(server.View().rows, pid, pag)
    modifies server.main
    ensures server.View() == Write(old(server.View()), pid, pag, 0, |data|, data).0
  {
    ChunkWrite(server.View(), pid, code, pageSize, pag);
    RequestWrite(server, pid, pag, 0, |data|, data);
  }

  /** One turn of the loop, tam being what has been sent so far. */
  method SendPage(server: Server, pid: int, code: seq<byte>, pageSize: int, pag: nat, tam: nat) returns (size: nat)
    requires server.Valid() && 0 < pageSize < 0x8000 && server.frameSize == pageSize && MemoryOk(server.View())
    requires pag < CodePages(|code|, pageSize) && tam == pag * pageSize && Mapped(server.View().rows, pid, pag)
    modifies server.main
    ensures size == ChunkSize(|code|, pageSize, pag)
    ensures server.View() == Write(old(server.View()), pid, pag, 0, size, Chunk(code, pageSize, pag)).0
  {
    var pages := CodePages(|code|, pageSize);
    size := if pag < pages - 1 then pageSize else |code| % pageSize;
    ChunkAt(code, pageSize, pag, tam);
    SendChunk(server, pid, code, pageSize, pag, code[tam..tam + size]);
  }

  method Upload(server: Server, pid: int, code: seq<byte>, pageSize: int)
    requires server.Valid() && 0 < pageSize < 0x8000 && server.frameSize == pageSize && MemoryOk(server.View())
    requires forall g :: 0 <= g < CodePages(|code|, pageSize) ==> Mapped(server.View().rows, pid, g)
    modifies server.main
    ensures server.View() == Uploaded(old(server.View()), pid, code, pageSize, 0)
  {
    var pages := CodePages(|code|, pageSize);
    var tam := 0;
    for pag := 0 to pages
      invariant pag < pages ==> tam == pag * pageSize
      invariant MemoryOk(server.View()) && server.View().rows == old(server.View()).rows
      invariant Uploaded(server.View(), pid, code, pageSize, pag)
                == Uploaded(old(server.View()), pid, code, pageSize, 0)
    {
      ChunkFits(|code|, pageSize, pag);
      ChunkWrite(server.View(), pid, code, pageSize, pag);
      var size := SendPage(server, pid, code, pageSize, pag, tam);
      tam := tam + size;
    }
  }

  /** One chunk is either refused for being empty or stored inside its page. */
  lemma ChunkWrite(m: Memory, pid: int, code: seq<byte>, pageSize: int, page: nat)
    requires MemoryOk(m) && m.frameSize == pageSize && page < CodePages(|code|, pageSize) && Mapped(m.rows, pid, page)
    ensures var chunk := Chunk(code, pageSize, page);
            var (m', r) := Write(m, pid, page, 0, |chunk|, chunk);
            MemoryOk(m') && (if chunk == [] then r == Refused && m' == m else r == Data([]))
  {
    var chunk := Chunk(code, pageSize, page);
    if chunk != [] { WriteRefines(m, pid, page, 0, |chunk|, chunk, pid, page, 0); }
  }

  lemma {:induction false} UploadKeepsTable(m: Memory, pid: int, code: seq<byte>, pageSize: int, page: nat)
    requires MemoryOk(m) && m.frameSize == pageSize && page <= CodePages(|code|, pageSize)
    requires forall k :: 0 <= k < CodePages(|code|, pageSize) ==> Mapped(m.rows, pid, k)
    ensures var m' := Uploaded(m, pid, code, pageSize, page);
            MemoryOk(m') && m'.rows == m.rows && m'.frameSize == m.frameSize
    decreases CodePages(|code|, pageSize) - page
  {
    if page < CodePages(|code|, pageSize) {
      ChunkWrite(m, pid, code, pageSize, page);
      var chunk := Chunk(code, pageSize, page);
      UploadKeepsTable(Write(m, pid, page, 0, |chunk|, chunk).0, pid, code, pageSize, page + 1);
    }
  }

  /** What the upload leaves in memory, from a given page on: the chunk bytes in the
      pages of the program and the old bytes everywhere else. */
  lemma {:induction false} UploadRefines(m: Memory, pid: int, code: seq<byte>, pageSize: int, page: nat,
                                         p: int, g: int, o: int)
    requires MemoryOk(m) && m.frameSize == pageSize && page <= CodePages(|code|, pageSize)
    requires forall k :: 0 <= k < CodePages(|code|, pageSize) ==> Mapped(m.rows, pid, k)
    requires Mapped(m.rows, p, g) && 0 <= o < pageSize
    ensures var m' := Uploaded(m, pid, code, pageSize, page);
            && MemoryOk(m') && m'.rows == m.rows && m'.frameSize == m.frameSize
            && ByteAt(m', p, g, o)
                 == if p == pid && page <= g < CodePages(|code|, pageSize) && o < |Chunk(code, pageSize, g)|
                    then Chunk(code, pageSize, g)[o] else ByteAt(m, p, g, o)
    decreases CodePages(|code|, pageSize) - page
  {
    if page < CodePages(|code|, pageSize) {
      var chunk := Chunk(code, pageSize, page);
      var m1 := Write(m, pid, page, 0, |chunk|, chunk).0;
      ChunkRefines(m, pid, code, pageSize, page, p, g, o);
      UploadRefines(m1, pid, code, pageSize, page + 1, p, g, o);
      assert Uploaded(m, pid, code, pageSize, page) == Uploaded(m1, pid, code, pageSize, page + 1);
    }
  }

  lemma ChunkRefines(m: Memory, pid: int, code: seq<byte>, pageSize: int, page: nat, p: int, g: int, o: int)
    requires MemoryOk(m) && m.frameSize == pageSize && page < CodePages(|code|, pageSize) && Mapped(m.rows, pid, page)
    requires Mapped(m.rows, p, g) && 0 <= o < pageSize
    ensures var chunk := Chunk(code, pageSize, page);
            var m1 := Write(m, pid, page, 0, |chunk|, chunk).0;
            && MemoryOk(m1) && m1.rows == m.rows && m1.frameSize == m.frameSize
            && ByteAt(m1, p, g, o) == if p == pid && g == page && o < |chunk| then chunk[o] else ByteAt(m, p, g, o)
  {
    var chunk := Chunk(code, pageSize, page);
    ChunkWrite(m, pid, code, pageSize, page);
    if chunk != [] { WriteRefines(m, pid, page, 0, |chunk|, chunk, p, g, o); }
  }

  /** A position in the code as a page and an offset. */
  ghost predicate Located(size: nat, pageSize: int, k: nat, g: int, o: int) {
    0 < pageSize && k < size && 0 <= g < CodePages(size, pageSize) && 0 <= o < pageSize && k == g * pageSize + o
  }

  lemma Locate(size: nat, pageSize: int, k: nat)
    requires pageSize > 0 && k < size
    ensures Located(size, pageSize, k, k / pageSize, k % pageSize)
  {
    var g, q := k / pageSize, size / pageSize;
    assert k == g * pageSize + k % pageSize && size == q * pageSize + size % pageSize;
    if g < 0 { FramesApart(g, 0, pageSize); }
    if g > q { FramesApart(q, g, pageSize); }
  }

  /** The byte of the chunk at a located position, if the chunk reaches it: it does,
      unless the code fills its pages exactly and this is the last page. */
  lemma ChunkHolds(code: seq<byte>, pageSize: int, k: nat, g: int, o: int)
    requires Located(|code|, pageSize, k, g, o)
    ensures o < |Chunk(code, pageSize, g)| ==> Chunk(code, pageSize, g)[o] == code[k]
    ensures o < |Chunk(code, pageSize, g)| <==> !(|code| % pageSize == 0 && g == CodePages(|code|, pageSize) - 1)
  {
    ChunkFits(|code|, pageSize, g);
    ChunkReaches(|code|, pageSize, k, g, o);
  }

  lemma ChunkReaches(size: nat, pageSize: int, k: nat, g: int, o: int)
    requires Located(size, pageSize, k, g, o)
    ensures o < ChunkSize(size, pageSize, g) <==> !(size % pageSize == 0 && g == CodePages(size, pageSize) - 1)
  {
    var q := size / pageSize;
    assert size == q * pageSize + size % pageSize;
    if g < q - 1 { FramesApart(g, q - 1, pageSize); }
  }

  /** Every byte of the code ends up at its page and offset, except those of the last
      page of a code that fills its pages exactly: that page keeps its old bytes. */
  lemma UploadStoresCode(m: Memory, pid: int, code: seq<byte>, pageSize: int, k: nat, g: int, o: int)
    requires MemoryOk(m) && m.frameSize == pageSize && Located(|code|, pageSize, k, g, o)
    requires forall i :: 0 <= i < CodePages(|code|, pageSize) ==> Mapped(m.rows, pid, i)
    ensures var m' := Uploaded(m, pid, code, pageSize, 0);
            && MemoryOk(m') && m'.rows == m.rows && m'.frameSize == m.frameSize
            && ByteAt(m', pid, g, o)
                 == if |code| % pageSize == 0 && g == CodePages(|code|, pageSize) - 1
                    then ByteAt(m, pid, g, o) else code[k]
  {
    ChunkHolds(code, pageSize, k, g, o);
    UploadRefines(m, pid, code, pageSize, 0, pid, g, o);
  }

  /** pedirProximaInstruccionAMemoria: the request for an instruction's bytes. */
  function Fetch(m: Memory, pid: int, pageSize: int, start: int, length: int): Reply
    requires pageSize > 0
  {
    Read(m, pid, start / pageSize, start % pageSize, length)
  }

  /** The pages of a program hold its code. */
  ghost predicate CodeStored(m: Memory, pid: int, code: seq<byte>, pageSize: int) {
    && MemoryOk(m) && m.frameSize == pageSize
    && (forall g :: 0 <= g < CodePages(|code|, pageSize) ==> Mapped(m.rows, pid, g))
    && (forall k: nat, g, o :: Located(|code|, pageSize, k, g, o) ==> ByteAt(m, pid, g, o) == code[k])
  }

  lemma UploadedIsStored(m: Memory, pid: int, code: seq<byte>, pageSize: int)
    requires MemoryOk(m) && m.frameSize == pageSize && |code| % pageSize != 0
    requires forall i :: 0 <= i < CodePages(|code|, pageSize) ==> Mapped(m.rows, pid, i)
    ensures CodeStored(Uploaded(m, pid, code, pageSize, 0), pid, code, pageSize)
  {
    UploadKeepsTable(m, pid, code, pageSize, 0);
    var m' := Uploaded(m, pid, code, pageSize, 0);
    forall k: nat, g, o | Located(|code|, pageSize, k, g, o)
      ensures ByteAt(m', pid, g, o) == code[k]
    {
      UploadStoresCode(m, pid, code, pageSize, k, g, o);
    }
  }

  /** An instruction that does not cross a page comes back as it is in the source,
      whichever frames the pages got. */
  lemma FetchReturnsSource(m: Memory, pid: int, code: seq<byte>, pageSize: int, start: nat, length: nat)
    requires CodeStored(m, pid, code, pageSize)
    requires 0 < length && start + length <= |code| && start % pageSize + length <= pageSize
    ensures Fetch(m, pid, pageSize, start, length) == Data(code[start..start + length])
  {
    var g, o := start / pageSize, start % pageSize;
    Locate(|code|, pageSize, start);
    ReadRefines(m, pid, g, o, length);
    var bytes := Read(m, pid, g, o, length).bytes;
    forall k | 0 <= k < length ensures bytes[k] == code[start + k] {
      assert Located(|code|, pageSize, start + k, g, o + k);
    }
    assert bytes == code[start..start + length];
  }
}
