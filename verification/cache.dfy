// Memoria/src/cache.c: a page cache in one block of memory. The entries list holds,
// for every slot of the block, which page of which process is in it; the list's
// order decides who is replaced.
module Caches {
  import opened Bytes

  /** page: the slot number, that is (entry->page - cache.content) / s_entry. */
  datatype Entry = Entry(pid: int, pageno: int, slot: nat) {
    predicate Is(pid: int, pageno: int) { this.pid == pid && this.pageno == pageno }
  }

  const EMPTY := -1

  datatype State = State(quota: int, size: nat, content: seq<byte>, entries: seq<Entry>)

  function FirstOf(entries: seq<Entry>, pid: int, pageno: int): (i: nat)
    ensures i <= |entries| && (i < |entries| ==> entries[i].Is(pid, pageno))
    ensures forall j :: 0 <= j < i ==> !entries[j].Is(pid, pageno)
  {
    if entries == [] || entries[0].Is(pid, pageno) then 0 else 1 + FirstOf(entries[1..], pid, pageno)
  }

  function FirstEmpty(entries: seq<Entry>): (i: nat)
    ensures i <= |entries| && (i < |entries| ==> entries[i].pid == EMPTY)
    ensures forall j :: 0 <= j < i ==> entries[j].pid != EMPTY
  {
    if entries == [] || entries[0].pid == EMPTY then 0 else 1 + FirstEmpty(entries[1..])
  }

  function CountOf(entries: seq<Entry>, pid: int): (n: nat)
    ensures n <= |entries|
  {
    if entries == [] then 0
    else CountOf(entries[..|entries| - 1], pid) + if entries[|entries| - 1].pid == pid then 1 else 0
  }

  /** The entry a write goes to: the page's own, else an empty one, else the first.
      A page that would exceed its process's quota goes nowhere. */
  function Target(st: State, pid: int, pageno: int): (t: Option<nat>)
    requires st.entries != []
    ensures t.Some? ==> t.value < |st.entries|
  {
    var i, e := FirstOf(st.entries, pid, pageno), FirstEmpty(st.entries);
    if i < |st.entries| then Some(i)
    else if CountOf(st.entries, pid) == st.quota then None
    else if e < |st.entries| then Some(e)
    else Some(0)
  }

  ghost predicate Shaped(st: State) {
    && |st.content| == |st.entries| * st.size
    && forall e :: e in st.entries ==> e.slot < |st.entries|
  }

  function SlotOf(st: State, slot: nat): (page: seq<byte>)
    requires slot < |st.entries| && |st.content| == |st.entries| * st.size
    ensures |page| == st.size
  {
    SlotFits(slot, |st.entries|, st.size);
    st.content[slot * st.size..slot * st.size + st.size]
  }

  lemma SlotFits(k: nat, n: nat, size: nat)
    requires k < n
    ensures 0 <= k * size && k * size + size <= n * size
  {
    assert (n - (k + 1)) * size >= 0;
    assert n * size == k * size + size + (n - (k + 1)) * size;
  }

  function WithSlot(st: State, slot: nat, page: seq<byte>): (content: seq<byte>)
    requires slot < |st.entries| && |st.content| == |st.entries| * st.size && |page| == st.size
    ensures |content| == |st.content|
  {
    SlotFits(slot, |st.entries|, st.size);
    st.content[..slot * st.size] + page + st.content[slot * st.size + st.size..]
  }

  function Write(st: State, pid: int, pageno: int, page: seq<byte>): (State, bool)
    requires Shaped(st) && |page| == st.size
  {
    if st.entries == [] then (st, false)
    else
      match Target(st, pid, pageno)
      case None => (st, false)
      case Some(i) =>
        var slot := st.entries[i].slot;
        (st.(entries := st.entries[i := Entry(pid, pageno, slot)], content := WithSlot(st, slot, page)), true)
  }

  /** The last match is the one taken; it moves to the end of the list. */
  function LastOf(entries: seq<Entry>, pid: int, pageno: int): (i: int)
    ensures -1 <= i < |entries| && (i >= 0 ==> entries[i].Is(pid, pageno))
    ensures forall j :: i < j < |entries| ==> !entries[j].Is(pid, pageno)
  {
    if entries == [] then -1
    else if entries[|entries| - 1].Is(pid, pageno) then |entries| - 1
    else LastOf(entries[..|entries| - 1], pid, pageno)
  }

  function MovedToEnd(entries: seq<Entry>, i: nat): (r: seq<Entry>)
    requires i < |entries|
    ensures |r| == |entries|
  {
    entries[..i] + entries[i + 1..] + [entries[i]]
  }

  function Read(st: State, pid: int, pageno: int): (State, Option<seq<byte>>)
    requires Shaped(st)
  {
    var i := LastOf(st.entries, pid, pageno);
    if i == -1 then (st, None)
    else
      assert st.entries[i] in st.entries;
      (st.(entries := MovedToEnd(st.entries, i)), Some(SlotOf(st, st.entries[i].slot)))
  }

  function Flushed(st: State): State {
    st.(entries := seq(|st.entries|, i requires 0 <= i < |st.entries| => Entry(EMPTY, EMPTY, st.entries[i].slot)))
  }

  function Created(n: nat, size: nat, quota: int): State {
    State(quota, size, seq(n * size, i => 0), seq(n, i requires 0 <= i < n => Entry(EMPTY, EMPTY, i)))
  }

  // ----- Invariant

  /** The slots are a permutation of the block's, no page is held twice, and no
      process exceeds its quota. */
  ghost predicate CacheOk(st: State) {
    && st.quota >= 0 && Shaped(st) && SlotsApart(st.entries) && NoDuplicates(st.entries)
    && forall pid :: pid > 0 ==> CountOf(st.entries, pid) <= st.quota
  }

  ghost predicate SlotsApart(entries: seq<Entry>) {
    forall i, j :: 0 <= i < j < |entries| ==> entries[i].slot != entries[j].slot
  }

  ghost predicate NoDuplicates(entries: seq<Entry>) {
    forall i, j | 0 <= i < j < |entries| && entries[i].pid != EMPTY :: !entries[j].Is(entries[i].pid, entries[i].pageno)
  }

  /** What the cache holds for a page. */
  ghost function Held(st: State, pid: int, pageno: int): Option<seq<byte>>
    requires Shaped(st)
  {
    var i := FirstOf(st.entries, pid, pageno);
    if i == |st.entries| then None else assert st.entries[i] in st.entries; Some(SlotOf(st, st.entries[i].slot))
  }

  lemma {:induction false} CountOfUpdate(entries: seq<Entry>, i: nat, e: Entry, pid: int)
    requires i < |entries|
    ensures CountOf(entries[i := e], pid)
         == CountOf(entries, pid) + (if e.pid == pid then 1 else 0) - (if entries[i].pid == pid then 1 else 0)
  {
    var n := |entries| - 1;
    if i < n {
      assert entries[i := e][..n] == entries[..n][i := e];
      CountOfUpdate(entries[..n], i, e, pid);
    } else {
      assert entries[i := e][..n] == entries[..n];
    }
  }

  lemma {:induction false} CountOfConcat(a: seq<Entry>, b: seq<Entry>, pid: int)
    ensures CountOf(a + b, pid) == CountOf(a, pid) + CountOf(b, pid)
  {
    if b == [] {
      assert a + b == a;
    } else {
      assert (a + b)[..|a + b| - 1] == a + b[..|b| - 1];
      CountOfConcat(a, b[..|b| - 1], pid);
    }
  }

  lemma CountOfMoved(entries: seq<Entry>, i: nat, pid: int)
    requires i < |entries|
    ensures CountOf(MovedToEnd(entries, i), pid) == CountOf(entries, pid)
  {
    var a, b, c := entries[..i], entries[i + 1..], [entries[i]];
    CountOfConcat(a + b, c, pid);
    CountOfConcat(a, b, pid);
    CountOfConcat(a, c, pid);
    CountOfConcat(a + c, b, pid);
    assert a + c + b == entries;
  }

  lemma WriteKeepsCache(st: State, pid: int, pageno: int, page: seq<byte>)
    requires CacheOk(st) && |page| == st.size && pid > 0
    ensures CacheOk(Write(st, pid, pageno, page).0)
  {
    if st.entries != [] && Target(st, pid, pageno).Some? {
      var i := Target(st, pid, pageno).value;
      var e := Entry(pid, pageno, st.entries[i].slot);
      var entries := st.entries[i := e];
      assert st.entries[i] in st.entries;
      forall p | p > 0 ensures CountOf(entries, p) <= st.quota {
        CountOfUpdate(st.entries, i, e, p);
      }
      forall j, k | 0 <= j < k < |entries| && entries[j].pid != EMPTY
        ensures !entries[k].Is(entries[j].pid, entries[j].pageno)
      {
        if FirstOf(st.entries, pid, pageno) < |st.entries| {
          assert st.entries[i].Is(pid, pageno);
        } else {
          assert !st.entries[j].Is(pid, pageno) && !st.entries[k].Is(pid, pageno);
        }
      }
    }
  }

  /** Where the entry at position j of the new order was before. */
  function Before(n: nat, i: nat, j: nat): nat { if j < i then j else if j < n - 1 then j + 1 else i }

  lemma MovedIndices(entries: seq<Entry>, i: nat)
    requires i < |entries|
    ensures forall j :: 0 <= j < |entries| ==> MovedToEnd(entries, i)[j] == entries[Before(|entries|, i, j)]
  {
  }

  lemma MovedKeepsOrder(entries: seq<Entry>, i: nat)
    requires i < |entries| && SlotsApart(entries) && NoDuplicates(entries)
    ensures SlotsApart(MovedToEnd(entries, i)) && NoDuplicates(MovedToEnd(entries, i))
  {
    var n, r := |entries|, MovedToEnd(entries, i);
    MovedIndices(entries, i);
    forall j, k | 0 <= j < k < n
      ensures r[j].slot != r[k].slot && (r[j].pid != EMPTY ==> !r[k].Is(r[j].pid, r[j].pageno))
    {
      var j', k' := Before(n, i, j), Before(n, i, k);
      assert r[j] == entries[j'] && r[k] == entries[k'] && j' != k';
    }
  }

  lemma ReadKeepsCache(st: State, pid: int, pageno: int)
    requires CacheOk(st)
    ensures CacheOk(Read(st, pid, pageno).0)
  {
    var i := LastOf(st.entries, pid, pageno);
    if i >= 0 {
      var entries := MovedToEnd(st.entries, i);
      MovedKeepsOrder(st.entries, i);
      forall e | e in entries ensures e in st.entries {
        MovedIndices(st.entries, i);
      }
      forall p | p > 0 ensures CountOf(entries, p) <= st.quota { CountOfMoved(st.entries, i, p); }
    }
  }

  lemma {:induction false} NoneOf(entries: seq<Entry>, pid: int)
    requires forall i :: 0 <= i < |entries| ==> entries[i].pid != pid
    ensures CountOf(entries, pid) == 0
  {
    if entries != [] { NoneOf(entries[..|entries| - 1], pid); }
  }

  lemma EmptiedIsOk(st: State)
    requires Shaped(st) && SlotsApart(st.entries) && st.quota >= 0
    ensures CacheOk(Flushed(st))
  {
    var entries := Flushed(st).entries;
    assert forall i :: 0 <= i < |entries| ==> entries[i].slot == st.entries[i].slot && st.entries[i] in st.entries;
    forall p | p > 0 ensures CountOf(entries, p) <= st.quota { NoneOf(entries, p); }
  }

  lemma CreatedIsOk(n: nat, size: nat, quota: nat)
    ensures CacheOk(Created(n, size, quota))
  {
    assert 0 <= n * size;
    EmptiedIsOk(Created(n, size, quota));
    assert Flushed(Created(n, size, quota)) == Created(n, size, quota);
  }

  // ----- What writes and reads do to the pages held

  lemma HeldBy(st: State, i: nat, pid: int, pageno: int)
    requires CacheOk(st) && i < |st.entries| && st.entries[i].Is(pid, pageno) && pid != EMPTY
    ensures FirstOf(st.entries, pid, pageno) == i && LastOf(st.entries, pid, pageno) == i
    ensures Held(st, pid, pageno) == Some(SlotOf(st, st.entries[i].slot))
  {
  }

  lemma OnlyOne(entries: seq<Entry>, i: nat, p: int, g: int)
    requires NoDuplicates(entries) && i < |entries| && entries[i].Is(p, g) && p != EMPTY
    ensures FirstOf(entries, p, g) == i
  {
  }

  lemma OtherSlotKept(st: State, slot: nat, page: seq<byte>, other: nat, st': State)
    requires Shaped(st) && slot < |st.entries| && other < |st.entries| && |page| == st.size
    requires st' == st.(entries := st'.entries, content := WithSlot(st, slot, page)) && |st'.entries| == |st.entries|
    requires Shaped(st')
    ensures SlotOf(st', other) == if other == slot then page else SlotOf(st, other)
  {
    SlotFits(slot, |st.entries|, st.size);
    SlotFits(other, |st.entries|, st.size);
    if slot < other { SlotFits(slot, other, st.size); }
    if other < slot { SlotFits(other, slot, st.size); }
    SplicedElsewhere(st.content, page, slot * st.size, other * st.size);
  }

  lemma SplicedElsewhere(content: seq<byte>, page: seq<byte>, lo: nat, at: nat)
    requires lo + |page| <= |content| && at + |page| <= |content|
    requires at + |page| <= lo || at == lo || lo + |page| <= at
    ensures (content[..lo] + page + content[lo + |page|..])[at..at + |page|]
         == if at == lo then page else content[at..at + |page|]
  {
  }

  /** The page that a write pushes out, if any: the one in the target entry when the
      written page was not there yet. */
  function Victim(st: State, pid: int, pageno: int): (v: Option<Entry>)
    requires st.entries != []
  {
    match Target(st, pid, pageno)
    case None => None
    case Some(i) =>
      if st.entries[i].Is(pid, pageno) || st.entries[i].pid == EMPTY then None else Some(st.entries[i])
  }

  lemma WrittenIsHeld(st: State, pid: int, pageno: int, page: seq<byte>)
    requires CacheOk(st) && st.entries != [] && |page| == st.size && pid > 0 && Write(st, pid, pageno, page).1
    ensures var st' := Write(st, pid, pageno, page).0;
            CacheOk(st') && Held(st', pid, pageno) == Some(page) && Read(st', pid, pageno).1 == Some(page)
  {
    var st', i := Write(st, pid, pageno, page).0, Target(st, pid, pageno).value;
    WriteKeepsCache(st, pid, pageno, page);
    assert st.entries[i] in st.entries;
    OtherSlotKept(st, st.entries[i].slot, page, st.entries[i].slot, st');
    HeldBy(st', i, pid, pageno);
  }

  /** An entry other than the target keeps its page and its contents. */
  lemma OtherEntryKept(st: State, pid: int, pageno: int, page: seq<byte>, j: nat)
    requires CacheOk(st) && st.entries != [] && |page| == st.size && pid > 0 && Write(st, pid, pageno, page).1
    requires j < |st.entries| && j != Target(st, pid, pageno).value && st.entries[j].pid > 0
    ensures var (st', e) := (Write(st, pid, pageno, page).0, st.entries[j]);
            CacheOk(st') && Held(st', e.pid, e.pageno) == Held(st, e.pid, e.pageno)
  {
    var st', i, e := Write(st, pid, pageno, page).0, Target(st, pid, pageno).value, st.entries[j];
    WriteKeepsCache(st, pid, pageno, page);
    assert st.entries[i] in st.entries && e in st.entries;
    OtherSlotKept(st, st.entries[i].slot, page, e.slot, st');
    OnlyOne(st.entries, j, e.pid, e.pageno);
    OnlyOne(st'.entries, j, e.pid, e.pageno);
  }

  /** A successful write is what the next read returns, exactly one page is lost when
      there is a victim and none otherwise, and all the rest is as before. A refused
      write changes nothing. */
  lemma WriteHolds(st: State, pid: int, pageno: int, page: seq<byte>, p: int, g: int)
    requires CacheOk(st) && st.entries != [] && |page| == st.size && pid > 0 && p > 0
    ensures var (st', done) := Write(st, pid, pageno, page);
            && CacheOk(st') && (!done ==> st' == st)
            && (done ==> Held(st', pid, pageno) == Some(page) && Read(st', pid, pageno).1 == Some(page))
            && (done && (p, g) != (pid, pageno) ==>
                  Held(st', p, g) == if Victim(st, pid, pageno).Some? && Victim(st, pid, pageno).value.Is(p, g)
                                     then None else Held(st, p, g))
  {
    var (st', done) := Write(st, pid, pageno, page);
    if done {
      var i, j := Target(st, pid, pageno).value, FirstOf(st.entries, p, g);
      WrittenIsHeld(st, pid, pageno, page);
      assert forall k :: 0 <= k < |st.entries| && k != i ==> st'.entries[k] == st.entries[k];
      if (p, g) != (pid, pageno) && j < |st.entries| {
        if j == i {
          HeldBy(st, i, p, g);
        } else {
          OtherEntryKept(st, pid, pageno, page, j);
        }
      }
    }
  }

  /** When a write is refused: exactly when the page is not there and its process
      already holds as many pages as it may. */
  lemma WriteRefusedIff(st: State, pid: int, pageno: int, page: seq<byte>)
    requires CacheOk(st) && st.entries != [] && |page| == st.size && pid > 0
    ensures !Write(st, pid, pageno, page).1 <==> Held(st, pid, pageno).None? && CountOf(st.entries, pid) == st.quota
  {
  }

  /** A write pushes a page out if and only if its own page is not there, its process may
      hold one more, and no entry is empty. */
  lemma VictimIff(st: State, pid: int, pageno: int)
    requires CacheOk(st) && st.entries != [] && pid > 0
    ensures Victim(st, pid, pageno).Some?
            <==> Held(st, pid, pageno).None? && CountOf(st.entries, pid) < st.quota
                 && forall i :: 0 <= i < |st.entries| ==> st.entries[i].pid != EMPTY
  {
  }

  /** Emptying the cache loses every page, and gives every process its whole quota back. */
  lemma FlushForgets(st: State, pid: int, pageno: int, page: seq<byte>)
    requires CacheOk(st) && pid > 0
    ensures var t := Flushed(st);
            && CacheOk(t) && |t.entries| == |st.entries|
            && Held(t, pid, pageno).None? && Read(t, pid, pageno) == (t, None)
            && (|page| == st.size && st.entries != [] && st.quota > 0 ==> Write(t, pid, pageno, page).1)
  {
    var t := Flushed(st);
    EmptiedIsOk(st);
    assert FirstOf(t.entries, pid, pageno) == |t.entries|;
    NoneOf(t.entries, pid);
  }

  /** Reading moves an entry but changes no page. */
  lemma ReadHolds(st: State, pid: int, pageno: int, p: int, g: int)
    requires CacheOk(st) && pid > 0 && p > 0
    ensures var (st', r) := Read(st, pid, pageno);
            Shaped(st') && r == Held(st, pid, pageno) && Held(st', p, g) == Held(st, p, g)
  {
    var i := LastOf(st.entries, pid, pageno);
    if i >= 0 {
      HeldBy(st, i, pid, pageno);
      ReadKeepsCache(st, pid, pageno);
      MovedHolds(st, i, p, g);
    }
  }

  /** The entry of a page is the same before and after a move. */
  lemma MovedFirst(entries: seq<Entry>, i: nat, p: int, g: int)
    requires NoDuplicates(entries) && i < |entries| && p != EMPTY
    ensures var moved := MovedToEnd(entries, i);
            var j, k := FirstOf(moved, p, g), FirstOf(entries, p, g);
            (j == |entries| <==> k == |entries|) && (j < |entries| && k < |entries| ==> moved[j] == entries[k])
  {
    var j := FirstOf(MovedToEnd(entries, i), p, g);
    if j < |entries| {
      MovedIndices(entries, i);
      OnlyOne(entries, Before(|entries|, i, j), p, g);
    } else {
      NotMoved(entries, i, p, g);
    }
  }

  lemma MovedHolds(st: State, i: nat, p: int, g: int)
    requires Shaped(st) && NoDuplicates(st.entries) && i < |st.entries| && p > 0
    requires Shaped(st.(entries := MovedToEnd(st.entries, i)))
    ensures Held(st.(entries := MovedToEnd(st.entries, i)), p, g) == Held(st, p, g)
  {
    MovedFirst(st.entries, i, p, g);
  }

  lemma NotMoved(entries: seq<Entry>, i: nat, p: int, g: int)
    requires i < |entries| && FirstOf(MovedToEnd(entries, i), p, g) == |entries|
    ensures FirstOf(entries, p, g) == |entries|
  {
    var k := FirstOf(entries, p, g);
    if k < |entries| {
      var j := if k < i then k else if k == i then |entries| - 1 else k - 1;
      assert 0 <= j < |entries| && Before(|entries|, i, j) == k;
      MovedIndices(entries, i);
    }
  }

  // ----- Replacement

  datatype Request = WritePage(pid: int, pageno: int, page: seq<byte>) | ReadPage(pid: int, pageno: int) | Flush

  function Served(st: State, q: Request): State
    requires Shaped(st) && (q.WritePage? ==> |q.page| == st.size)
  {
    match q
    case WritePage(pid, pageno, page) => Write(st, pid, pageno, page).0
    case ReadPage(pid, pageno) => Read(st, pid, pageno).0
    case Flush => Flushed(st)
  }

  /** When each slot was last read: the clock of the read, or a time before the run
      for a slot never read, in creation order. */
  type Clock = seq<int>

  function Ticked(st: State, clock: Clock, now: int, q: Request): Clock {
    if q.ReadPage? && LastOf(st.entries, q.pid, q.pageno) >= 0
       && st.entries[LastOf(st.entries, q.pid, q.pageno)].slot < |clock|
    then clock[st.entries[LastOf(st.entries, q.pid, q.pageno)].slot := now]
    else clock
  }

  ghost predicate ByRecency(st: State, clock: Clock, now: int) {
    && (forall i :: 0 <= i < |st.entries| ==> st.entries[i].slot < |clock| && clock[st.entries[i].slot] < now)
    && (forall i, j :: 0 <= i < j < |st.entries| ==> clock[st.entries[i].slot] < clock[st.entries[j].slot])
  }

  function RunState(st: State, qs: seq<Request>): State
    requires CacheOk(st) && ProperRun(st.size, qs)
    decreases |qs|
  {
    if qs == [] then st else ServedIsOk(st, qs[0]); RunState(Served(st, qs[0]), qs[1..])
  }

  function RunClock(st: State, clock: Clock, now: int, qs: seq<Request>): Clock
    requires CacheOk(st) && ProperRun(st.size, qs)
    decreases |qs|
  {
    if qs == [] then clock
    else ServedIsOk(st, qs[0]); RunClock(Served(st, qs[0]), Ticked(st, clock, now, qs[0]), now + 1, qs[1..])
  }

  predicate ProperRun(size: nat, qs: seq<Request>) {
    forall q :: q in qs ==> ProperRequest(size, q)
  }

  predicate ProperRequest(size: nat, q: Request) {
    (q.Flush? || q.pid > 0) && (q.WritePage? ==> |q.page| == size)
  }

  lemma ServedIsOk(st: State, q: Request)
    requires CacheOk(st) && ProperRequest(st.size, q)
    ensures CacheOk(Served(st, q)) && Served(st, q).size == st.size && |Served(st, q).entries| == |st.entries|
  {
    match q {
      case WritePage(pid, pageno, page) => WriteKeepsCache(st, pid, pageno, page);
      case ReadPage(pid, pageno) => ReadKeepsCache(st, pid, pageno);
      case Flush =>
        EmptiedIsOk(st);
    }
  }

  lemma MovedByRecency(st: State, clock: Clock, now: int, i: nat)
    requires SlotsApart(st.entries) && ByRecency(st, clock, now) && i < |st.entries|
    ensures ByRecency(st.(entries := MovedToEnd(st.entries, i)), clock[st.entries[i].slot := now], now + 1)
  {
    var n, r := |st.entries|, MovedToEnd(st.entries, i);
    var clock' := clock[st.entries[i].slot := now];
    MovedIndices(st.entries, i);
    forall j | 0 <= j < n - 1
      ensures r[j].slot < |clock| && clock'[r[j].slot] == clock[r[j].slot] < now
    {
      var k := Before(n, i, j);
      assert r[j] == st.entries[k] && st.entries[k].slot != st.entries[i].slot;
    }
    forall j, k | 0 <= j < k < n ensures clock'[r[j].slot] < clock'[r[k].slot] {
      if k < n - 1 { assert Before(n, i, j) < Before(n, i, k); }
    }
  }

  lemma ServedByRecency(st: State, clock: Clock, now: int, q: Request)
    requires CacheOk(st) && ProperRequest(st.size, q) && ByRecency(st, clock, now)
    ensures ByRecency(Served(st, q), Ticked(st, clock, now, q), now + 1)
  {
    match q {
      case ReadPage(pid, pageno) => ReadByRecency(st, clock, now, pid, pageno);
      case WritePage(pid, pageno, page) => WriteByRecency(st, clock, now, pid, pageno, page);
      case Flush => SameSlotsByRecency(st, Flushed(st), clock, now);
    }
  }

  lemma ReadByRecency(st: State, clock: Clock, now: int, pid: int, pageno: int)
    requires Shaped(st) && SlotsApart(st.entries) && ByRecency(st, clock, now)
    ensures ByRecency(Read(st, pid, pageno).0, Ticked(st, clock, now, ReadPage(pid, pageno)), now + 1)
  {
    var i := LastOf(st.entries, pid, pageno);
    if i >= 0 {
      MovedByRecency(st, clock, now, i);
    } else {
      SameSlotsByRecency(st, st, clock, now);
    }
  }

  lemma WriteByRecency(st: State, clock: Clock, now: int, pid: int, pageno: int, page: seq<byte>)
    requires Shaped(st) && |page| == st.size && ByRecency(st, clock, now)
    ensures ByRecency(Write(st, pid, pageno, page).0, Ticked(st, clock, now, WritePage(pid, pageno, page)), now + 1)
  {
    WriteKeepsSlots(st, pid, pageno, page);
    SameSlotsByRecency(st, Write(st, pid, pageno, page).0, clock, now);
  }

  lemma WriteKeepsSlots(st: State, pid: int, pageno: int, page: seq<byte>)
    requires Shaped(st) && |page| == st.size
    ensures var st' := Write(st, pid, pageno, page).0;
            |st'.entries| == |st.entries|
            && forall i :: 0 <= i < |st.entries| ==> st'.entries[i].slot == st.entries[i].slot
  {
  }

  lemma SameSlotsByRecency(st: State, st': State, clock: Clock, now: int)
    requires ByRecency(st, clock, now) && |st'.entries| == |st.entries|
    requires forall i :: 0 <= i < |st.entries| ==> st'.entries[i].slot == st.entries[i].slot
    ensures ByRecency(st', clock, now + 1)
  {
  }

  lemma {:induction false} RunsKeepCache(st: State, clock: Clock, now: int, qs: seq<Request>)
    requires CacheOk(st) && ProperRun(st.size, qs) && ByRecency(st, clock, now)
    ensures CacheOk(RunState(st, qs)) && ByRecency(RunState(st, qs), RunClock(st, clock, now, qs), now + |qs|)
    ensures |RunState(st, qs).entries| == |st.entries|
    decreases |qs|
  {
    if qs != [] {
      ServedIsOk(st, qs[0]);
      ServedByRecency(st, clock, now, qs[0]);
      RunsKeepCache(Served(st, qs[0]), Ticked(st, clock, now, qs[0]), now + 1, qs[1..]);
    }
  }

  /** Slots never read, the first created the longest ago. */
  function Unread(n: nat): Clock { seq(n, i requires 0 <= i < n => i - n) }

  /** Over every run of a fresh cache: it stays in order, and the entry that a write to
      a full cache takes is the one whose last read lies furthest back. */
  lemma VictimIsLeastRecentlyRead(n: nat, size: nat, quota: nat, qs: seq<Request>, pid: int, pageno: int)
    requires n > 0 && ProperRun(size, qs) && CacheOk(Created(n, size, quota))
    ensures var st, clock := RunState(Created(n, size, quota), qs), RunClock(Created(n, size, quota), Unread(n), 0, qs);
            && CacheOk(st) && |st.entries| == n && ByRecency(st, clock, |qs|)
            && (Victim(st, pid, pageno).Some? ==>
                  && (forall i :: 0 <= i < n ==> st.entries[i].pid != EMPTY)
                  && Victim(st, pid, pageno).value == st.entries[0]
                  && (forall i :: 0 < i < n ==> clock[st.entries[0].slot] < clock[st.entries[i].slot]))
  {
    RunsKeepCache(Created(n, size, quota), Unread(n), 0, qs);
  }

  lemma LastWrittenIsVictim(st: State, pid: int, pageno: int, page: seq<byte>, p: int, g: int)
    requires CacheOk(st) && st.entries != [] && |page| == st.size && pid > 0 && p > 0 && (p, g) != (pid, pageno)
    requires Victim(st, pid, pageno).Some? && FirstOf(st.entries, p, g) == |st.entries|
    requires CountOf(Write(st, pid, pageno, page).0.entries, p) < st.quota
    ensures var st' := Write(st, pid, pageno, page).0;
            Victim(st', p, g) == Some(Entry(pid, pageno, st.entries[0].slot)) && Target(st', p, g) == Some(0)
  {
    var st' := Write(st, pid, pageno, page).0;
    assert Target(st, pid, pageno) == Some(0);
    assert forall j :: 0 < j < |st.entries| ==> st'.entries[j] == st.entries[j];
    assert FirstEmpty(st.entries) == |st.entries|;
  }

  /** Writing does not count as using: the page just written into a full cache is the
      first to go, as long as nothing is read. */
  lemma WriteEvictsTheLastWritten(st: State, pid: int, pageno: int, page: seq<byte>, p: int, g: int, page': seq<byte>)
    requires CacheOk(st) && st.entries != [] && |page| == |page'| == st.size
    requires pid > 0 && p > 0 && (p, g) != (pid, pageno)
    requires Victim(st, pid, pageno).Some? && Held(st, p, g).None?
    requires CountOf(Write(st, pid, pageno, page).0.entries, p) < st.quota
    ensures var st' := Write(st, pid, pageno, page).0;
            CacheOk(st') && CacheOk(Write(st', p, g, page').0) && Held(Write(st', p, g, page').0, pid, pageno).None?
  {
    var st' := Write(st, pid, pageno, page).0;
    WriteKeepsCache(st, pid, pageno, page);
    LastWrittenIsVictim(st, pid, pageno, page, p, g);
    WriteHolds(st', p, g, page', pid, pageno);
  }

  // ----- Recency of use

  /** When each slot was last read, last written, and last either of the two. */
  datatype Clocks = Clocks(read: Clock, written: Clock, used: Clock)

  /** The slot a request reads, or writes; -1 for none. */
  function SlotRead(st: State, q: Request): int {
    if q.ReadPage? && LastOf(st.entries, q.pid, q.pageno) >= 0
    then st.entries[LastOf(st.entries, q.pid, q.pageno)].slot
    else -1
  }

  function SlotWritten(st: State, q: Request): int {
    if q.WritePage? && st.entries != [] && Target(st, q.pid, q.pageno).Some? then
      st.entries[Target(st, q.pid, q.pageno).value].slot
    else -1
  }

  function Marked(clock: Clock, slot: int, now: int): (c: Clock)
    ensures |c| == |clock|
  {
    if 0 <= slot < |clock| then clock[slot := now] else clock
  }

  function AllTicked(st: State, c: Clocks, now: int, q: Request): Clocks {
    Clocks(Marked(c.read, SlotRead(st, q), now), Marked(c.written, SlotWritten(st, q), now),
           Marked(Marked(c.used, SlotRead(st, q), now), SlotWritten(st, q), now))
  }

  function RunClocks(st: State, c: Clocks, now: int, qs: seq<Request>): Clocks
    requires CacheOk(st) && ProperRun(st.size, qs)
    decreases |qs|
  {
    if qs == [] then c
    else
      ServedIsOk(st, qs[0]);
      RunClocks(Served(st, qs[0]), AllTicked(st, c, now, qs[0]), now + 1, qs[1..])
  }

  ghost predicate InStep(c: Clocks, n: nat, now: int) {
    && |c.read| == |c.written| == |c.used| == n
    && forall k :: 0 <= k < n ==>
         c.read[k] < now && c.written[k] < now && c.used[k]
             == if c.read[k] < c.written[k] then c.written[k] else c.read[k]
  }

  lemma TickInStep(st: State, c: Clocks, n: nat, now: int, q: Request)
    requires InStep(c, n, now)
    ensures InStep(AllTicked(st, c, now, q), n, now + 1)
    ensures AllTicked(st, c, now, q).read == Ticked(st, c.read, now, q)
  {
  }

  lemma {:induction false} RunInStep(st: State, c: Clocks, now: int, qs: seq<Request>)
    requires CacheOk(st) && ProperRun(st.size, qs) && InStep(c, |st.entries|, now)
    ensures InStep(RunClocks(st, c, now, qs), |st.entries|, now + |qs|)
    ensures RunClocks(st, c, now, qs).read == RunClock(st, c.read, now, qs)
    decreases |qs|
  {
    if qs != [] {
      ServedIsOk(st, qs[0]);
      TickInStep(st, c, |st.entries|, now, qs[0]);
      RunInStep(Served(st, qs[0]), AllTicked(st, c, now, qs[0]), now + 1, qs[1..]);
    }
  }

  /** Whether the head of the list is, of all entries, the one before whose time on a
      clock every other entry was last used. */
  ghost predicate HeadBefore(st: State, head: Clock, used: Clock)
    requires st.entries != [] && forall i :: 0 <= i < |st.entries| ==> st.entries[i].slot < |head| == |used|
  {
    forall i :: 0 < i < |st.entries| ==> head[st.entries[0].slot] < used[st.entries[i].slot]
  }

  /** Over every run of a fresh cache, the entry that a write takes from a full cache is
      the least recently used one, reads and writes both counted, if and only if every
      other entry has been used since that one was last written. */
  lemma VictimIsLeastRecentlyUsedIff(n: nat, size: nat, quota: nat, qs: seq<Request>, pid: int, pageno: int)
    requires n > 0 && ProperRun(size, qs) && CacheOk(Created(n, size, quota))
    ensures var st := RunState(Created(n, size, quota), qs);
            var c := RunClocks(Created(n, size, quota), Clocks(Unread(n), Unread(n), Unread(n)), 0, qs);
            && |st.entries| == n && InStep(c, n, |qs|) && CacheOk(st)
            && (Victim(st, pid, pageno).Some? ==>
                  && Victim(st, pid, pageno).value == st.entries[0]
                  && (forall i :: 0 <= i < n ==> st.entries[i].slot < n)
                  && (HeadBefore(st, c.used, c.used) <==> HeadBefore(st, c.written, c.used)))
  {
    var start, c0 := Created(n, size, quota), Clocks(Unread(n), Unread(n), Unread(n));
    VictimIsLeastRecentlyRead(n, size, quota, qs, pid, pageno);
    RunInStep(start, c0, 0, qs);
    var st, c := RunState(start, qs), RunClocks(start, c0, 0, qs);
    assert c.read == RunClock(start, Unread(n), 0, qs);
    forall i | 0 <= i < n ensures st.entries[i].slot < n { assert st.entries[i] in st.entries; }
  }

  /** Three writes into a cache of two entries: the next write takes the entry that was
      written last, not the least recently used one. */
  lemma LastWrittenGoesFirst(a: seq<byte>, b: seq<byte>, c: seq<byte>)
    requires |a| == |b| == |c| == 1
    ensures var st0 := Created(2, 1, 3);
            var qs := [WritePage(1, 0, a), WritePage(1, 1, b), WritePage(1, 2, c)];
            && CacheOk(st0) && ProperRun(1, qs)
            && var st := RunState(st0, qs);
            && st.entries == [Entry(1, 2, 0), Entry(1, 1, 1)]
            && CacheOk(st) && Victim(st, 2, 0) == Some(Entry(1, 2, 0))
  {
    var st0 := Created(2, 1, 3);
    CreatedIsOk(2, 1, 3);
    assert st0.entries == [Entry(EMPTY, EMPTY, 0), Entry(EMPTY, EMPTY, 1)];
    var st1 := WriteToPair(st0, Entry(EMPTY, EMPTY, 0), Entry(EMPTY, EMPTY, 1), 0, a);
    var st2 := WriteToPair(st1, Entry(1, 0, 0), Entry(EMPTY, EMPTY, 1), 1, b);
    var st3 := WriteToPair(st2, Entry(1, 0, 0), Entry(1, 1, 1), 2, c);
    ThreeServed(st0, st1, st2, st3, WritePage(1, 0, a), WritePage(1, 1, b), WritePage(1, 2, c));
    CountOfPair(Entry(1, 2, 0), Entry(1, 1, 1), 2);
    assert Target(st3, 2, 0) == Some(0);
  }

  /** Process 1 writes a page that neither of two entries holds. */
  lemma WriteToPair(st: State, e: Entry, f: Entry, pageno: nat, page: seq<byte>) returns (st': State)
    requires CacheOk(st) && st.entries == [e, f] && st.quota == 3 && |page| == st.size
    requires e.pageno != pageno && f.pageno != pageno
    ensures st' == Write(st, 1, pageno, page).0 == Served(st, WritePage(1, pageno, page))
    ensures CacheOk(st') && st'.size == st.size
    ensures st'.quota == 3
    ensures st'.entries == if e.pid != EMPTY && f.pid == EMPTY
                           then [e, Entry(1, pageno, f.slot)] else [Entry(1, pageno, e.slot), f]
  {
    st' := Write(st, 1, pageno, page).0;
    CountOfPair(e, f, 1);
    WriteKeepsCache(st, 1, pageno, page);
    assert Target(st, 1, pageno) == Some(if e.pid != EMPTY && f.pid == EMPTY then 1 else 0);
  }

  lemma CountOfPair(e: Entry, f: Entry, pid: int)
    ensures CountOf([e, f], pid) == (if e.pid == pid then 1 else 0) + (if f.pid == pid then 1 else 0)
  {
    assert [e, f][..1] == [e] && [e][..0] == [];
  }

  lemma ThreeServed(st0: State, st1: State, st2: State, st3: State, p: Request, q: Request, r: Request)
    requires CacheOk(st0) && ProperRequest(st0.size, p) && st1 == Served(st0, p)
    requires CacheOk(st1) && ProperRequest(st1.size, q) && st2 == Served(st1, q)
    requires CacheOk(st2) && ProperRequest(st2.size, r) && st3 == Served(st2, r)
    requires st1.size == st2.size == st0.size
    ensures ProperRun(st0.size, [p, q, r]) && RunState(st0, [p, q, r]) == st3
  {
    FirstServed(st2, r, []);
    assert [r] + [] == [r];
    FirstServed(st1, q, [r]);
    assert [q] + [r] == [q, r];
    FirstServed(st0, p, [q, r]);
    assert [p] + [q, r] == [p, q, r];
  }

  lemma FirstServed(st: State, q: Request, qs: seq<Request>)
    requires CacheOk(st) && ProperRequest(st.size, q) && ProperRun(st.size, qs)
    ensures ProperRun(st.size, [q] + qs) && CacheOk(Served(st, q)) && Served(st, q).size == st.size
    ensures RunState(st, [q] + qs) == RunState(Served(st, q), qs)
  {
    ServedIsOk(st, q);
    assert ([q] + qs)[1..] == qs;
  }

  // ----- The cache in place

  class Cache {
    var enabled: bool
    var quota: int
    var size: nat
    var content: array<byte>
    var entries: seq<Entry>

    ghost function View(): State
      reads this, content
    {
      State(quota, size, content[..], entries)
    }

    /** A disabled cache has no entries. */
    ghost predicate Valid()
      reads this, content
    {
      Shaped(View()) && (enabled <==> entries != [])
    }

    constructor (n: nat, size: nat, quota: int)
      ensures Valid() && View() == Created(n, size, quota) && fresh(content)
    {
      assert 0 <= n * size;
      enabled := n != 0;
      this.quota, this.size := quota, size;
      content := new byte[n * size](i => 0);
      entries := [];
      new;
      for i := 0 to n
        invariant entries == seq(i, j requires 0 <= j < i => Entry(EMPTY, EMPTY, j))
        invariant fresh(content) && content[..] == seq(n * size, j => 0)
        invariant this.quota == quota && this.size == size && (enabled <==> n != 0)
      {
        entries := entries + [Entry(EMPTY, EMPTY, i)];
      }
    }

    method FindPage(pid: int, pageno: int) returns (i: nat, owned: nat)
      ensures i == FirstOf(entries, pid, pageno) && owned == CountOf(entries, pid)
    {
      owned := 0;
      i := |entries|;
      for k := 0 to |entries|
        invariant owned == CountOf(entries[..k], pid)
        invariant if i == |entries| then forall j :: 0 <= j < k ==> !entries[j].Is(pid, pageno)
                  else i < k && i == FirstOf(entries, pid, pageno)
      {
        assert entries[..k + 1][..k] == entries[..k];
        if entries[k].pid == pid {
          owned := owned + 1;
          if entries[k].pageno == pageno && i == |entries| { i := k; }
        }
      }
      assert entries[..|entries|] == entries;
    }

    method FindEmpty() returns (i: nat)
      ensures i == FirstEmpty(entries)
    {
      i := 0;
      while i < |entries| && entries[i].pid != EMPTY
        invariant i <= |entries| && forall j :: 0 <= j < i ==> entries[j].pid != EMPTY
      {
        i := i + 1;
      }
    }

    /** The entry to write to, if the quota allows it. */
    method ChooseEntry(pid: int, pageno: int) returns (target: Option<nat>)
      requires entries != []
      ensures target == Target(View(), pid, pageno)
    {
      var i, owned := FindPage(pid, pageno);
      if i == |entries| {
        if owned == quota { return None; }
        i := FindEmpty();
        if i == |entries| { i := 0; }
      }
      return Some(i);
    }

    method WritePage(pid: int, pageno: int, page: array<byte>) returns (done: bool)
      requires Valid() && page.Length == size && page != content
      modifies this`entries, content
      ensures Valid() && content == old(content)
      ensures (View(), done) == Write(old(View()), pid, pageno, page[..])
    {
      if !enabled { return false; }
      var target := ChooseEntry(pid, pageno);
      if target == None { return false; }
      ghost var st := View();
      assert entries[target.value] in entries;
      var slot := entries[target.value].slot;
      CopyPage(slot, page);
      entries := entries[target.value := Entry(pid, pageno, slot)];
      assert forall e :: e in entries ==> e in st.entries || e.slot == slot;
      done := true;
    }

    /** memcpy(entry->page, page, s_entry) */
    method CopyPage(slot: nat, page: array<byte>)
      requires slot < |entries| && content.Length == |entries| * size && page.Length == size && page != content
      modifies content
      ensures content[..] == WithSlot(old(View()), slot, page[..])
    {
      SlotFits(slot, |entries|, size);
      CopyBytes(slot * size, page);
    }

    method CopyBytes(base: nat, page: array<byte>)
      requires base + page.Length <= content.Length && page != content
      modifies content
      ensures content[..] == old(content[..base]) + page[..] + old(content[base + page.Length..])
    {
      ghost var was := content[..];
      for k := 0 to page.Length
        invariant content[..base] == was[..base] && content[base + k..] == was[base + k..]
        invariant content[base..base + k] == page[..k]
      {
        content[base + k] := page[k];
      }
      assert content[..] == content[..base] + content[base..base + page.Length] + content[base + page.Length..];
    }

    /** The loop of cache_read. */
    method FindLast(pid: int, pageno: int) returns (index: int)
      ensures index == LastOf(entries, pid, pageno)
    {
      index := -1;
      for i := 0 to |entries|
        invariant index == LastOf(entries[..i], pid, pageno)
      {
        assert entries[..i + 1][..i] == entries[..i];
        if entries[i].pid == pid && entries[i].pageno == pageno { index := i; }
      }
      assert entries[..|entries|] == entries;
    }

    /** Hands out the page, here as its bytes. */
    method ReadPage(pid: int, pageno: int) returns (page: Option<seq<byte>>)
      requires Valid()
      modifies this`entries
      ensures Valid() && (View(), page) == Read(old(View()), pid, pageno)
    {
      if !enabled { return None; }
      ghost var st := View();
      var index := FindLast(pid, pageno);
      if index == -1 { return None; }
      var entry := entries[index];
      assert entry in entries;
      entries := entries[..index] + entries[index + 1..] + [entry];
      SlotFits(entry.slot, |entries|, size);
      page := Some(content[entry.slot * size..entry.slot * size + size]);
      assert forall e :: e in entries ==> e in st.entries;
    }

    method FlushPages()
      requires Valid()
      modifies this`entries
      ensures Valid() && View() == Flushed(old(View()))
    {
      if !enabled { return; }
      ghost var was := entries;
      for i := 0 to |entries|
        invariant |entries| == |was|
        invariant forall j :: 0 <= j < |was| ==>
                    entries[j] == if j < i then Entry(EMPTY, EMPTY, was[j].slot) else was[j]
      {
        entries := entries[i := entries[i].(pid := EMPTY, pageno := EMPTY)];
      }
      assert forall j :: 0 <= j < |was| ==> was[j] in was && entries[j].slot == was[j].slot;
    }
  }
}
