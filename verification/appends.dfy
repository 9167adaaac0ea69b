// Concurrent mlist_append (Common/mlist.c:80-83, 258-274). The caller reads
// list->tail without the lock; insert_after then takes the lock and links the
// new node after that node, which may no longer be the tail. A schedule lists
// those two steps of every call in the order in which they happen.
module Appends {
  import opened MLists

  datatype Event = ReadTail(thread: nat) | LinkNode(thread: nat, element: pointer)

  /** The read that belongs to the insertion at k: the same thread's latest step
      before k, if that is a read; -1 otherwise. */
  function ReadOf(sched: seq<Event>, t: nat, k: nat): (r: int)
    requires k <= |sched|
    ensures -1 <= r < k
    ensures r >= 0 ==> sched[r] == ReadTail(t)
  {
    if k == 0 then -1
    else if sched[k - 1].thread != t then ReadOf(sched, t, k - 1)
    else if sched[k - 1].ReadTail? then k - 1
    else -1
  }

  /** Every insertion is the second half of a call. */
  ghost predicate Proper(sched: seq<Event>) {
    forall k :: 0 <= k < |sched| && sched[k].LinkNode? ==> ReadOf(sched, sched[k].thread, k) >= 0
  }

  /** The list as a sequence of tickets: 0..n-1 are the elements it began with and
      n + k is the one linked by event k. base maps a thread to the ticket it
      read, -1 standing for a NULL tail. */
  datatype Run = Running(order: seq<int>, base: map<nat, int>) | NullBase

  function Start(n: nat): seq<int> { seq(n, i => i) }

  function Find(s: seq<int>, x: int): (i: nat)
    ensures i <= |s| && (i < |s| <==> x in s)
    ensures i < |s| ==> s[i] == x
  {
    if s == [] then 0 else if s[0] == x then 0 else 1 + Find(s[1..], x)
  }

  function Step(st: Run, n: nat, k: nat, e: Event): Run {
    match st
    case NullBase => NullBase
    case Running(order, base) =>
      match e
      case ReadTail(t) => Running(order, base[t := if order == [] then -1 else order[|order| - 1]])
      case LinkNode(t, _) =>
        if order == [] then Running([n + k], base)
        else if t !in base || base[t] !in order then NullBase
        else var i := Find(order, base[t]) + 1; Running(order[..i] + [n + k] + order[i..], base)
  }

  function RunTo(n: nat, sched: seq<Event>, m: nat): Run
    requires m <= |sched|
  {
    if m == 0 then Running(Start(n), map[]) else Step(RunTo(n, sched, m - 1), n, m - 1, sched[m - 1])
  }

  ghost predicate Precedes(s: seq<int>, a: int, b: int) {
    exists i, j :: 0 <= i < j < |s| && s[i] == a && s[j] == b
  }

  ghost predicate Distinct(s: seq<int>) {
    forall i, j :: 0 <= i < j < |s| ==> s[i] != s[j]
  }

  /** The tickets issued by the first m events. */
  ghost predicate Issued(n: nat, sched: seq<Event>, m: nat, x: int) {
    0 <= x < n || (n <= x < n + m && x - n < |sched| && sched[x - n].LinkNode?)
  }

  /** What holds after m events of any proper schedule on a non-empty list. */
  ghost predicate Inv(n: nat, sched: seq<Event>, m: nat, st: Run)
    requires m <= |sched|
  {
    && st.Running? && Distinct(st.order) && Start(n) <= st.order
    && (forall x :: x in st.order <==> Issued(n, sched, m, x))
    && (forall t :: ReadOf(sched, t, m) >= 0 ==> t in st.base && st.base[t] in st.order)
    && (forall t :: ReadOf(sched, t, m) >= 0 ==> AfterAll(n, sched, ReadOf(sched, t, m), st, st.base[t]))
    && RealTime(n, sched, m, st.order)
  }

  /** Every ticket issued by the first r events is at or before the base. */
  ghost predicate AfterAll(n: nat, sched: seq<Event>, r: int, st: Run, base: int)
    requires st.Running?
  {
    forall x :: 0 <= r && Issued(n, sched, r, x) ==> x == base || Precedes(st.order, x, base)
  }

  /** A call that began after another had finished put its element further back. */
  ghost predicate RealTime(n: nat, sched: seq<Event>, m: nat, order: seq<int>)
    requires m <= |sched|
  {
    forall b, x :: 0 <= b < m && sched[b].LinkNode? && Issued(n, sched, Later(sched, b), x) ==>
        Precedes(order, x, n + b)
  }

  ghost function Later(sched: seq<Event>, b: nat): nat
    requires b < |sched|
  {
    var r := ReadOf(sched, sched[b].thread, b);
    if r < 0 then 0 else r
  }

  lemma PrecedesKept(s: seq<int>, i: nat, x: int, a: int, b: int)
    requires i <= |s| && Precedes(s, a, b)
    ensures Precedes(s[..i] + [x] + s[i..], a, b)
  {
    var p, q :| 0 <= p < q < |s| && s[p] == a && s[q] == b;
    var s' := s[..i] + [x] + s[i..];
    var p', q' := if p < i then p else p + 1, if q < i then q else q + 1;
    assert s'[p'] == a && s'[q'] == b;
  }

  /** The new ticket stands right behind its base, so behind all before the base. */
  lemma NewPrecedes(s: seq<int>, x: int, a: int, base: int)
    requires Distinct(s) && base in s && (a == base || Precedes(s, a, base))
    ensures var i := Find(s, base) + 1; Precedes(s[..i] + [x] + s[i..], a, x)
  {
    var i := Find(s, base);
    var s' := s[..i + 1] + [x] + s[i + 1..];
    var p := i;
    if a != base {
      var p', q :| 0 <= p' < q < |s| && s[p'] == a && s[q] == base;
      p := p';
    }
    assert s'[p] == a && s'[i + 1] == x;
  }

  lemma ReadKeepsInv(n: nat, sched: seq<Event>, m: nat, st: Run)
    requires n > 0 && m < |sched| && sched[m].ReadTail? && Inv(n, sched, m, st)
    ensures Inv(n, sched, m + 1, Step(st, n, m, sched[m]))
  {
    var st', t0 := Step(st, n, m, sched[m]), sched[m].thread;
    assert forall x :: Issued(n, sched, m + 1, x) <==> Issued(n, sched, m, x);
    assert 0 in st.order by { assert Issued(n, sched, m, 0); }
    forall t | ReadOf(sched, t, m + 1) >= 0
      ensures t in st'.base && st'.base[t] in st'.order
      ensures AfterAll(n, sched, ReadOf(sched, t, m + 1), st', st'.base[t])
    {
      if t == t0 {
        var last := |st.order| - 1;
        forall x | Issued(n, sched, m, x)
          ensures x == st'.base[t] || Precedes(st.order, x, st'.base[t])
        {
          var i :| 0 <= i < |st.order| && st.order[i] == x;
          if i < last { assert st.order[i] == x && st.order[last] == st'.base[t]; }
        }
      } else {
        assert AfterAll(n, sched, ReadOf(sched, t, m), st, st.base[t]);
      }
    }
  }

  lemma InsertMembers(s: seq<int>, i: nat, x: int)
    requires i <= |s| && Distinct(s) && x !in s
    ensures Distinct(s[..i] + [x] + s[i..])
    ensures forall y :: y in s[..i] + [x] + s[i..] <==> y in s || y == x
  {
    var s' := s[..i] + [x] + s[i..];
    assert forall j :: 0 <= j < |s| ==> s[j] == s'[if j < i then j else j + 1];
    assert s'[i] == x;
  }

  /** The base a thread goes by is never before the last original element. */
  lemma BaseIsFarEnough(n: nat, s: seq<int>, base: int)
    requires 0 < n <= |s| && Start(n) <= s && Distinct(s) && base in s
    requires n - 1 == base || Precedes(s, n - 1, base)
    ensures Find(s, base) + 1 >= n
  {
    assert s[n - 1] == Start(n)[n - 1] == n - 1;
  }

  lemma LinkKeepsRealTime(n: nat, sched: seq<Event>, m: nat, s: seq<int>, base: int)
    requires m < |sched| && sched[m].LinkNode? && RealTime(n, sched, m, s)
    requires Distinct(s) && base in s
    requires forall x :: Issued(n, sched, Later(sched, m), x) ==> x == base || Precedes(s, x, base)
    ensures var i := Find(s, base) + 1; RealTime(n, sched, m + 1, s[..i] + [n + m] + s[i..])
  {
    var i := Find(s, base) + 1;
    forall b, x | 0 <= b < m + 1 && sched[b].LinkNode? && Issued(n, sched, Later(sched, b), x)
      ensures Precedes(s[..i] + [n + m] + s[i..], x, n + b)
    {
      LinkKeepsPair(n, sched, m, s, base, b, x);
    }
  }

  lemma LinkKeepsPair(n: nat, sched: seq<Event>, m: nat, s: seq<int>, base: int, b: nat, x: int)
    requires m < |sched| && Distinct(s) && base in s && b <= m
    requires if b < m then Precedes(s, x, n + b) else x == base || Precedes(s, x, base)
    ensures var i := Find(s, base) + 1; Precedes(s[..i] + [n + m] + s[i..], x, n + b)
  {
    if b < m {
      PrecedesKept(s, Find(s, base) + 1, n + m, x, n + b);
    } else {
      NewPrecedes(s, n + m, x, base);
    }
  }

  lemma AfterAllKept(n: nat, sched: seq<Event>, r: int, st: Run, base: int, i: nat, x: int)
    requires st.Running? && i <= |st.order| && AfterAll(n, sched, r, st, base)
    ensures AfterAll(n, sched, r, Running(st.order[..i] + [x] + st.order[i..], st.base), base)
  {
    forall y | 0 <= r && Issued(n, sched, r, y) && y != base
      ensures Precedes(st.order[..i] + [x] + st.order[i..], y, base)
    {
      PrecedesKept(st.order, i, x, y, base);
    }
  }

  lemma LinkKeepsBases(n: nat, sched: seq<Event>, m: nat, st: Run, i: nat)
    requires m < |sched| && sched[m].LinkNode? && Inv(n, sched, m, st) && i <= |st.order|
    ensures var st' := Running(st.order[..i] + [n + m] + st.order[i..], st.base);
            forall t :: ReadOf(sched, t, m + 1) >= 0 ==> AfterAll(n, sched, ReadOf(sched, t, m + 1), st', st.base[t])
  {
    forall t | ReadOf(sched, t, m + 1) >= 0
      ensures AfterAll(n, sched, ReadOf(sched, t, m + 1), Running(st.order[..i] + [n + m] + st.order[i..], st.base),
              st.base[t])
    {
      AfterAllKept(n, sched, ReadOf(sched, t, m), st, st.base[t], i, n + m);
    }
  }

  lemma LinkKeepsMembers(n: nat, sched: seq<Event>, m: nat, s: seq<int>, i: nat)
    requires m < |sched| && sched[m].LinkNode? && Distinct(s) && Start(n) <= s && n <= i <= |s|
    requires forall x :: x in s <==> Issued(n, sched, m, x)
    ensures var s' := s[..i] + [n + m] + s[i..];
            Distinct(s') && Start(n) <= s' && (forall x :: x in s' <==> Issued(n, sched, m + 1, x))
  {
    var s' := s[..i] + [n + m] + s[i..];
    assert !Issued(n, sched, m, n + m);
    InsertMembers(s, i, n + m);
    assert forall x :: Issued(n, sched, m + 1, x) <==> Issued(n, sched, m, x) || x == n + m;
    assert Start(n) <= s' by { assert s'[..n] == s[..n]; }
  }

  lemma LandsFarEnough(n: nat, sched: seq<Event>, m: nat, st: Run)
    requires n > 0 && m < |sched| && sched[m].LinkNode? && Inv(n, sched, m, st)
    requires ReadOf(sched, sched[m].thread, m) >= 0
    ensures sched[m].thread in st.base
    ensures var base := st.base[sched[m].thread];
            && base in st.order && n <= Find(st.order, base) + 1
            && forall x :: Issued(n, sched, Later(sched, m), x) ==> x == base || Precedes(st.order, x, base)
  {
    var base, r := st.base[sched[m].thread], ReadOf(sched, sched[m].thread, m);
    assert AfterAll(n, sched, r, st, base);
    assert Issued(n, sched, r, n - 1);
    BaseIsFarEnough(n, st.order, base);
  }

  lemma LinkKeepsInv(n: nat, sched: seq<Event>, m: nat, st: Run)
    requires n > 0 && m < |sched| && sched[m].LinkNode? && Inv(n, sched, m, st)
    requires ReadOf(sched, sched[m].thread, m) >= 0
    ensures Inv(n, sched, m + 1, Step(st, n, m, sched[m]))
  {
    var s, base := st.order, st.base[sched[m].thread];
    var i := Find(s, base) + 1;
    LandsFarEnough(n, sched, m, st);
    LinkKeepsMembers(n, sched, m, s, i);
    LinkKeepsBases(n, sched, m, st, i);
    LinkKeepsRealTime(n, sched, m, s, base);
    var st' := Running(s[..i] + [n + m] + s[i..], st.base);
    assert Step(st, n, m, sched[m]) == st';
    forall t | ReadOf(sched, t, m + 1) >= 0 ensures t in st'.base && st'.base[t] in st'.order {
      assert ReadOf(sched, t, m) >= 0;
      assert Issued(n, sched, m, st.base[t]);
    }
  }

  lemma StartInv(n: nat, sched: seq<Event>)
    requires n > 0
    ensures Inv(n, sched, 0, Running(Start(n), map[]))
  {
    forall x ensures x in Start(n) <==> Issued(n, sched, 0, x) {
      if 0 <= x < n { assert Start(n)[x] == x; }
    }
  }

  lemma {:induction false} InvHolds(n: nat, sched: seq<Event>, m: nat)
    requires n > 0 && Proper(sched) && m <= |sched|
    ensures Inv(n, sched, m, RunTo(n, sched, m))
  {
    if m == 0 {
      StartInv(n, sched);
    } else {
      var k, prev := m - 1, RunTo(n, sched, m - 1);
      InvHolds(n, sched, k);
      if sched[k].ReadTail? {
        ReadKeepsInv(n, sched, k, prev);
      } else {
        LinkKeepsInv(n, sched, k, prev);
      }
    }
  }

  // ----- The empty list

  ghost predicate AnyLink(sched: seq<Event>, m: int) {
    exists i :: 0 <= i < m && i < |sched| && sched[i].LinkNode?
  }

  /** The call inserting at k read a NULL tail and then found the list non-empty. */
  ghost predicate StaleNull(sched: seq<Event>, k: nat)
    requires k < |sched|
  {
    sched[k].LinkNode? && AnyLink(sched, k) && !AnyLink(sched, ReadOf(sched, sched[k].thread, k))
  }

  ghost predicate EmptyInv(sched: seq<Event>, m: nat, st: Run)
    requires m <= |sched|
  {
    && (st.NullBase? <==> exists k :: 0 <= k < m && StaleNull(sched, k))
    && (st.Running? ==>
          && (st.order != [] <==> AnyLink(sched, m))
          && (forall x :: x in st.order ==> x >= 0)
          && forall t :: ReadOf(sched, t, m) >= 0 ==> BaseOk(sched, ReadOf(sched, t, m), st, t))
  }

  /** A tail read before the first insertion was NULL, any later one was a node. */
  ghost predicate BaseOk(sched: seq<Event>, r: int, st: Run, t: nat)
    requires st.Running?
  {
    && t in st.base
    && (AnyLink(sched, r) ==> st.base[t] in st.order)
    && (!AnyLink(sched, r) ==> st.base[t] == -1)
  }

  lemma EmptyRead(sched: seq<Event>, k: nat, st: Run)
    requires Proper(sched) && k < |sched| && EmptyInv(sched, k, st) && st.Running? && sched[k].ReadTail?
    ensures EmptyInv(sched, k + 1, Step(st, 0, k, sched[k]))
  {
    var st', t0, m := Step(st, 0, k, sched[k]), sched[k].thread, k + 1;
    assert AnyLink(sched, k + 1) <==> AnyLink(sched, k);
    forall t | ReadOf(sched, t, m) >= 0
      ensures BaseOk(sched, ReadOf(sched, t, m), st', t)
    {
      if t != t0 { assert BaseOk(sched, ReadOf(sched, t, k), st, t); }
    }
  }

  lemma EmptyLink(sched: seq<Event>, k: nat, st: Run)
    requires Proper(sched) && k < |sched| && EmptyInv(sched, k, st) && st.Running? && sched[k].LinkNode?
    ensures EmptyInv(sched, k + 1, Step(st, 0, k, sched[k]))
  {
    var st', t0, m := Step(st, 0, k, sched[k]), sched[k].thread, k + 1;
    assert AnyLink(sched, k + 1);
    assert BaseOk(sched, ReadOf(sched, t0, k), st, t0);
    assert st'.NullBase? <==> StaleNull(sched, k);
    if st'.Running? {
      LinkAddsOne(st, k, sched[k]);
      forall t | ReadOf(sched, t, m) >= 0
        ensures BaseOk(sched, ReadOf(sched, t, m), st', t)
      {
        assert BaseOk(sched, ReadOf(sched, t, k), st, t);
      }
    }
  }

  lemma LinkAddsOne(st: Run, k: nat, e: Event)
    requires st.Running? && e.LinkNode? && Step(st, 0, k, e).Running?
    ensures var st' := Step(st, 0, k, e); st'.base == st.base && forall x :: x in st'.order <==> x in st.order || x == k
  {
    var st' := Step(st, 0, k, e);
    if st.order != [] {
      var i := Find(st.order, st.base[e.thread]) + 1;
      assert forall j :: 0 <= j < |st.order| ==> st.order[j] == st'.order[if j < i then j else j + 1];
      assert st'.order[i] == k;
    }
  }

  /** The only way for an append to go wrong: two threads find the list empty and
      the second one inserts after NULL. Any non-empty list is safe. */
  lemma {:induction false} CrashesExactlyOnStaleNull(n: nat, sched: seq<Event>)
    requires Proper(sched)
    ensures RunTo(n, sched, |sched|).NullBase? <==>
            n == 0 && exists k :: 0 <= k < |sched| && StaleNull(sched, k)
  {
    if n == 0 {
      assert Start(0) == [];
      var m := 0;
      while m < |sched|
        invariant m <= |sched| && EmptyInv(sched, m, RunTo(0, sched, m))
      {
        var st := RunTo(0, sched, m);
        if st.Running? {
          if sched[m].ReadTail? { EmptyRead(sched, m, st); } else { EmptyLink(sched, m, st); }
        }
        m := m + 1;
      }
    } else {
      InvHolds(n, sched, |sched|);
    }
  }

  /** What holds after m events on a list that began empty and did not crash: as for a
      non-empty one, but a thread that read before the first insertion has no node. */
  ghost predicate FirstInv(sched: seq<Event>, m: nat, st: Run)
    requires m <= |sched|
  {
    && st.Running? && Distinct(st.order)
    && (forall x :: x in st.order <==> Issued(0, sched, m, x))
    && (forall t :: ReadOf(sched, t, m) >= 0 ==>
         t in st.base && (st.base[t] in st.order || !AnyLink(sched, ReadOf(sched, t, m))))
    && (forall t :: ReadOf(sched, t, m) >= 0 ==> AfterAll(0, sched, ReadOf(sched, t, m), st, st.base[t]))
    && RealTime(0, sched, m, st.order)
  }

  lemma IssuedMeansLinked(sched: seq<Event>, r: int, x: int)
    requires 0 <= r && Issued(0, sched, r, x)
    ensures AnyLink(sched, r)
  {
    assert sched[x].LinkNode?;
  }

  lemma OrderShowsLinks(sched: seq<Event>, m: nat, order: seq<int>)
    requires m <= |sched| && forall x :: x in order <==> Issued(0, sched, m, x)
    ensures order != [] <==> AnyLink(sched, m)
  {
    if order != [] {
      assert order[0] in order;
      IssuedMeansLinked(sched, m, order[0]);
    }
    if k :| 0 <= k < m && k < |sched| && sched[k].LinkNode? {
      assert Issued(0, sched, m, k);
    }
  }

  /** No ticket was issued by the first r events. */
  ghost predicate Nothing(sched: seq<Event>, r: nat) { forall x :: !Issued(0, sched, r, x) }

  lemma NoneIssued(sched: seq<Event>, r: nat, m: nat)
    requires r <= m && !AnyLink(sched, m)
    ensures !AnyLink(sched, r) && Nothing(sched, r)
  {
    forall x: int ensures !Issued(0, sched, r, x) {
      if Issued(0, sched, r, x) { IssuedMeansLinked(sched, r, x); }
    }
  }

  lemma LastComesLast(s: seq<int>, x: int)
    requires x in s
    ensures x == s[|s| - 1] || Precedes(s, x, s[|s| - 1])
  {
    var i :| 0 <= i < |s| && s[i] == x;
    if i < |s| - 1 { assert s[i] == x && s[|s| - 1] == s[|s| - 1]; }
  }

  lemma ReadKeepsFirstInv(sched: seq<Event>, m: nat, st: Run)
    requires m < |sched| && sched[m].ReadTail? && FirstInv(sched, m, st)
    ensures FirstInv(sched, m + 1, Step(st, 0, m, sched[m]))
  {
    var st', t0 := Step(st, 0, m, sched[m]), sched[m].thread;
    assert forall x :: Issued(0, sched, m + 1, x) <==> Issued(0, sched, m, x);
    forall t | ReadOf(sched, t, m + 1) >= 0
      ensures t in st'.base && (st'.base[t] in st'.order || !AnyLink(sched, ReadOf(sched, t, m + 1)))
      ensures AfterAll(0, sched, ReadOf(sched, t, m + 1), st', st'.base[t])
    {
      if t == t0 {
        forall x | Issued(0, sched, m, x) ensures x == st'.base[t] || Precedes(st.order, x, st'.base[t]) {
          assert x in st.order;
          LastComesLast(st.order, x);
        }
        if AnyLink(sched, m) {
          var k :| 0 <= k < m && k < |sched| && sched[k].LinkNode?;
          assert Issued(0, sched, m, k);
        }
      } else {
        assert AfterAll(0, sched, ReadOf(sched, t, m), st, st.base[t]);
      }
    }
  }

  /** The first insertion of all. */
  lemma FirstLinkKeepsInv(sched: seq<Event>, m: nat, st: Run)
    requires m < |sched| && sched[m].LinkNode? && FirstInv(sched, m, st) && st.order == []
    ensures FirstInv(sched, m + 1, Running([m], st.base))
  {
    OrderShowsLinks(sched, m, st.order);
    NoneIssued(sched, m, m);
    assert Issued(0, sched, m + 1, m);
    assert forall x: int :: x in [m] <==> x == m;
    forall t | ReadOf(sched, t, m + 1) >= 0
      ensures t in st.base && !AnyLink(sched, ReadOf(sched, t, m + 1))
      ensures Nothing(sched, ReadOf(sched, t, m + 1))
    {
      assert ReadOf(sched, t, m) >= 0;
      NoneIssued(sched, ReadOf(sched, t, m), m);
    }
    forall b | 0 <= b < m + 1 && sched[b].LinkNode? ensures Nothing(sched, Later(sched, b)) {
      NoneIssued(sched, Later(sched, b), m);
    }
  }

  lemma LaterLinkKeepsInv(sched: seq<Event>, m: nat, st: Run)
    requires m < |sched| && sched[m].LinkNode? && FirstInv(sched, m, st) && st.order != []
    requires ReadOf(sched, sched[m].thread, m) >= 0 && st.base[sched[m].thread] in st.order
    ensures FirstInv(sched, m + 1, Step(st, 0, m, sched[m]))
  {
    LandsBehind(sched, m, st);
    LinkedKeepsFirstInv(sched, m, st, st.base[sched[m].thread]);
    LinkStep(st, m, sched[m]);
  }

  lemma LinkStep(st: Run, m: nat, e: Event)
    requires st.Running? && e.LinkNode? && e.thread in st.base && st.base[e.thread] in st.order
    ensures var i := Find(st.order, st.base[e.thread]) + 1;
            Step(st, 0, m, e) == Running(st.order[..i] + [0 + m] + st.order[i..], st.base)
  {
  }

  lemma LinkedKeepsFirstInv(sched: seq<Event>, m: nat, st: Run, base: int)
    requires m < |sched| && sched[m].LinkNode? && FirstInv(sched, m, st) && base in st.order
    requires forall x :: Issued(0, sched, Later(sched, m), x) ==> x == base || Precedes(st.order, x, base)
    ensures var i := Find(st.order, base) + 1;
            FirstInv(sched, m + 1, Running(st.order[..i] + [0 + m] + st.order[i..], st.base))
  {
    var i := Find(st.order, base) + 1;
    LinkKeepsMembers(0, sched, m, st.order, i);
    LinkKeepsRealTime(0, sched, m, st.order, base);
    LaterLinkKeepsBases(sched, m, st, i);
  }

  lemma LandsBehind(sched: seq<Event>, m: nat, st: Run)
    requires m < |sched| && sched[m].LinkNode? && FirstInv(sched, m, st)
    requires ReadOf(sched, sched[m].thread, m) >= 0
    ensures sched[m].thread in st.base
    ensures var base := st.base[sched[m].thread];
            forall x :: Issued(0, sched, Later(sched, m), x) ==> x == base || Precedes(st.order, x, base)
  {
    assert AfterAll(0, sched, ReadOf(sched, sched[m].thread, m), st, st.base[sched[m].thread]);
  }

  lemma LaterLinkKeepsBases(sched: seq<Event>, m: nat, st: Run, i: nat)
    requires m < |sched| && sched[m].LinkNode? && FirstInv(sched, m, st) && i <= |st.order|
    ensures var st' := Running(st.order[..i] + [0 + m] + st.order[i..], st.base);
            forall t :: ReadOf(sched, t, m + 1) >= 0 ==>
              && t in st.base && (st.base[t] in st'.order || !AnyLink(sched, ReadOf(sched, t, m + 1)))
              && AfterAll(0, sched, ReadOf(sched, t, m + 1), st', st.base[t])
  {
    var order' := st.order[..i] + [0 + m] + st.order[i..];
    assert forall x :: x in st.order ==> x in order' by {
      assert forall j :: 0 <= j < |st.order| ==> st.order[j] == order'[if j < i then j else j + 1];
    }
    forall t | ReadOf(sched, t, m + 1) >= 0
      ensures t in st.base && (st.base[t] in order' || !AnyLink(sched, ReadOf(sched, t, m + 1)))
      ensures AfterAll(0, sched, ReadOf(sched, t, m + 1), Running(order', st.base), st.base[t])
    {
      assert ReadOf(sched, t, m) >= 0;
      AfterAllKept(0, sched, ReadOf(sched, t, m), st, st.base[t], i, 0 + m);
    }
  }

  lemma {:induction false} FirstInvHolds(sched: seq<Event>, m: nat)
    requires Proper(sched) && m <= |sched| && RunTo(0, sched, m).Running?
    ensures FirstInv(sched, m, RunTo(0, sched, m))
  {
    if m == 0 {
      assert Start(0) == [];
    } else {
      var k, prev := m - 1, RunTo(0, sched, m - 1);
      FirstInvHolds(sched, k);
      if sched[k].ReadTail? {
        ReadKeepsFirstInv(sched, k, prev);
      } else if prev.order == [] {
        FirstLinkKeepsInv(sched, k, prev);
      } else {
        LaterLinkKeepsInv(sched, k, prev);
      }
    }
  }

  /** What is common to both cases: who is in the list, and in which order. */
  lemma MembersAndOrder(n: nat, sched: seq<Event>)
    requires Proper(sched) && RunTo(n, sched, |sched|).Running?
    ensures var s := RunTo(n, sched, |sched|).order;
            && Distinct(s) && Start(n) <= s && RealTime(n, sched, |sched|, s)
            && forall x :: x in s <==> Issued(n, sched, |sched|, x)
  {
    if n > 0 {
      InvHolds(n, sched, |sched|);
    } else {
      FirstInvHolds(sched, |sched|);
      assert Start(0) == [];
    }
  }

  /** Any interleaving of appends, to a list with n elements or to an empty one when no
      thread inserts after a NULL it read too early: the old elements stay in front in
      their order, exactly one ticket is issued per insertion, and a call that starts
      after another one finished ends up behind it. */
  lemma AppendsAreLinearizable(n: nat, sched: seq<Event>)
    requires Proper(sched) && (n == 0 ==> forall k :: 0 <= k < |sched| ==> !StaleNull(sched, k))
    ensures var run := RunTo(n, sched, |sched|);
            && run.Running? && Distinct(run.order) && Start(n) <= run.order
            && (forall k :: 0 <= k < |sched| ==> (sched[k].LinkNode? <==> n + k in run.order))
            && (forall x :: x in run.order ==> 0 <= x < n + |sched|)
            && forall a, b | 0 <= a < b < |sched| && sched[a].LinkNode? && sched[b].LinkNode?
                             && a < ReadOf(sched, sched[b].thread, b) :: Precedes(run.order, n + a, n + b)
  {
    CrashesExactlyOnStaleNull(n, sched);
    MembersAndOrder(n, sched);
    var run := RunTo(n, sched, |sched|);
    forall k | 0 <= k < |sched|
      ensures sched[k].LinkNode? <==> n + k in run.order
    {
      assert n + k in run.order <==> Issued(n, sched, |sched|, n + k);
    }
    forall a, b | 0 <= a < b < |sched| && sched[a].LinkNode? && sched[b].LinkNode?
                  && a < ReadOf(sched, sched[b].thread, b)
      ensures Precedes(run.order, n + a, n + b)
    {
      assert Issued(n, sched, Later(sched, b), n + a);
    }
  }

  lemma TwoFirstAppendsCrash()
    ensures var sched := [ReadTail(1), ReadTail(2), LinkNode(1, 10), LinkNode(2, 20)];
            Proper(sched) && RunTo(0, sched, 4) == NullBase
  {
    var sched := [ReadTail(1), ReadTail(2), LinkNode(1, 10), LinkNode(2, 20)];
    assert Start(0) == [];
    assert RunTo(0, sched, 2) == Running([], map[1 := -1, 2 := -1]);
    assert RunTo(0, sched, 3) == Running([2], map[1 := -1, 2 := -1]);
  }

  // ----- The heap

  ghost predicate Tickets(n: nat, sched: seq<Event>, m: nat, order: seq<int>) {
    Distinct(order) && forall x :: x in order ==> Issued(n, sched, m, x)
  }

  function ElementOf(was: seq<pointer>, sched: seq<Event>, x: int): pointer
    requires 0 <= x < |was| || (|was| <= x < |was| + |sched| && sched[x - |was|].LinkNode?)
  {
    if x < |was| then was[x] else sched[x - |was|].element
  }

  /** The elements that a sequence of tickets stands for. */
  ghost function Shown(was: seq<pointer>, sched: seq<Event>, order: seq<int>): (elems: seq<pointer>)
    requires Tickets(|was|, sched, |sched|, order)
    ensures |elems| == |order|
  {
    seq(|order|, i requires 0 <= i < |order| => assert order[i] in order; ElementOf(was, sched, order[i]))
  }

  /** Tickets and nodes side by side. */
  ghost predicate Mirrors(nodes: seq<Node>, elems: seq<pointer>, was: seq<pointer>, sched: seq<Event>, m: nat,
                          st: Run, bases: map<nat, Node?>)
    requires m <= |sched|
  {
    && st.Running? && Tickets(|was|, sched, m, st.order)
    && |nodes| == |st.order| && elems == Shown(was, sched, st.order)
    && (forall t :: ReadOf(sched, t, m) >= 0 ==> t in st.base)
    && (forall t :: t in st.base ==> t in bases && (st.base[t] == -1 || st.base[t] in st.order))
    && (forall t :: t in st.base ==> bases[t] == NodeOf(nodes, st.order, st.base[t]))
  }

  ghost function NodeOf(nodes: seq<Node>, order: seq<int>, ticket: int): Node?
    requires |nodes| == |order|
  {
    if ticket in order then nodes[Find(order, ticket)] else null
  }

  lemma FindDistinct(s: seq<int>, i: nat)
    requires i < |s| && Distinct(s)
    ensures Find(s, s[i]) == i
  {
  }

  lemma FindInserted(s: seq<int>, i: nat, x: int, y: int)
    requires i <= |s| && Distinct(s) && x !in s && y in s
    ensures var s' := s[..i] + [x] + s[i..];
            Distinct(s') && y in s' && Find(s', y) == if Find(s, y) < i then Find(s, y) else Find(s, y) + 1
  {
    InsertMembers(s, i, x);
    var s' := s[..i] + [x] + s[i..];
    FindDistinct(s', if Find(s, y) < i then Find(s, y) else Find(s, y) + 1);
  }

  lemma ReadMirrors(nodes: seq<Node>, elems: seq<pointer>, was: seq<pointer>, sched: seq<Event>, m: nat,
                    st: Run, bases: map<nat, Node?>)
    requires m < |sched| && sched[m].ReadTail? && Mirrors(nodes, elems, was, sched, m, st, bases)
    ensures Mirrors(nodes, elems, was, sched, m + 1, Step(st, |was|, m, sched[m]),
                    bases[sched[m].thread := if nodes == [] then null else nodes[|nodes| - 1]])
  {
    if st.order != [] { FindDistinct(st.order, |st.order| - 1); }
    assert forall x :: Issued(|was|, sched, m, x) ==> Issued(|was|, sched, m + 1, x);
  }

  /** Where the new node lands: at position i, its base being the node before. */
  ghost function Landing(n: nat, st: Run, t: nat): (i: nat)
    requires st.Running? && (st.order == [] || t in st.base)
  {
    if st.order == [] then 0 else if st.base[t] in st.order then Find(st.order, st.base[t]) + 1 else 0
  }

  lemma ShownInserted(was: seq<pointer>, sched: seq<Event>, m: nat, s: seq<int>, i: nat)
    requires m < |sched| && sched[m].LinkNode? && i <= |s| && Tickets(|was|, sched, m, s)
    ensures var s' := s[..i] + [|was| + m] + s[i..];
            Tickets(|was|, sched, m + 1, s') &&
            Shown(was, sched, s') == Shown(was, sched, s)[..i] + [sched[m].element] + Shown(was, sched, s)[i..]
  {
    assert |was| + m !in s by { assert !Issued(|was|, sched, m, |was| + m); }
    InsertMembers(s, i, |was| + m);
  }

  lemma NodeOfInserted(nodes: seq<Node>, s: seq<int>, i: nat, x: int, node: Node, y: int)
    requires |nodes| == |s| && i <= |s| && Distinct(s) && x !in s && y != x
    ensures NodeOf(nodes[..i] + [node] + nodes[i..], s[..i] + [x] + s[i..], y) == NodeOf(nodes, s, y)
  {
    InsertMembers(s, i, x);
    if y in s { FindInserted(s, i, x, y); }
  }

  lemma LinkMirrors(nodes: seq<Node>, elems: seq<pointer>, was: seq<pointer>, sched: seq<Event>, m: nat,
                    st: Run, bases: map<nat, Node?>, node: Node, i: nat)
    requires m < |sched| && sched[m].LinkNode? && Mirrors(nodes, elems, was, sched, m, st, bases)
    requires Step(st, |was|, m, sched[m]).Running?
    requires i == Landing(|was|, st, sched[m].thread)
    ensures Mirrors(nodes[..i] + [node] + nodes[i..], elems[..i] + [sched[m].element] + elems[i..], was, sched, m + 1,
                    Step(st, |was|, m, sched[m]), bases)
  {
    var x, s := |was| + m, st.order;
    var st' := Running(s[..i] + [x] + s[i..], st.base);
    assert Step(st, |was|, m, sched[m]) == st';
    assert x !in s by { assert !Issued(|was|, sched, m, x); }
    InsertMembers(s, i, x);
    ShownInserted(was, sched, m, s, i);
    forall t | t in st.base
      ensures bases[t] == NodeOf(nodes[..i] + [node] + nodes[i..], st'.order, st.base[t])
    {
      assert st.base[t] != x;
      NodeOfInserted(nodes, s, i, x, node, st.base[t]);
    }
    forall t | ReadOf(sched, t, m + 1) >= 0 ensures t in st.base {
      assert ReadOf(sched, t, m) >= 0;
    }
  }

  /** The pointer a thread holds tells the step's outcome and the landing place. */
  lemma BaseDecides(nodes: seq<Node>, elems: seq<pointer>, was: seq<pointer>, sched: seq<Event>, m: nat,
                    st: Run, bases: map<nat, Node?>)
    requires m < |sched| && sched[m].LinkNode? && Mirrors(nodes, elems, was, sched, m, st, bases) && Proper(sched)
    ensures var t, i := sched[m].thread, Landing(|was|, st, sched[m].thread);
            && t in bases
            && (Step(st, |was|, m, sched[m]).NullBase? <==> nodes != [] && bases[t] == null)
            && (nodes == [] ==> i == 0)
            && (nodes != [] && bases[t] != null ==> 0 < i <= |nodes| && bases[t] == nodes[i - 1])
  {
    assert ReadOf(sched, sched[m].thread, m) >= 0;
  }

  /** insert_after as the thread of event m calls it: crashes on a NULL base unless
      the list is empty. */
  method FinishAppend(list: List, bases: map<nat, Node?>, sched: seq<Event>, m: nat, ghost was: seq<pointer>,
                      ghost st: Run)
    returns (crashed: bool)
    requires m < |sched| && sched[m].LinkNode? && Proper(sched)
    requires list.Valid() && Mirrors(list.nodes, list.elems, was, sched, m, st, bases)
    modifies list, list.repr
    ensures crashed <==> Step(st, |was|, m, sched[m]).NullBase?
    ensures list.Valid() && fresh(list.repr - old(list.repr))
    ensures !crashed ==> Mirrors(list.nodes, list.elems, was, sched, m + 1, Step(st, |was|, m, sched[m]), bases)
  {
    var node := new Node(sched[m].element);
    BaseDecides(list.nodes, list.elems, was, sched, m, st, bases);
    if list.length != 0 && bases[sched[m].thread] == null { return true; }
    ghost var i := Landing(|was|, st, sched[m].thread);
    LinkMirrors(list.nodes, list.elems, was, sched, m, st, bases, node, i);
    list.InsertAfter(bases[sched[m].thread], node, i);
    return false;
  }

  /** The schedule carried out on a list object, each thread keeping a node pointer
      from its read to its insertion: the tickets tell exactly what comes out. */
  method RunAppends(list: List, sched: seq<Event>) returns (crashed: bool)
    requires list.Valid() && Proper(sched)
    modifies list, list.repr
    ensures crashed <==> RunTo(|old(list.elems)|, sched, |sched|).NullBase?
    ensures !crashed ==> var order := RunTo(|old(list.elems)|, sched, |sched|).order;
              && list.Valid() && Tickets(|old(list.elems)|, sched, |sched|, order)
              && list.elems == Shown(old(list.elems), sched, order)
  {
    ghost var was, n := list.elems, |list.elems|;
    var bases: map<nat, Node?> := map[];
    StartMirrors(list.nodes, was, sched);
    for m := 0 to |sched|
      invariant list.Valid() && fresh(list.repr - old(list.repr))
      invariant Mirrors(list.nodes, list.elems, was, sched, m, RunTo(n, sched, m), bases)
    {
      ghost var st := RunTo(n, sched, m);
      assert RunTo(n, sched, m + 1) == Step(st, n, m, sched[m]);
      if sched[m].ReadTail? {
        ReadMirrors(list.nodes, list.elems, was, sched, m, st, bases);
        bases := bases[sched[m].thread := list.tail];
      } else {
        var stale := FinishAppend(list, bases, sched, m, was, st);
        if stale {
          NullForever(n, sched, m + 1, |sched|);
          return true;
        }
      }
    }
    return false;
  }

  lemma StartMirrors(nodes: seq<Node>, was: seq<pointer>, sched: seq<Event>)
    requires |nodes| == |was|
    ensures Mirrors(nodes, was, was, sched, 0, RunTo(|was|, sched, 0), map[])
  {
  }

  lemma {:induction false} NullForever(n: nat, sched: seq<Event>, m: nat, k: nat)
    requires m <= k <= |sched| && RunTo(n, sched, m).NullBase?
    ensures RunTo(n, sched, k).NullBase?
  {
    if m < k { NullForever(n, sched, m, k - 1); }
  }
}
