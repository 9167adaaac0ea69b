// Common/mlist.c: a doubly linked list over heap nodes, proved to implement
// the sequence of its elements. The per-list mutex is taken around each
// relinking step; appends.dfy treats what happens between those steps.
module MLists {

  /** A void pointer: the list never looks behind it. */
  type pointer = nat

  const NULL: pointer := 0

  class Node {
    var prev: Node?
    var next: Node?
    var elem: pointer

    constructor (element: pointer)
      ensures prev == null && next == null && elem == element
    {
      prev, next, elem := null, null, element;
    }
  }

  /** The elements that satisfy the condition, in order. */
  function Matching(s: seq<pointer>, cond: pointer -> bool): (r: seq<pointer>)
    ensures forall x :: x in r <==> x in s && cond(x)
    ensures |r| <= |s|
  {
    if s == [] then []
    else if cond(s[0]) then [s[0]] + Matching(s[1..], cond)
    else Matching(s[1..], cond)
  }

  function Not(cond: pointer -> bool): pointer -> bool {
    (x: pointer) => !cond(x)
  }

  /** The two piles a left-to-right walk builds: elements kept, elements deleted. */
  ghost function Sweep(kept: seq<pointer>, gone: seq<pointer>, todo: seq<pointer>, cond: pointer -> bool)
    : (seq<pointer>, seq<pointer>)
    decreases |todo|
  {
    if todo == [] then (kept, gone)
    else if cond(todo[0]) then Sweep(kept, gone + [todo[0]], todo[1..], cond)
    else Sweep(kept + [todo[0]], gone, todo[1..], cond)
  }

  lemma {:induction false} SweepMatches(kept: seq<pointer>, gone: seq<pointer>, todo: seq<pointer>,
                                        cond: pointer -> bool)
    ensures Sweep(kept, gone, todo, cond) == (kept + Matching(todo, Not(cond)), gone + Matching(todo, cond))
    decreases |todo|
  {
    if todo == [] {
      assert kept + [] == kept && gone + [] == gone;
    } else if cond(todo[0]) {
      SweepMatches(kept, gone + [todo[0]], todo[1..], cond);
      assert (gone + [todo[0]]) + Matching(todo[1..], cond) == gone + Matching(todo, cond);
      assert Matching(todo, Not(cond)) == Matching(todo[1..], Not(cond));
    } else {
      SweepMatches(kept + [todo[0]], gone, todo[1..], cond);
      assert Matching(todo, cond) == Matching(todo[1..], cond);
      assert (kept + [todo[0]]) + Matching(todo[1..], Not(cond)) == kept + Matching(todo, Not(cond));
    }
  }

  lemma SplitHead(kept: seq<pointer>, todo: seq<pointer>)
    requires todo != []
    ensures (kept + todo)[|kept|] == todo[0]
    ensures kept + todo == (kept + [todo[0]]) + todo[1..]
    ensures (kept + todo)[..|kept|] + (kept + todo)[|kept| + 1..] == kept + todo[1..]
  {
  }

  /** Matching and non-matching elements partition the list. */
  lemma {:induction false} MatchingPartitions(s: seq<pointer>, cond: pointer -> bool)
    ensures multiset(Matching(s, cond)) + multiset(Matching(s, Not(cond))) == multiset(s)
    ensures |Matching(s, cond)| + |Matching(s, Not(cond))| == |s|
  {
    if s != [] {
      MatchingPartitions(s[1..], cond);
      assert s == [s[0]] + s[1..];
    }
  }

  function Reversed(s: seq<pointer>): (r: seq<pointer>)
    ensures |r| == |s|
    ensures forall i :: 0 <= i < |s| ==> r[i] == s[|s| - 1 - i]
  {
    seq(|s|, i requires 0 <= i < |s| => s[|s| - 1 - i])
  }

  class List {
    var head: Node?
    var tail: Node?
    var length: int
    ghost var nodes: seq<Node>     // the nodes in order
    ghost var elems: seq<pointer>  // the sequence this list stands for
    ghost var repr: set<Node>      // every node ever linked into it

    /** head and tail are the ends, length counts the nodes, and every node's two
        links lead to its neighbours. */
    ghost predicate Linked()
      reads this, repr
    {
      && length == |nodes| && (forall i :: 0 <= i < |nodes| ==> nodes[i] in repr)
      && head == (if nodes == [] then null else nodes[0])
      && tail == (if nodes == [] then null else nodes[|nodes| - 1])
      && (forall i, j :: 0 <= i < j < |nodes| ==> nodes[i] != nodes[j])
      && (nodes != [] ==> nodes[0].prev == null && nodes[|nodes| - 1].next == null)
      && (forall i {:trigger nodes[i].prev} :: 0 < i < |nodes| ==> nodes[i].prev == nodes[i - 1])
      && (forall i {:trigger nodes[i].next} :: 0 <= i < |nodes| - 1 ==> nodes[i].next == nodes[i + 1])
    }

    ghost predicate Valid()
      reads this, repr
    {
      && Linked()
      && |elems| == |nodes|
      && forall i {:trigger nodes[i].elem} {:trigger elems[i]} :: 0 <= i < |nodes| ==> nodes[i].elem == elems[i]
    }

    constructor ()
      ensures Valid() && elems == [] && repr == {}
    {
      head, tail, length, nodes, elems, repr := null, null, 0, [], [], {};
    }

    method LinkBefore(base: Node?, node: Node, ghost k: nat)
      requires Linked() && node !in repr && node.prev == null && node.next == null
      requires if nodes == [] then k == 0 else k < |nodes| && base == nodes[k]
      modifies this, repr, node
      ensures Linked() && nodes == old(nodes)[..k] + [node] + old(nodes)[k..] && repr == old(repr) + {node}
      ensures elems == old(elems) && node.elem == old(node.elem)
      ensures forall n :: n in old(repr) ==> n.elem == old(n.elem)
    {
      if length == 0 {
        head, tail := node, node;
      } else {
        node.prev := base.prev;
        node.next := base;
        base.prev := node;
        if node.prev != null {
          node.prev.next := node;
        } else {
          head := node;
        }
      }
      length := length + 1;
      nodes, repr := nodes[..k] + [node] + nodes[k..], repr + {node};
    }

    /** The new node lands at position k, right after the base; on an empty list the
        base is not looked at. */
    method LinkAfter(base: Node?, node: Node, ghost k: nat)
      requires Linked() && node !in repr && node.prev == null && node.next == null
      requires if nodes == [] then k == 0 else 0 < k <= |nodes| && base == nodes[k - 1]
      modifies this, repr, node
      ensures Linked() && nodes == old(nodes)[..k] + [node] + old(nodes)[k..] && repr == old(repr) + {node}
      ensures elems == old(elems) && node.elem == old(node.elem)
      ensures forall n :: n in old(repr) ==> n.elem == old(n.elem)
    {
      if length == 0 {
        head, tail := node, node;
      } else {
        node.next := base.next;
        node.prev := base;
        base.next := node;
        if node.next != null {
          node.next.prev := node;
        } else {
          tail := node;
        }
      }
      length := length + 1;
      nodes, repr := nodes[..k] + [node] + nodes[k..], repr + {node};
    }

    method Unlink(node: Node, ghost k: nat) returns (element: pointer)
      requires Linked() && k < |nodes| && node == nodes[k]
      modifies this, repr
      ensures Linked() && nodes == old(nodes)[..k] + old(nodes)[k + 1..] && repr == old(repr)
      ensures elems == old(elems) && element == old(node.elem)
      ensures forall n :: n in old(repr) ==> n.elem == old(n.elem)
    {
      if node.prev != null { node.prev.next := node.next; }
      if node.next != null { node.next.prev := node.prev; }
      if node == head { head := node.next; }
      if node == tail { tail := node.prev; }
      length := length - 1;
      element := node.elem;
      nodes := nodes[..k] + nodes[k + 1..];
    }

    method InsertBefore(base: Node?, node: Node, ghost k: nat)
      requires Valid() && node !in repr && node.prev == null && node.next == null
      requires if nodes == [] then k == 0 else k < |nodes| && base == nodes[k]
      modifies this, repr, node
      ensures Valid() && nodes == old(nodes)[..k] + [node] + old(nodes)[k..] && repr == old(repr) + {node}
      ensures elems == old(elems)[..k] + [old(node.elem)] + old(elems)[k..]
    {
      LinkBefore(base, node, k);
      elems := elems[..k] + [node.elem] + elems[k..];
    }

    method InsertAfter(base: Node?, node: Node, ghost k: nat)
      requires Valid() && node !in repr && node.prev == null && node.next == null
      requires if nodes == [] then k == 0 else 0 < k <= |nodes| && base == nodes[k - 1]
      modifies this, repr, node
      ensures Valid() && nodes == old(nodes)[..k] + [node] + old(nodes)[k..] && repr == old(repr) + {node}
      ensures elems == old(elems)[..k] + [old(node.elem)] + old(elems)[k..]
    {
      LinkAfter(base, node, k);
      elems := elems[..k] + [node.elem] + elems[k..];
    }

    method RemoveNode(node: Node, ghost k: nat) returns (element: pointer)
      requires Valid() && k < |nodes| && node == nodes[k]
      modifies this, repr
      ensures Valid() && nodes == old(nodes)[..k] + old(nodes)[k + 1..] && repr == old(repr)
      ensures element == old(elems)[k] && elems == old(elems)[..k] + old(elems)[k + 1..]
    {
      element := Unlink(node, k);
      elems := elems[..k] + elems[k + 1..];
    }

    /** Walks from the nearer end. */
    method GetNode(index: int) returns (node: Node?)
      requires Valid()
      ensures node == if 0 <= index < |nodes| then nodes[index] else null
    {
      if index < 0 || index >= length {
        return null;
      }
      var i := index;
      if i <= length / 2 {
        node := head;
        while i > 0
          invariant 0 <= i <= index && node == nodes[index - i]
        {
          node, i := node.next, i - 1;
        }
      } else {
        node := tail;
        i := i + 1;
        while i < length
          invariant index < i <= length && node == nodes[length - 1 - (i - (index + 1))]
        {
          node, i := node.prev, i + 1;
        }
      }
    }

    method Append(element: pointer)
      requires Valid()
      modifies this, repr
      ensures Valid() && elems == old(elems) + [element]
      ensures fresh(repr - old(repr))
    {
      var node := new Node(element);
      InsertAfter(tail, node, |nodes|);
    }

    method Insert(index: int, element: pointer)
      requires Valid()
      modifies this, repr
      ensures Valid()
      ensures elems == if 0 <= index <= |old(elems)|
                         then old(elems)[..index] + [element] + old(elems)[index..] else old(elems)
      ensures fresh(repr - old(repr))
    {
      if index < 0 || index > length { return; }
      var node := new Node(element);
      if index < length {
        var base := head;
        if index != 0 { base := GetNode(index); }
        InsertBefore(base, node, index);
      } else {
        InsertAfter(tail, node, |nodes|);
      }
    }

    method Pop(index: int) returns (element: pointer)
      requires Valid()
      modifies this, repr
      ensures Valid() && repr == old(repr)
      ensures if 0 <= index < |old(elems)|
              then element == old(elems)[index] && elems == old(elems)[..index] + old(elems)[index + 1..]
              else element == NULL && elems == old(elems)
    {
      var node := GetNode(index);
      if node == null { return NULL; }
      element := RemoveNode(node, index);
    }

    method Get(index: int) returns (element: pointer)
      requires Valid()
      ensures element == if 0 <= index < |elems| then elems[index] else NULL
    {
      var node := GetNode(index);
      element := if node == null then NULL else node.elem;
    }

    method Replace(index: int, element: pointer) returns (previous: pointer)
      requires Valid()
      modifies this`elems, repr
      ensures Valid() && nodes == old(nodes)
      ensures if 0 <= index < |old(elems)|
              then previous == old(elems)[index] && elems == old(elems)[index := element]
              else previous == NULL && elems == old(elems)
    {
      var node := GetNode(index);
      if node == null { return NULL; }
      previous := node.elem;
      node.elem := element;
      elems := elems[index := element];
    }

    /** First match, or NULL; a NULL element that matches is reported the same way. */
    method Find(cond: pointer -> bool) returns (element: pointer)
      requires Valid()
      ensures element == if Matching(elems, cond) == [] then NULL else Matching(elems, cond)[0]
    {
      var node := head;
      ghost var i := 0;
      assert elems[0..] == elems;
      while node != null && !cond(node.elem)
        invariant 0 <= i <= |nodes| && node == if i < |nodes| then nodes[i] else null
        invariant Matching(elems[i..], cond) == Matching(elems, cond)
        decreases |nodes| - i
      {
        assert elems[i..][1..] == elems[i + 1..];
        node, i := node.next, i + 1;
      }
      element := if node == null then NULL else node.elem;
    }

    method Index(cond: pointer -> bool) returns (index: int)
      requires Valid()
      ensures -1 <= index < |elems|
      ensures index == -1 ==> forall i :: 0 <= i < |elems| ==> !cond(elems[i])
      ensures index >= 0 ==> cond(elems[index]) && forall i :: 0 <= i < index ==> !cond(elems[i])
    {
      index := 0;
      var node := head;
      while node != null && !cond(node.elem)
        invariant 0 <= index <= |nodes| && node == if index < |nodes| then nodes[index] else null
        invariant forall i :: 0 <= i < index ==> !cond(nodes[i].elem)
        decreases |nodes| - index
      {
        node, index := node.next, index + 1;
      }
      if index >= length { index := -1; }
    }

    /** One node of a deleting walk; next is where the walk goes on. */
    method Pass(node: Node, matches: bool, ghost kept: seq<pointer>, ghost todo: seq<pointer>) returns (next: Node?)
      requires Valid() && elems == kept + todo && todo != [] && node == nodes[|kept|]
      modifies this, repr
      ensures Valid() && repr == old(repr) && elems == (if matches then kept else kept + [todo[0]]) + todo[1..]
      ensures next == if |todo| == 1 then null else nodes[if matches then |kept| else |kept| + 1]
    {
      next := node.next;
      SplitHead(kept, todo);
      if matches { var _ := RemoveNode(node, |kept|); }
    }

    /** Deletes every match while walking. The destroyer is called on each match just
        before its node goes; destroyed records those calls. */
    method Remove(cond: pointer -> bool) returns (last: pointer, destroyed: seq<pointer>)
      requires Valid()
      modifies this, repr
      ensures Valid() && repr == old(repr)
      ensures elems == Matching(old(elems), Not(cond))
      ensures destroyed == Matching(old(elems), cond)
      ensures last == if destroyed == [] then NULL else destroyed[|destroyed| - 1]
    {
      last, destroyed := NULL, [];
      var node := head;
      ghost var kept, todo := [], elems;
      while node != null
        invariant Valid() && repr == old(repr) && elems == kept + todo
        invariant node == if todo != [] then nodes[|kept|] else null
        invariant Sweep(kept, destroyed, todo, cond) == Sweep([], [], old(elems), cond)
        invariant last == if destroyed == [] then NULL else destroyed[|destroyed| - 1]
        decreases |todo|
      {
        var matches := cond(node.elem);
        if matches {
          destroyed := destroyed + [node.elem];
          last := node.elem;
        }
        node := Pass(node, matches, kept, todo);
        if !matches { kept := kept + [todo[0]]; }
        todo := todo[1..];
      }
      SweepMatches([], [], old(elems), cond);
    }

    /** A new list, filled while walking from the tail. */
    method Reverse() returns (reversed: List)
      requires Valid()
      ensures reversed.Valid() && fresh(reversed) && fresh(reversed.repr)
      ensures reversed.elems == Reversed(elems)
    {
      reversed := new List();
      var node := tail;
      ghost var left := |nodes|;
      while node != null
        invariant Valid() && reversed.Valid() && fresh(reversed) && fresh(reversed.repr)
        invariant 0 <= left <= |nodes| && node == if left > 0 then nodes[left - 1] else null
        invariant |reversed.elems| == |nodes| - left
        invariant forall i :: 0 <= i < |nodes| - left ==> reversed.elems[i] == elems[|nodes| - 1 - i]
        decreases left
      {
        reversed.Append(node.elem);
        node, left := node.prev, left - 1;
      }
    }

    /** Each element goes to the destroyer, in order, and each node is freed once, after
        the next one has been read from it. */
    method Clear() returns (destroyed: seq<pointer>, freed: seq<Node>)
      requires Valid()
      modifies this
      ensures Valid() && elems == []
      ensures destroyed == old(elems) && freed == old(nodes)
      ensures forall i, j :: 0 <= i < j < |freed| ==> freed[i] != freed[j]
    {
      destroyed, freed := [], [];
      var node := head;
      while node != null
        invariant Valid() && |freed| <= |nodes| && node == if |freed| < |nodes| then nodes[|freed|] else null
        invariant freed == nodes[..|freed|] && destroyed == elems[..|freed|]
        decreases |nodes| - |freed|
      {
        assert node !in freed;
        var next := node.next;
        destroyed, freed := destroyed + [node.elem], freed + [node];
        node := next;
      }
      head, tail, length, nodes, elems, repr := null, null, 0, [], [], {};
    }
  }
}
