// Common/queue.c and Common/stack.c: both hold an mlist; a queue pushes at the
// front and pops at the back, a stack pushes and pops at the back.
module Collections {
  import opened MLists

  class Queue {
    var content: List

    ghost predicate Valid()
      reads this, content, content.repr
    {
      content.Valid()
    }

    /** The elements in order of arrival. */
    ghost function Waiting(): seq<pointer>
      reads this, content
    {
      Reversed(content.elems)
    }

    constructor ()
      ensures Valid() && fresh(content) && fresh(content.repr) && Waiting() == []
    {
      content := new List();
    }

    method Next() returns (element: pointer)
      requires Valid()
      ensures element == if Waiting() == [] then NULL else Waiting()[0]
    {
      element := if content.length == 0 then NULL else content.tail.elem;
    }

    method Push(element: pointer)
      requires Valid()
      modifies content, content.repr
      ensures Valid() && content == old(content) && fresh(content.repr - old(content.repr))
      ensures Waiting() == old(Waiting()) + [element]
    {
      content.Insert(0, element);
    }

    method Pop() returns (element: pointer)
      requires Valid()
      modifies content, content.repr
      ensures Valid() && content == old(content) && content.repr == old(content.repr)
      ensures if old(Waiting()) == [] then element == NULL && Waiting() == []
              else element == old(Waiting())[0] && Waiting() == old(Waiting())[1..]
    {
      element := content.Pop(content.length - 1);
    }
  }

  class Stack {
    var content: List

    ghost predicate Valid()
      reads this, content, content.repr
    {
      content.Valid()
    }

    constructor ()
      ensures Valid() && fresh(content) && fresh(content.repr) && content.elems == []
    {
      content := new List();
    }

    method Top() returns (element: pointer)
      requires Valid()
      ensures element == if content.elems == [] then NULL else content.elems[|content.elems| - 1]
    {
      element := if content.length == 0 then NULL else content.tail.elem;
    }

    method Push(element: pointer)
      requires Valid()
      modifies content, content.repr
      ensures Valid() && content == old(content) && fresh(content.repr - old(content.repr))
      ensures content.elems == old(content.elems) + [element]
    {
      content.Append(element);
    }

    method Pop() returns (element: pointer)
      requires Valid()
      modifies content, content.repr
      ensures Valid() && content == old(content) && content.repr == old(content.repr)
      ensures if old(content.elems) == [] then element == NULL && content.elems == []
              else old(content.elems) == content.elems + [element]
    {
      element := content.Pop(content.length - 1);
    }
  }

  /** The first pushed is the first popped: whatever is pushed through a queue
      comes out in the same order, one pop per push, and leaves it empty. */
  method DrainInOrder(xs: seq<pointer>) returns (ys: seq<pointer>)
    ensures ys == xs
  {
    var queue := new Queue();
    for i := 0 to |xs|
      invariant queue.Valid() && fresh(queue.content) && fresh(queue.content.repr)
      invariant queue.Waiting() == xs[..i]
    {
      queue.Push(xs[i]);
    }
    ys := [];
    for i := 0 to |xs|
      invariant queue.Valid() && fresh(queue.content) && fresh(queue.content.repr)
      invariant ys + queue.Waiting() == xs && |ys| == i
    {
      var y := queue.Pop();
      ys := ys + [y];
    }
  }

  /** A stack hands the elements back in reverse. */
  method UnwindReverses(xs: seq<pointer>) returns (ys: seq<pointer>)
    ensures ys == Reversed(xs)
  {
    var stack := new Stack();
    for i := 0 to |xs|
      invariant stack.Valid() && fresh(stack.content) && fresh(stack.content.repr)
      invariant stack.content.elems == xs[..i]
    {
      stack.Push(xs[i]);
    }
    ys := [];
    for i := 0 to |xs|
      invariant stack.Valid() && fresh(stack.content) && fresh(stack.content.repr)
      invariant stack.content.elems == xs[..|xs| - i] && |ys| == i
      invariant forall j :: 0 <= j < i ==> ys[j] == xs[|xs| - 1 - j]
    {
      var y := stack.Pop();
      ys := ys + [y];
    }
  }
}
