/**
 * The two containers of the first revision. Both keep their elements in a
 * Python list `items`, oldest first; the queue takes from the front and the
 * stack from the back.
 */
module Containers {
  import opened Wrappers
  import opened Lists

  /** A first-in first-out queue; the task list of the first revision. */
  class Queue<T> {
    var items: seq<T>

    constructor ()
      ensures items == []
    {
      items := [];
    }

    /** Holds exactly when nothing is queued. */
    function IsEmpty(): (b: bool)
      reads this
      ensures b <==> Size() == 0
    {
      |items| == 0
    }

    /** The number of queued items. */
    function Size(): (n: nat)
      reads this
      ensures n == |items|
    {
      |items|
    }

    /** Adds item behind every item already queued. */
    method Enqueue(item: T)
      modifies this
      ensures items == old(items) + [item]
    {
      items := items + [item];
    }

    /**
     * Takes the earliest enqueued item; None, with nothing changed, when the
     * queue is empty.
     */
    method Dequeue() returns (r: Option<T>)
      modifies this
      ensures old(items) == [] ==> r == None && items == old(items)
      ensures old(items) != [] ==> r == Some(old(items)[0]) && items == old(items)[1..]
    {
      if IsEmpty() {
        r := None;
      } else {
        r := Some(items[0]);
        items := items[1..];
      }
    }
  }

  /** A last-in first-out stack; the undo and redo histories. */
  class Stack<T> {
    var items: seq<T>

    constructor ()
      ensures items == []
    {
      items := [];
    }

    /** Holds exactly when nothing is stacked. */
    function IsEmpty(): (b: bool)
      reads this
      ensures b <==> Size() == 0
    {
      |items| == 0
    }

    /** The number of stacked items. */
    function Size(): (n: nat)
      reads this
      ensures n == |items|
    {
      |items|
    }

    /** Puts item on top. */
    method Push(item: T)
      modifies this
      ensures items == old(items) + [item]
    {
      items := items + [item];
    }

    /**
     * Takes the most recently pushed item; None, with nothing changed, when
     * the stack is empty.
     */
    method Pop() returns (r: Option<T>)
      modifies this
      ensures old(items) == [] ==> r == None && items == old(items)
      ensures old(items) != [] ==> r == Some(Last(old(items))) && items == Front(old(items))
    {
      if IsEmpty() {
        r := None;
      } else {
        r := Some(Last(items));
        items := Front(items);
      }
    }
  }

  /** What the containers promise a caller, in the order of their calls. */
  method ContainerOrder<T>(x: T, y: T) returns (first: Option<T>, top: Option<T>)
    ensures first == Some(x) && top == Some(y)
  {
    var q := new Queue<T>();
    q.Enqueue(x);
    q.Enqueue(y);
    first := q.Dequeue();
    var s := new Stack<T>();
    s.Push(x);
    s.Push(y);
    top := s.Pop();
  }
}
