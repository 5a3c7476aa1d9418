/**
 * The Python list operations the task engine relies on, on sequences:
 * searching for an element, `list.remove` and the ends of a list that
 * `append`, `pop()` and `pop(0)` work on.
 */
module Lists {
  import opened Wrappers

  /** The last element, the one `pop()` returns. */
  function Last<T>(s: seq<T>): T
    requires s != []
  {
    s[|s| - 1]
  }

  /** Everything but the last element, what `pop()` leaves. */
  function Front<T>(s: seq<T>): seq<T>
    requires s != []
  {
    s[..|s| - 1]
  }

  /** Position of the first element equal to x, or |s| when there is none. */
  function IndexOf<T(==)>(s: seq<T>, x: T): (i: nat)
    ensures i <= |s|
    ensures i < |s| ==> s[i] == x
    ensures forall j :: 0 <= j < i ==> s[j] != x
  {
    if s == [] then 0
    else if s[0] == x then 0
    else 1 + IndexOf(s[1..], x)
  }

  /** s without the element at position i; the others keep their order. */
  function RemoveAt<T>(s: seq<T>, i: nat): (r: seq<T>)
    requires i < |s|
    ensures |r| == |s| - 1
    ensures forall j :: 0 <= j < i ==> r[j] == s[j]
    ensures forall j :: i <= j < |r| ==> r[j] == s[j + 1]
    ensures multiset(r) + multiset{s[i]} == multiset(s)
  {
    assert s == s[..i] + [s[i]] + s[i + 1..];
    s[..i] + s[i + 1..]
  }

  /**
   * `list.remove(x)`: drops the first element equal to x. None stands for the
   * ValueError Python raises when x is not in the list.
   */
  function Remove<T(==)>(s: seq<T>, x: T): (r: Option<seq<T>>)
    ensures r.None? <==> x !in s
    ensures r.Some? ==> |r.value| == |s| - 1
    ensures r.Some? ==> multiset(r.value) == multiset(s) - multiset{x}
  {
    var i := IndexOf(s, x);
    if i == |s| then None else Some(RemoveAt(s, i))
  }

  /** Removing x finds the element at k when k is the first place x occurs. */
  lemma RemoveFirstOccurrence<T>(s: seq<T>, k: nat)
    requires k < |s|
    requires forall j :: 0 <= j < k ==> s[j] != s[k]
    ensures Remove(s, s[k]) == Some(RemoveAt(s, k))
  {
  }

  /**
   * Removing an element that was just appended, and occurs nowhere else,
   * gives back the list it was appended to.
   */
  lemma RemoveAppended<T>(s: seq<T>, x: T)
    requires x !in s
    ensures Remove(s + [x], x) == Some(s)
  {
    var t := s + [x];
    assert forall j :: 0 <= j < |s| ==> t[j] != t[|s|];
    RemoveFirstOccurrence(t, |s|);
    assert RemoveAt(t, |s|) == s;
  }
}
