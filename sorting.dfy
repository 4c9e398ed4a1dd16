/** The list screen's sort by update time and its sort-order toggle.
    `instant` stands for `new Date(updated_at)`: the point in time a
    timestamp text denotes. */
module Sorting {
  import opened Api

  /** The toggle: `"asc"` becomes `"desc"`, anything else becomes `"asc"`. */
  function Toggle(order: string): (r: string)
    ensures r == "asc" || r == "desc"
    ensures r == "asc" <==> order != "asc"
  {
    if order == "asc" then "desc" else "asc"
  }

  /** Toggling twice from either of the two orders the screen shows is the
      identity. */
  lemma ToggleTwice(order: string)
    requires order == "asc" || order == "desc"
    ensures Toggle(Toggle(order)) == order
  {
  }

  /** The comparator's verdict "a may stay before b": for `"asc"` the earlier
      time first, for any other order the later time first. */
  predicate InOrder(a: int, b: int, order: string)
  {
    if order == "asc" then a <= b else b <= a
  }

  ghost predicate Sorted(s: seq<Task>, order: string, instant: string -> int)
  {
    forall i, j :: 0 <= i < j < |s| ==> InOrder(instant(s[i].updatedAt), instant(s[j].updatedAt), order)
  }

  /** Puts `t` in front of the first task it may precede. */
  function Insert(t: Task, s: seq<Task>, order: string, instant: string -> int): (r: seq<Task>)
    ensures multiset(r) == multiset(s) + multiset{t}
  {
    if s == [] then [t]
    else if InOrder(instant(t.updatedAt), instant(s[0].updatedAt), order) then [t] + s
    else
      assert s == [s[0]] + s[1..];
      [s[0]] + Insert(t, s[1..], order, instant)
  }

  /** Inserting into a sorted list keeps it sorted. */
  lemma {:induction false} InsertSorted(t: Task, s: seq<Task>, order: string, instant: string -> int)
    requires Sorted(s, order, instant)
    ensures Sorted(Insert(t, s, order, instant), order, instant)
  {
    if s != [] && !InOrder(instant(t.updatedAt), instant(s[0].updatedAt), order) {
      SortedTail(s, order, instant);
      InsertSorted(t, s[1..], order, instant);
      HeadPrecedesInsert(t, s, order, instant);
      SortedCons(s[0], Insert(t, s[1..], order, instant), order, instant);
    }
  }

  /** When `t` goes after the head of a sorted list, that head may precede
      everything the insertion into the tail yields. */
  lemma HeadPrecedesInsert(t: Task, s: seq<Task>, order: string, instant: string -> int)
    requires s != [] && Sorted(s, order, instant)
    requires !InOrder(instant(t.updatedAt), instant(s[0].updatedAt), order)
    ensures forall x :: x in Insert(t, s[1..], order, instant) ==>
      InOrder(instant(s[0].updatedAt), instant(x.updatedAt), order)
  {
    var rest := Insert(t, s[1..], order, instant);
    forall x | x in rest ensures InOrder(instant(s[0].updatedAt), instant(x.updatedAt), order) {
      assert x in multiset(rest);
      if x != t {
        var j :| 0 <= j < |s[1..]| && s[1..][j] == x;
        assert s[j + 1] == x;
      }
    }
  }

  lemma SortedCons(h: Task, r: seq<Task>, order: string, instant: string -> int)
    requires Sorted(r, order, instant)
    requires forall x :: x in r ==> InOrder(instant(h.updatedAt), instant(x.updatedAt), order)
    ensures Sorted([h] + r, order, instant)
  {
    var all := [h] + r;
    forall i, j | 0 <= i < j < |all|
      ensures InOrder(instant(all[i].updatedAt), instant(all[j].updatedAt), order)
    {
      assert all[j] == r[j - 1];
      if i > 0 {
        assert all[i] == r[i - 1];
      }
    }
  }

  /** `[...filteredTasks].sort(...)`: the same tasks, ordered by the instant of
      `updated_at`. The argument itself is not reordered (it is a value). */
  function SortByUpdated(s: seq<Task>, order: string, instant: string -> int): (r: seq<Task>)
    ensures multiset(r) == multiset(s)
    ensures Sorted(r, order, instant)
  {
    if s == [] then []
    else
      assert s == [s[0]] + s[1..];
      var rest := SortByUpdated(s[1..], order, instant);
      InsertSorted(s[0], rest, order, instant);
      Insert(s[0], rest, order, instant)
  }

  function Reverse<T>(s: seq<T>): (r: seq<T>)
    ensures |r| == |s|
    ensures forall i :: 0 <= i < |s| ==> r[i] == s[|s| - 1 - i]
  {
    if s == [] then [] else Reverse(s[1..]) + [s[0]]
  }

  lemma {:induction false} ReverseSameTasks<T>(s: seq<T>)
    ensures multiset(Reverse(s)) == multiset(s)
  {
    if s != [] {
      ReverseSameTasks(s[1..]);
      assert s == [s[0]] + s[1..];
    }
  }

  /** No two different tasks share an update instant. */
  ghost predicate DistinctInstants(s: seq<Task>, instant: string -> int)
  {
    forall x, y :: x in s && y in s && instant(x.updatedAt) == instant(y.updatedAt) ==> x == y
  }

  lemma SortedTail(s: seq<Task>, order: string, instant: string -> int)
    requires s != [] && Sorted(s, order, instant)
    ensures Sorted(s[1..], order, instant)
  {
    forall i, j | 0 <= i < j < |s| - 1
      ensures InOrder(instant(s[1..][i].updatedAt), instant(s[1..][j].updatedAt), order)
    {
      assert s[1..][i] == s[i + 1] && s[1..][j] == s[j + 1];
    }
  }

  lemma SameTails<T>(a: seq<T>, b: seq<T>)
    requires a != [] && b != [] && a[0] == b[0] && multiset(a) == multiset(b)
    ensures multiset(a[1..]) == multiset(b[1..])
  {
    assert a == [a[0]] + a[1..] && b == [b[0]] + b[1..];
    assert multiset(a) == multiset{a[0]} + multiset(a[1..]);
    assert multiset(b) == multiset{b[0]} + multiset(b[1..]);
    forall y ensures multiset(a[1..])[y] == multiset(b[1..])[y] {
      assert multiset(a)[y] == multiset{a[0]}[y] + multiset(a[1..])[y];
      assert multiset(b)[y] == multiset{b[0]}[y] + multiset(b[1..])[y];
    }
  }

  /** Two sorted arrangements of the same tasks start with the same task when
      instants are distinct: each head is no later (or no earlier) than the
      other. */
  lemma SameHeads(a: seq<Task>, b: seq<Task>, order: string, instant: string -> int)
    requires a != [] && Sorted(a, order, instant) && Sorted(b, order, instant)
    requires multiset(a) == multiset(b)
    requires DistinctInstants(a, instant)
    ensures b != [] && a[0] == b[0]
  {
    assert |multiset(b)| == |b|;
    assert a[0] in multiset(b) && b[0] in multiset(a);
    var k :| 0 <= k < |b| && b[k] == a[0];
    var m :| 0 <= m < |a| && a[m] == b[0];
    assert m == 0 || InOrder(instant(a[0].updatedAt), instant(a[m].updatedAt), order);
    assert k == 0 || InOrder(instant(b[0].updatedAt), instant(b[k].updatedAt), order);
  }

  /** With distinct instants there is only one sorted arrangement of a
      collection of tasks. */
  lemma {:induction false} SortedIsUnique(a: seq<Task>, b: seq<Task>, order: string, instant: string -> int)
    requires Sorted(a, order, instant) && Sorted(b, order, instant)
    requires multiset(a) == multiset(b)
    requires DistinctInstants(a, instant)
    ensures a == b
  {
    if a == [] {
      assert |multiset(b)| == 0;
    } else {
      SameHeads(a, b, order, instant);
      SameTails(a, b);
      SortedTail(a, order, instant);
      SortedTail(b, order, instant);
      assert forall x :: x in a[1..] ==> x in a;
      SortedIsUnique(a[1..], b[1..], order, instant);
      assert a == [a[0]] + a[1..] && b == [b[0]] + b[1..];
    }
  }

  /** Read backwards, a list sorted earliest first is sorted latest first. */
  lemma ReverseOfAscending(s: seq<Task>, instant: string -> int)
    requires Sorted(s, "asc", instant)
    ensures Sorted(Reverse(s), "desc", instant)
  {
    var r := Reverse(s);
    forall i, j | 0 <= i < j < |r|
      ensures InOrder(instant(r[i].updatedAt), instant(r[j].updatedAt), "desc")
    {
      assert r[i] == s[|s| - 1 - i] && r[j] == s[|s| - 1 - j];
    }
  }

  /** For tasks with distinct update instants, the descending sort is the
      ascending sort reversed. */
  lemma AscendingReversedIsDescending(s: seq<Task>, instant: string -> int)
    requires DistinctInstants(s, instant)
    ensures Reverse(SortByUpdated(s, "asc", instant)) == SortByUpdated(s, "desc", instant)
  {
    var up := SortByUpdated(s, "asc", instant);
    var down := SortByUpdated(s, "desc", instant);
    ReverseOfAscending(up, instant);
    ReverseSameTasks(up);
    assert forall x :: x in Reverse(up) <==> x in s by {
      assert forall x :: x in Reverse(up) <==> x in multiset(Reverse(up));
      assert forall x :: x in s <==> x in multiset(s);
    }
    SortedIsUnique(Reverse(up), down, "desc", instant);
  }
}
