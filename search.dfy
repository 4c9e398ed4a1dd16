/** The list screen's keyword search and the delete filter, both pure
    functions of the current `tasks` sequence. */
module Search {
  import opened Api
  import opened Text

  /** The search terms of a query: lower-cased, split on single spaces,
      empty pieces dropped. Every term is non-empty and holds no space, and
      there are none exactly when the query is empty or all spaces. */
  function Terms(query: string): (r: seq<string>)
    ensures forall k :: 0 <= k < |r| ==> r[k] != "" && ' ' !in r[k]
    ensures r == [] <==> AllSpaces(query)
  {
    SplitPiecesHaveNoSpace(Lower(query));
    NoPiecesIffAllSpaces(Lower(query));
    LowerAllSpaces(query);
    NonEmpty(Split(Lower(query)))
  }

  /** The four fields the search looks at. */
  function Fields(t: Task): seq<string>
  {
    [t.title, IntToDecimal(t.id), t.description, t.updatedAt]
  }

  /** A term matches a task when it occurs in the lower-cased text of its
      title, its id, its description or its update time. */
  predicate TermMatches(t: Task, term: string)
    ensures TermMatches(t, term) <==> exists f, i :: f in Fields(t) && OccursAt(Lower(f), term, i)
  {
    OccursInSomeField(t, term);
    || Contains(Lower(t.title), term)
    || Contains(Lower(IntToDecimal(t.id)), term)
    || Contains(Lower(t.description), term)
    || Contains(Lower(t.updatedAt), term)
  }

  lemma OccursInSomeField(t: Task, term: string)
    ensures (|| Contains(Lower(t.title), term)
             || Contains(Lower(IntToDecimal(t.id)), term)
             || Contains(Lower(t.description), term)
             || Contains(Lower(t.updatedAt), term))
      <==> exists f, i :: f in Fields(t) && OccursAt(Lower(f), term, i)
  {
    var fields := Fields(t);
    forall f | f in fields
      ensures f == t.title || f == IntToDecimal(t.id) || f == t.description || f == t.updatedAt
    {
      var k :| 0 <= k < |fields| && fields[k] == f;
    }
    forall f | f in fields && Contains(Lower(f), term)
      ensures exists i :: OccursAt(Lower(f), term, i)
    {
    }
    assert fields[0] in fields && fields[1] in fields && fields[2] in fields && fields[3] in fields;
    forall f, i | f in fields && OccursAt(Lower(f), term, i)
      ensures Contains(Lower(f), term)
    {
    }
  }

  /** Every term matches some field of the task: neither the order of the
      terms nor a repeated term makes a difference. */
  predicate Matches(t: Task, terms: seq<string>)
    ensures Matches(t, terms) <==> forall term :: term in terms ==> TermMatches(t, term)
  {
    forall k :: 0 <= k < |terms| ==> TermMatches(t, terms[k])
  }

  /** The tasks every term matches, each as often as in `tasks`. */
  function FilterTerms(tasks: seq<Task>, terms: seq<string>): (r: seq<Task>)
    ensures forall t :: multiset(r)[t] == if Matches(t, terms) then multiset(tasks)[t] else 0
  {
    if tasks == [] then []
    else
      assert tasks == [tasks[0]] + tasks[1..];
      (if Matches(tasks[0], terms) then [tasks[0]] else []) + FilterTerms(tasks[1..], terms)
  }

  /** `filteredTasks`: the tasks the query keeps, in list order. No task is
      added, and each kept one appears as often as in the list. */
  function Filter(tasks: seq<Task>, query: string): (r: seq<Task>)
    ensures |r| <= |tasks|
    ensures forall t :: multiset(r)[t] == if Matches(t, Terms(query)) then multiset(tasks)[t] else 0
  {
    var r := FilterTerms(tasks, Terms(query));
    FilterTermsIsSubsequence(tasks, Terms(query));
    SubsequenceNoLonger(r, tasks);
    r
  }

  /** A one-word query that occurs in a task's title, whatever the case of
      either, keeps that task. */
  lemma TitleWordKept(tasks: seq<Task>, t: Task, query: string)
    requires t in tasks && query != "" && ' ' !in query
    requires Contains(Lower(t.title), Lower(query))
    ensures t in Filter(tasks, query)
  {
    assert ' ' !in Lower(query) by {
      forall i | 0 <= i < |query| ensures Lower(query)[i] != ' ' {
        LowerKeepsSpaces(query, i);
      }
    }
    SplitWithoutSpace(Lower(query));
    var word := Lower(query);
    assert word != "" && [word][1..] == [];
    assert NonEmpty([word]) == [word] + NonEmpty([]);
    assert Terms(query) == [word];
    FilterMembership(tasks, query, t);
  }

  lemma {:induction false} FilterTermsIsSubsequence(tasks: seq<Task>, terms: seq<string>)
    ensures IsSubsequence(FilterTerms(tasks, terms), tasks)
  {
    if tasks != [] {
      FilterTermsIsSubsequence(tasks[1..], terms);
      var r := FilterTerms(tasks, terms);
      if Matches(tasks[0], terms) {
        assert r[0] == tasks[0] && r[1..] == FilterTerms(tasks[1..], terms);
      } else {
        assert r == FilterTerms(tasks[1..], terms);
        if r != [] {
          assert IsSubsequence(r, tasks[1..]);
        }
      }
    }
  }

  /** The search only drops tasks: what it returns is a subsequence of the
      list, in the list's order. */
  lemma FilterIsSubsequence(tasks: seq<Task>, query: string)
    ensures IsSubsequence(Filter(tasks, query), tasks)
  {
    FilterTermsIsSubsequence(tasks, Terms(query));
  }

  /** A task is shown exactly when it is in the list and every non-empty
      lower-cased term occurs in one of its four fields. */
  lemma FilterMembership(tasks: seq<Task>, query: string, t: Task)
    ensures t in Filter(tasks, query) <==>
      t in tasks && forall k :: 0 <= k < |Terms(query)| ==> TermMatches(t, Terms(query)[k])
  {
    assert t in Filter(tasks, query) <==> t in multiset(Filter(tasks, query));
    assert t in tasks <==> t in multiset(tasks);
  }

  lemma {:induction false} FilterNoTerms(tasks: seq<Task>)
    ensures FilterTerms(tasks, []) == tasks
  {
    if tasks != [] {
      FilterNoTerms(tasks[1..]);
    }
  }

  /** An empty or all-space query keeps every task, in order. */
  lemma BlankQueryKeepsAll(tasks: seq<Task>, query: string)
    requires AllSpaces(query)
    ensures Filter(tasks, query) == tasks
  {
    FilterNoTerms(tasks);
  }

  /** The search ignores the letter case of the query. */
  lemma CaseInsensitive(tasks: seq<Task>, q1: string, q2: string)
    requires SameIgnoringCase(q1, q2)
    ensures Filter(tasks, q1) == Filter(tasks, q2)
  {
    LowerIgnoresCase(q1, q2);
  }

  lemma {:induction false} FilterTermsTwice(tasks: seq<Task>, terms: seq<string>)
    ensures FilterTerms(FilterTerms(tasks, terms), terms) == FilterTerms(tasks, terms)
  {
    if tasks != [] {
      FilterTermsTwice(tasks[1..], terms);
      var rest := FilterTerms(tasks[1..], terms);
      if Matches(tasks[0], terms) {
        assert FilterTerms(tasks, terms) == [tasks[0]] + rest;
        assert ([tasks[0]] + rest)[1..] == rest;
      } else {
        assert FilterTerms(tasks, terms) == rest;
      }
    }
  }

  /** Searching the search result again with the same query changes nothing. */
  lemma FilterIdempotent(tasks: seq<Task>, query: string)
    ensures Filter(Filter(tasks, query), query) == Filter(tasks, query)
  {
    FilterTermsTwice(tasks, Terms(query));
  }

  /** `tasks.filter((task) => task.id !== id)`. */
  function RemoveId(tasks: seq<Task>, id: int): (r: seq<Task>)
    ensures forall t :: t in r <==> t in tasks && t.id != id
    ensures forall t :: multiset(r)[t] == if t.id != id then multiset(tasks)[t] else 0
  {
    if tasks == [] then []
    else
      assert tasks == [tasks[0]] + tasks[1..];
      (if tasks[0].id != id then [tasks[0]] else []) + RemoveId(tasks[1..], id)
  }

  /** Deleting keeps the other tasks in their order. */
  lemma {:induction false} RemoveIdIsSubsequence(tasks: seq<Task>, id: int)
    ensures IsSubsequence(RemoveId(tasks, id), tasks)
  {
    if tasks != [] {
      var rest := RemoveId(tasks[1..], id);
      RemoveIdIsSubsequence(tasks[1..], id);
      if tasks[0].id != id {
        assert RemoveId(tasks, id) == [tasks[0]] + rest;
        assert ([tasks[0]] + rest)[1..] == rest;
      } else {
        assert RemoveId(tasks, id) == rest;
      }
    }
  }

  /** Deleting an id no task has leaves the list as it was. */
  lemma {:induction false} RemoveAbsentId(tasks: seq<Task>, id: int)
    requires forall t :: t in tasks ==> t.id != id
    ensures RemoveId(tasks, id) == tasks
  {
    if tasks != [] {
      assert tasks[0] in tasks;
      assert forall t :: t in tasks[1..] ==> t in tasks;
      RemoveAbsentId(tasks[1..], id);
    }
  }
}
