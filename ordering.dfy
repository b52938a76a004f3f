/**
 * The repository's order sequence: a list of ids without repetition. This
 * module holds what the repository does to it: removing one id (dict `del`),
 * the reorder policy of `set_order`, and the date sort of `sort_by_date`.
 */
module Ordering {
  import opened DateTimes
  import opened Todo

  predicate NoDuplicates(s: seq<Id>) {
    forall i, j | 0 <= i < j < |s| :: s[i] != s[j]
  }

  function Elements(s: seq<Id>): set<Id> {
    set x | x in s
  }

  /** `sub` is `s` with some elements left out and the rest kept in their order. */
  predicate IsSubsequence<T(==)>(sub: seq<T>, s: seq<T>) {
    if sub == [] then true
    else if s == [] then false
    else (sub[0] == s[0] && IsSubsequence(sub[1..], s[1..])) || IsSubsequence(sub, s[1..])
  }

  lemma NoDuplicatesTail(s: seq<Id>)
    requires s != [] && NoDuplicates(s)
    ensures NoDuplicates(s[1..]) && s[0] !in s[1..]
  {
    assert forall i, j | 0 <= i < j < |s[1..]| :: s[1..][i] == s[i + 1] && s[1..][j] == s[j + 1];
  }

  /** A list without repetition has as many elements as its set of elements. */
  lemma {:induction false} DistinctCount(s: seq<Id>)
    requires NoDuplicates(s)
    ensures |Elements(s)| == |s|
  {
    if s != [] {
      NoDuplicatesTail(s);
      assert Elements(s) == {s[0]} + Elements(s[1..]);
      DistinctCount(s[1..]);
    }
  }

  // ---------------------------------------------------------------------------
  // Removing one id

  /** `s` with every occurrence of `x` removed, the rest in order. */
  function Without(s: seq<Id>, x: Id): (r: seq<Id>)
    ensures forall y :: y in r <==> y in s && y != x
  {
    if s == [] then []
    else if s[0] == x then Without(s[1..], x)
    else [s[0]] + Without(s[1..], x)
  }

  /** Removing an id keeps the others in order, and removes exactly one position when it was there once. */
  lemma {:induction false} WithoutProperties(s: seq<Id>, x: Id)
    ensures x !in s ==> Without(s, x) == s
    ensures NoDuplicates(s) ==> NoDuplicates(Without(s, x))
    ensures NoDuplicates(s) && x in s ==> |Without(s, x)| == |s| - 1
    ensures IsSubsequence(Without(s, x), s)
  {
    if s != [] {
      var rest := Without(s[1..], x);
      WithoutProperties(s[1..], x);
      assert s == [s[0]] + s[1..];
      if NoDuplicates(s) { NoDuplicatesTail(s); }
      if s[0] != x {
        assert ([s[0]] + rest)[1..] == rest;
        if NoDuplicates(s) { NoDupPrepend(s[0], rest); }
      }
    }
  }

  // ---------------------------------------------------------------------------
  // Reordering (set_order)

  /** The requested ids that are available, first occurrences only, in the requested order. */
  function KeepListed(requested: seq<Id>, available: set<Id>): (r: seq<Id>)
    ensures NoDuplicates(r)
    ensures forall y :: y in r <==> y in requested && y in available
    decreases |requested|
  {
    if requested == [] then []
    else if requested[0] in available then
      var rest := KeepListed(requested[1..], available - {requested[0]});
      assert ([requested[0]] + rest)[1..] == rest;
      [requested[0]] + rest
    else KeepListed(requested[1..], available)
  }

  /** The ids of `current` that are not in `listed`, in their current order. */
  function Unlisted(current: seq<Id>, listed: seq<Id>): (r: seq<Id>)
    ensures forall y :: y in r <==> y in current && y !in listed
  {
    if current == [] then []
    else if current[0] in listed then Unlisted(current[1..], listed)
    else [current[0]] + Unlisted(current[1..], listed)
  }

  lemma {:induction false} UnlistedProperties(current: seq<Id>, listed: seq<Id>)
    ensures NoDuplicates(current) ==> NoDuplicates(Unlisted(current, listed))
    ensures IsSubsequence(Unlisted(current, listed), current)
  {
    if current != [] {
      var rest := Unlisted(current[1..], listed);
      UnlistedProperties(current[1..], listed);
      assert current == [current[0]] + current[1..];
      if NoDuplicates(current) { NoDuplicatesTail(current); }
      if current[0] !in listed {
        assert ([current[0]] + rest)[1..] == rest;
        if NoDuplicates(current) { NoDupPrepend(current[0], rest); }
      }
    }
  }

  /**
   * The new order after `set_order(requested)`: the requested ids that exist,
   * in the requested order, then every existing id the request left out, in
   * its previous order.
   */
  function Reordered(current: seq<Id>, requested: seq<Id>): seq<Id> {
    var front := KeepListed(requested, Elements(current));
    front + Unlisted(current, front)
  }

  /** Reordering keeps exactly the same ids, each once. */
  lemma ReorderedIsPermutation(current: seq<Id>, requested: seq<Id>)
    requires NoDuplicates(current)
    ensures NoDuplicates(Reordered(current, requested))
    ensures forall y :: y in Reordered(current, requested) <==> y in current
    ensures |Reordered(current, requested)| == |current|
  {
    var front := KeepListed(requested, Elements(current));
    var back := Unlisted(current, front);
    UnlistedProperties(current, front);
    var r := front + back;
    forall i, j | 0 <= i < j < |r| ensures r[i] != r[j] {
      if j < |front| {
        assert r[i] == front[i] && r[j] == front[j];
      } else if i >= |front| {
        assert r[i] == back[i - |front|] && r[j] == back[j - |front|];
      } else {
        assert r[i] == front[i] && r[j] == back[j - |front|];
        assert r[j] !in front;
      }
    }
    assert Elements(r) == Elements(current);
    DistinctCount(r);
    DistinctCount(current);
  }

  lemma {:induction false} KeepListedAll(requested: seq<Id>, available: set<Id>)
    requires NoDuplicates(requested)
    requires forall y | y in requested :: y in available
    ensures KeepListed(requested, available) == requested
    decreases |requested|
  {
    if requested != [] {
      NoDuplicatesTail(requested);
      KeepListedAll(requested[1..], available - {requested[0]});
      assert requested == [requested[0]] + requested[1..];
    }
  }

  lemma {:induction false} UnlistedNone(current: seq<Id>, listed: seq<Id>)
    requires forall y | y in current :: y in listed
    ensures Unlisted(current, listed) == []
  {
    if current != [] {
      assert current[0] in current;
      UnlistedNone(current[1..], listed);
    }
  }

  /** A request that names every existing id exactly once becomes the new order as given. */
  lemma ReorderedFullRequest(current: seq<Id>, requested: seq<Id>)
    requires NoDuplicates(requested)
    requires forall y :: y in requested <==> y in current
    ensures Reordered(current, requested) == requested
  {
    KeepListedAll(requested, Elements(current));
    var back := Unlisted(current, requested);
    UnlistedNone(current, requested);
    assert requested + back == requested;
  }

  // ---------------------------------------------------------------------------
  // Sorting by target date (sort_by_date)

  predicate AllStored(ids: seq<Id>, todos: map<Id, TodoItem>) {
    forall id | id in ids :: id in todos
  }

  /** The stored items' target dates never decrease along `ids`. */
  predicate DateOrdered(ids: seq<Id>, todos: map<Id, TodoItem>)
    requires AllStored(ids, todos)
  {
    forall i, j | 0 <= i < j < |ids| :: NotAfter(todos[ids[i]].targetDate, todos[ids[j]].targetDate)
  }

  lemma PrependOrdered(y: Id, r: seq<Id>, todos: map<Id, TodoItem>)
    requires y in todos && AllStored(r, todos) && DateOrdered(r, todos)
    requires forall z | z in r :: NotAfter(todos[y].targetDate, todos[z].targetDate)
    ensures AllStored([y] + r, todos) && DateOrdered([y] + r, todos)
  {
    var s := [y] + r;
    forall i, j | 0 <= i < j < |s| ensures NotAfter(todos[s[i]].targetDate, todos[s[j]].targetDate) {
      assert s[j] == r[j - 1];
      if i > 0 { assert s[i] == r[i - 1]; }
    }
  }

  lemma NoDupPrepend(x: Id, s: seq<Id>)
    requires NoDuplicates(s) && x !in s
    ensures NoDuplicates([x] + s)
  {
    var r := [x] + s;
    forall i, j | 0 <= i < j < |r| ensures r[i] != r[j] {
      assert r[j] == s[j - 1];
      if i > 0 { assert r[i] == s[i - 1]; }
    }
  }

  lemma DateOrderedTail(s: seq<Id>, todos: map<Id, TodoItem>)
    requires s != [] && AllStored(s, todos) && DateOrdered(s, todos)
    ensures AllStored(s[1..], todos) && DateOrdered(s[1..], todos)
  {
    forall i, j | 0 <= i < j < |s[1..]|
      ensures NotAfter(todos[s[1..][i]].targetDate, todos[s[1..][j]].targetDate)
    {
      assert s[1..][i] == s[i + 1] && s[1..][j] == s[j + 1];
    }
  }

  /** Places `x` before the first id whose date is not earlier than its own. */
  function InsertByDate(x: Id, sorted: seq<Id>, todos: map<Id, TodoItem>): (r: seq<Id>)
    requires x in todos && AllStored(sorted, todos)
    ensures multiset(r) == multiset(sorted) + multiset{x}
    ensures AllStored(r, todos)
  {
    if sorted == [] then [x]
    else if NotAfter(todos[x].targetDate, todos[sorted[0]].targetDate) then [x] + sorted
    else
      assert sorted == [sorted[0]] + sorted[1..];
      var r := [sorted[0]] + InsertByDate(x, sorted[1..], todos);
      assert forall z | z in r :: z in multiset(r);
      r
  }

  /** Inserting into a date-ordered list keeps it date-ordered. */
  lemma {:induction false} InsertByDateOrdered(x: Id, sorted: seq<Id>, todos: map<Id, TodoItem>)
    requires x in todos && AllStored(sorted, todos) && DateOrdered(sorted, todos)
    ensures DateOrdered(InsertByDate(x, sorted, todos), todos)
  {
    if sorted == [] {
    } else if NotAfter(todos[x].targetDate, todos[sorted[0]].targetDate) {
      forall z | z in sorted ensures NotAfter(todos[x].targetDate, todos[z].targetDate) {
        var k :| 0 <= k < |sorted| && sorted[k] == z;
        if k > 0 {
          NotAfterIsTransitive(todos[x].targetDate, todos[sorted[0]].targetDate, todos[z].targetDate);
        }
      }
      PrependOrdered(x, sorted, todos);
    } else {
      var head := sorted[0];
      assert sorted == [head] + sorted[1..];
      DateOrderedTail(sorted, todos);
      var rest := InsertByDate(x, sorted[1..], todos);
      InsertByDateOrdered(x, sorted[1..], todos);
      forall z | z in rest ensures NotAfter(todos[head].targetDate, todos[z].targetDate) {
        assert z in multiset(rest);
        assert z in multiset(sorted[1..]) || z == x;
        if z == x {
          NotAfterIsTotal(todos[x].targetDate, todos[head].targetDate);
        } else {
          assert z in sorted[1..];
          var k :| 0 <= k < |sorted[1..]| && sorted[1..][k] == z;
          assert sorted[k + 1] == z;
        }
      }
      PrependOrdered(head, rest, todos);
    }
  }

  /** Inserting a new id into a list without repetition gives a list without repetition. */
  lemma {:induction false} InsertByDateDistinct(x: Id, sorted: seq<Id>, todos: map<Id, TodoItem>)
    requires x in todos && AllStored(sorted, todos) && NoDuplicates(sorted) && x !in sorted
    ensures NoDuplicates(InsertByDate(x, sorted, todos))
  {
    if sorted == [] {
    } else if NotAfter(todos[x].targetDate, todos[sorted[0]].targetDate) {
      NoDupPrepend(x, sorted);
    } else {
      var head := sorted[0];
      assert sorted == [head] + sorted[1..];
      NoDuplicatesTail(sorted);
      var rest := InsertByDate(x, sorted[1..], todos);
      InsertByDateDistinct(x, sorted[1..], todos);
      assert head !in multiset(rest);
      NoDupPrepend(head, rest);
    }
  }

  /** Insertion sort of the ids by their items' target dates. */
  function SortedByDate(ids: seq<Id>, todos: map<Id, TodoItem>): (r: seq<Id>)
    requires AllStored(ids, todos)
    ensures multiset(r) == multiset(ids)
    ensures AllStored(r, todos)
  {
    if ids == [] then []
    else
      assert ids == [ids[0]] + ids[1..];
      InsertByDate(ids[0], SortedByDate(ids[1..], todos), todos)
  }

  /** The sorted order has non-decreasing target dates. */
  lemma {:induction false} SortedByDateOrdered(ids: seq<Id>, todos: map<Id, TodoItem>)
    requires AllStored(ids, todos)
    ensures DateOrdered(SortedByDate(ids, todos), todos)
  {
    if ids != [] {
      SortedByDateOrdered(ids[1..], todos);
      InsertByDateOrdered(ids[0], SortedByDate(ids[1..], todos), todos);
    }
  }

  /** Sorting a list without repetition gives a list without repetition. */
  lemma {:induction false} SortedByDateDistinct(ids: seq<Id>, todos: map<Id, TodoItem>)
    requires AllStored(ids, todos) && NoDuplicates(ids)
    ensures NoDuplicates(SortedByDate(ids, todos))
  {
    if ids != [] {
      NoDuplicatesTail(ids);
      SortedByDateDistinct(ids[1..], todos);
      var rest := SortedByDate(ids[1..], todos);
      assert ids[0] !in multiset(rest);
      InsertByDateDistinct(ids[0], rest, todos);
    }
  }
}
