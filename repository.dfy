/**
 * The in-memory store of models/repository.py. The source keeps a dict from
 * id to item and relies on the dict's insertion order; the model keeps the
 * same two things apart: a map from id to item and the sequence of ids in
 * iteration order. `SetOrder` and `SortByDate` are reconstructed from the
 * service's calls to `set_order` and `sort_by_date` (models/service.py), which
 * the repository file does not define.
 */
module Repository {
  import opened Wrappers
  import opened DateTimes
  import opened Todo
  import opened Ordering

  // ---------------------------------------------------------------------------
  // Status filter

  /** The items of `items` whose status is `s`, in their order (the comprehension of `get_by_status`). */
  function FilterStatus(items: seq<TodoItem>, s: TodoStatus): (r: seq<TodoItem>)
    ensures |r| <= |items|
    ensures forall t | t in r :: t.status == s && t in items
    ensures forall t | t in items && t.status == s :: t in r
  {
    if items == [] then []
    else if items[0].status == s then [items[0]] + FilterStatus(items[1..], s)
    else FilterStatus(items[1..], s)
  }

  /** The filter keeps the items it selects in their original relative order. */
  lemma {:induction false} FilterStatusKeepsOrder(items: seq<TodoItem>, s: TodoStatus)
    ensures IsSubsequence(FilterStatus(items, s), items)
  {
    if items != [] {
      FilterStatusKeepsOrder(items[1..], s);
      var rest := FilterStatus(items[1..], s);
      if items[0].status == s {
        assert ([items[0]] + rest)[1..] == rest;
      }
    }
  }

  /** Every item has exactly one of the three statuses, so the three filters add up to the whole list. */
  lemma {:induction false} StatusFiltersPartition(items: seq<TodoItem>)
    ensures |FilterStatus(items, Scheduled)| + |FilterStatus(items, InProgress)|
            + |FilterStatus(items, Completed)| == |items|
  {
    if items != [] {
      StatusFiltersPartition(items[1..]);
    }
  }

  // ---------------------------------------------------------------------------
  // Partial update

  /**
   * The item after `update` on a known id: each given field is assigned as
   * it is (the content is neither stripped nor checked), the others are kept,
   * and updated_at becomes `now`.
   */
  function Patched(t: TodoItem, now: DateTime, content: Option<string>,
                   targetDate: Option<DateTime>, status: Option<TodoStatus>): (r: TodoItem)
    ensures r.id == t.id && r.createdAt == t.createdAt && r.updatedAt == now
    ensures r.content == (if content.Some? then content.value else t.content)
    ensures r.targetDate == (if targetDate.Some? then targetDate.value else t.targetDate)
    ensures r.status == (if status.Some? then status.value else t.status)
  {
    t.(content := if content.Some? then content.value else t.content,
       targetDate := if targetDate.Some? then targetDate.value else t.targetDate,
       status := if status.Some? then status.value else t.status,
       updatedAt := now)
  }

  /** An update that gives no field still refreshes updated_at, and changes nothing else. */
  lemma PatchedWithNothingTouchesOnlyTimestamp(t: TodoItem, now: DateTime)
    ensures Patched(t, now, None, None, None) == t.(updatedAt := now)
  {
  }

  /** Any status can be replaced by any other: there is no workflow order. */
  lemma PatchedAnyStatusTransition(t: TodoItem, now: DateTime, s: TodoStatus)
    ensures Patched(t, now, None, None, Some(s)).status == s
    ensures Patched(t, now, None, None, Some(s)).content == t.content
  {
  }

  /** An item that was not updated before it was created. */
  predicate TimestampsOrdered(t: TodoItem) {
    NotAfter(t.createdAt, t.updatedAt)
  }

  /**
   * With a clock reading `now` that is not earlier than the item's last
   * update, an update keeps updated_at no earlier than created_at.
   */
  lemma PatchedKeepsTimestampsOrdered(t: TodoItem, now: DateTime, content: Option<string>,
                                      targetDate: Option<DateTime>, status: Option<TodoStatus>)
    requires TimestampsOrdered(t) && NotAfter(t.updatedAt, now)
    ensures TimestampsOrdered(Patched(t, now, content, targetDate, status))
  {
    NotAfterIsTransitive(t.createdAt, t.updatedAt, now);
  }

  /** A clock reading strictly later than the last update makes updated_at strictly later. */
  lemma PatchedAdvancesTimestamp(t: TodoItem, now: DateTime, content: Option<string>,
                                 targetDate: Option<DateTime>, status: Option<TodoStatus>)
    requires Before(t.updatedAt, now)
    ensures Before(t.updatedAt, Patched(t, now, content, targetDate, status).updatedAt)
    ensures Patched(t, now, content, targetDate, status).createdAt == t.createdAt
  {
  }

  /** Every stored item was not updated before it was created. */
  predicate StoreTimestampsOrdered(todos: map<Id, TodoItem>) {
    forall id | id in todos :: TimestampsOrdered(todos[id])
  }

  /** Storing the patched item keeps that true of the whole store, under the same clock assumption. */
  lemma UpdateKeepsStoreTimestampsOrdered(todos: map<Id, TodoItem>, id: Id, now: DateTime, content: Option<string>,
                                          targetDate: Option<DateTime>, status: Option<TodoStatus>)
    requires StoreTimestampsOrdered(todos) && id in todos && NotAfter(todos[id].updatedAt, now)
    ensures StoreTimestampsOrdered(todos[id := Patched(todos[id], now, content, targetDate, status)])
  {
    PatchedKeepsTimestampsOrdered(todos[id], now, content, targetDate, status);
  }

  /** As written, update stores whitespace-only content: the item then breaks the validator's rule. */
  lemma PatchedStoresBlankContent(t: TodoItem, now: DateTime)
    ensures Patched(t, now, Some("  "), None, None).content == "  "
    ensures !HasValidContent(Patched(t, now, Some("  "), None, None))
  {
    assert AllWhitespace("  ");
  }

  /**
   * Update as evidently intended: the new content passes the same validation
   * as construction (stored stripped, rejected when blank) before anything changes.
   */
  function ValidatedPatch(t: TodoItem, now: DateTime, content: Option<string>,
                          targetDate: Option<DateTime>, status: Option<TodoStatus>): (r: Result<TodoItem, ValidationError>)
    ensures r.Failure? <==> content.Some? && AllWhitespace(content.value)
    ensures r.Success? ==> r.value == Patched(t, now, if content.Some? then Some(Strip(content.value)) else None, targetDate, status)
  {
    if content.None? then Success(Patched(t, now, None, targetDate, status))
    else
      match ValidateContent(content.value)
      case Failure(e) => Failure(e)
      case Success(c) => Success(Patched(t, now, Some(c), targetDate, status))
  }

  /** The validated update never turns an item with valid content into one without. */
  lemma ValidatedPatchKeepsValidContent(t: TodoItem, now: DateTime, content: Option<string>,
                                        targetDate: Option<DateTime>, status: Option<TodoStatus>)
    requires HasValidContent(t)
    ensures var r := ValidatedPatch(t, now, content, targetDate, status);
            r.Success? ==> HasValidContent(r.value)
  {
    if content.Some? && !AllWhitespace(content.value) {
      ValidateContentIdempotent(content.value);
    }
  }

  // ---------------------------------------------------------------------------
  // The store

  /** With no repeated id and the same ids as the store, the order is as long as the store is large. */
  lemma OrderLengthIsCount(order: seq<Id>, todos: map<Id, TodoItem>)
    requires NoDuplicates(order) && AllStored(order, todos)
    requires forall id | id in todos :: id in order
    ensures |order| == |todos|
  {
    assert Elements(order) == todos.Keys;
    DistinctCount(order);
  }

  /** The items stored under `order`'s ids, in that order. */
  function ItemsOf(order: seq<Id>, todos: map<Id, TodoItem>): (r: seq<TodoItem>)
    requires AllStored(order, todos)
    ensures |r| == |order|
    ensures forall i | 0 <= i < |r| :: r[i] == todos[order[i]]
  {
    seq(|order|, i requires 0 <= i < |order| => todos[order[i]])
  }

  lemma ItemsOfCoversStore(order: seq<Id>, todos: map<Id, TodoItem>)
    requires AllStored(order, todos)
    requires forall id | id in todos :: id in order
    ensures forall id | id in todos :: todos[id] in ItemsOf(order, todos)
  {
    var r := ItemsOf(order, todos);
    forall id | id in todos ensures todos[id] in r {
      var k :| 0 <= k < |order| && order[k] == id;
      assert r[k] == todos[id];
    }
  }

  /** Storing a new id and appending it to the order appends its item to the listing. */
  lemma ItemsOfAppend(order: seq<Id>, todos: map<Id, TodoItem>, x: Id, t: TodoItem)
    requires AllStored(order, todos) && x !in order
    ensures AllStored(order + [x], todos[x := t])
    ensures ItemsOf(order + [x], todos[x := t]) == ItemsOf(order, todos) + [t]
  {
    var a := ItemsOf(order + [x], todos[x := t]);
    var b := ItemsOf(order, todos) + [t];
    forall i | 0 <= i < |a| ensures a[i] == b[i] {
      if i < |order| {
        assert (order + [x])[i] == order[i];
        assert order[i] != x;
      }
    }
  }

  class TodoRepository {
    /** `self._todos`: the items by id. */
    var todos: map<Id, TodoItem>
    /** The dict's iteration order: ids in insertion order, or as last reordered. */
    var order: seq<Id>

    /** The order lists every stored id exactly once, and each item is stored under its own id. */
    ghost predicate Valid()
      reads this
    {
      && NoDuplicates(order)
      && AllStored(order, todos)
      && (forall id | id in todos :: id in order)
      && (forall id | id in todos :: todos[id].id == id)
    }

    constructor ()
      ensures Valid()
      ensures todos == map[] && order == []
    {
      todos := map[];
      order := [];
    }

    /** `count`: the number of stored items. */
    function Count(): (n: nat)
      reads this
      ensures n == |todos.Keys|
    {
      |todos|
    }

    /** `get_by_id`: the stored item, or None for an unknown id. */
    function GetById(id: Id): (r: Option<TodoItem>)
      reads this
      ensures r.Some? <==> id in todos
      ensures r.Some? ==> r.value == todos[id]
      ensures Valid() && r.Some? ==> r.value.id == id
    {
      if id in todos then Some(todos[id]) else None
    }

    /** `get_all`: every stored item once, in iteration order; as many as `count` says. */
    function GetAll(): (r: seq<TodoItem>)
      reads this
      requires Valid()
      ensures |r| == |order| == Count()
      ensures forall i | 0 <= i < |r| :: r[i] == todos[order[i]] && r[i].id == order[i]
      ensures forall id | id in todos :: todos[id] in r
    {
      OrderLengthIsCount(order, todos);
      ItemsOfCoversStore(order, todos);
      ItemsOf(order, todos)
    }

    /** `get_by_status`: exactly the stored items with status `s`, in iteration order. */
    function GetByStatus(s: TodoStatus): (r: seq<TodoItem>)
      reads this
      requires Valid()
      ensures forall t | t in r :: t.status == s && t.id in todos && todos[t.id] == t
      ensures forall id | id in todos && todos[id].status == s :: todos[id] in r
      ensures IsSubsequence(r, GetAll())
    {
      FilterStatusKeepsOrder(GetAll(), s);
      FilterStatus(GetAll(), s)
    }

    /**
     * `create`: builds the item (which may fail validation) and on success
     * stores it under its fresh id, after every existing item.
     */
    method Create(content: string, targetDate: DateTime, freshId: Id,
                  createdClock: DateTime, updatedClock: DateTime,
                  status: TodoStatus := Scheduled) returns (r: Result<TodoItem, ValidationError>)
      requires Valid()
      requires freshId !in todos
      modifies this
      ensures Valid()
      ensures r == NewTodoItem(freshId, content, targetDate, createdClock, updatedClock, status)
      ensures r.Success? ==> todos == old(todos)[freshId := r.value] && order == old(order) + [freshId]
      ensures r.Success? ==> Count() == old(Count()) + 1 && GetById(freshId) == Some(r.value)
      ensures r.Success? ==> GetAll() == old(GetAll()) + [r.value]
      ensures r.Failure? ==> todos == old(todos) && order == old(order)
    {
      r := NewTodoItem(freshId, content, targetDate, createdClock, updatedClock, status);
      if r.Success? {
        var t := r.value;
        assert t.id == freshId;
        AppendToStore(order, todos, t, todos[freshId := t]);
        todos := todos[freshId := t];
        order := order + [freshId];
      }
    }

    /**
     * `update`: None for an unknown id, with nothing changed; otherwise the
     * item is patched in place (see Patched) and keeps its position.
     */
    method Update(id: Id, now: DateTime, content: Option<string> := None,
                  targetDate: Option<DateTime> := None, status: Option<TodoStatus> := None)
      returns (r: Option<TodoItem>)
      requires Valid()
      modifies this
      ensures Valid()
      ensures order == old(order)
      ensures r.Some? <==> id in old(todos)
      ensures r.None? ==> todos == old(todos)
      ensures r.Some? ==> r.value == Patched(old(todos)[id], now, content, targetDate, status)
      ensures r.Some? ==> todos == old(todos)[id := r.value] && Count() == old(Count())
    {
      if id !in todos {
        return None;
      }
      var t := Patched(todos[id], now, content, targetDate, status);
      ReplaceInStore(order, todos, t, todos[id := t]);
      todos := todos[id := t];
      r := Some(t);
    }

    /**
     * The update as evidently intended (see ValidatedPatch): invalid new
     * content is an error and changes nothing; valid content is stored
     * stripped. The service keeps calling the update as written.
     */
    method UpdateValidated(id: Id, now: DateTime, content: Option<string> := None,
                           targetDate: Option<DateTime> := None, status: Option<TodoStatus> := None)
      returns (r: Option<Result<TodoItem, ValidationError>>)
      requires Valid()
      modifies this
      ensures Valid()
      ensures order == old(order)
      ensures r.Some? <==> id in old(todos)
      ensures r.Some? ==> r.value == ValidatedPatch(old(todos)[id], now, content, targetDate, status)
      ensures r.Some? && r.value.Success? ==> todos == old(todos)[id := r.value.value]
      ensures (r.None? || r.value.Failure?) ==> todos == old(todos)
    {
      if id !in todos {
        return None;
      }
      var patched := ValidatedPatch(todos[id], now, content, targetDate, status);
      if patched.Success? {
        var t := patched.value;
        assert t.id == id;
        ReplaceInStore(order, todos, t, todos[id := t]);
        todos := todos[id := t];
      }
      r := Some(patched);
    }

    /** `delete`: True and the item removed when the id was stored, otherwise False and nothing changed. */
    method Delete(id: Id) returns (removed: bool)
      requires Valid()
      modifies this
      ensures Valid()
      ensures removed <==> id in old(todos)
      ensures todos == old(todos) - {id} && order == Without(old(order), id)
      ensures removed ==> Count() == old(Count()) - 1
      ensures !removed ==> todos == old(todos) && order == old(order)
      ensures GetById(id) == None
    {
      removed := id in todos;
      WithoutProperties(order, id);
      if removed {
        todos := todos - {id};
        order := Without(order, id);
      } else {
        assert todos - {id} == todos;
      }
    }

    /** `clear_all`: the store is empty afterwards. */
    method ClearAll()
      requires Valid()
      modifies this
      ensures Valid()
      ensures todos == map[] && order == [] && Count() == 0
    {
      todos := map[];
      order := [];
    }

    /**
     * `set_order` (reconstructed): the listed ids that exist come first in the
     * listed order; ids not listed follow in their previous order; unknown ids
     * and repeats are ignored. No item changes.
     */
    method SetOrder(requested: seq<Id>)
      requires Valid()
      modifies this
      ensures Valid()
      ensures todos == old(todos)
      ensures order == Reordered(old(order), requested)
      ensures NoDuplicates(requested) && (forall id :: id in requested <==> id in old(todos)) ==> order == requested
    {
      ReorderedIsPermutation(order, requested);
      if NoDuplicates(requested) && (forall id :: id in requested <==> id in todos) {
        ReorderedFullRequest(order, requested);
      }
      order := Reordered(order, requested);
    }

    /**
     * `sort_by_date` (reconstructed): the same ids, arranged so that target
     * dates never decrease. No item changes.
     */
    method SortByDate()
      requires Valid()
      modifies this
      ensures Valid()
      ensures todos == old(todos)
      ensures order == SortedByDate(old(order), todos)
      ensures multiset(order) == multiset(old(order))
      ensures DateOrdered(order, todos)
    {
      SortedByDateOrdered(order, todos);
      SortedByDateDistinct(order, todos);
      ghost var before := order;
      order := SortedByDate(order, todos);
      assert forall id | id in todos :: id in multiset(before) && id in multiset(order);
    }
  }

  /** Replacing a stored item by one with the same id keeps the store consistent with its order. */
  lemma ReplaceInStore(order: seq<Id>, todos: map<Id, TodoItem>, t: TodoItem, todos': map<Id, TodoItem>)
    requires AllStored(order, todos)
    requires forall id | id in todos :: id in order
    requires forall id | id in todos :: todos[id].id == id
    requires t.id in todos && todos' == todos[t.id := t]
    ensures AllStored(order, todos')
    ensures forall id | id in todos' :: id in order
    ensures forall id | id in todos' :: todos'[id].id == id
  {
  }

  /** Storing an item under its own new id last keeps the store consistent and appends the item to the listing. */
  lemma AppendToStore(order: seq<Id>, todos: map<Id, TodoItem>, t: TodoItem, todos': map<Id, TodoItem>)
    requires NoDuplicates(order) && AllStored(order, todos)
    requires forall id | id in todos :: id in order
    requires forall id | id in todos :: todos[id].id == id
    requires t.id !in todos && todos' == todos[t.id := t]
    ensures NoDuplicates(order + [t.id]) && AllStored(order + [t.id], todos')
    ensures forall id | id in todos' :: id in order + [t.id]
    ensures forall id | id in todos' :: todos'[id].id == id
    ensures ItemsOf(order + [t.id], todos') == ItemsOf(order, todos) + [t]
    ensures |todos'| == |todos| + 1
  {
    ItemsOfAppend(order, todos, t.id, t);
    NoDupAppend(order, t.id);
  }

  lemma NoDupAppend(s: seq<Id>, x: Id)
    requires NoDuplicates(s) && x !in s
    ensures NoDuplicates(s + [x])
  {
    var r := s + [x];
    forall i, j | 0 <= i < j < |r| ensures r[i] != r[j] {
      assert r[i] == s[i];
      if j < |s| { assert r[j] == s[j]; }
    }
  }
}
