/**
 * The business layer of models/service.py: it delegates to an injected
 * repository, turns the repository's absence results (None, False) into
 * TodoNotFound and validation failures into InvalidTodo, and computes the
 * statistics from the status filters.
 */
module Service {
  import opened Wrappers
  import opened DateTimes
  import opened Todo
  import opened Exceptions
  import opened Ordering
  import opened Repository

  /** The dict `get_statistics` returns. */
  datatype Statistics = Statistics(total: nat, scheduled: nat, inProgress: nat, completed: nat)

  class TodoService {
    /** `self._repository`, injected by the caller and never replaced. */
    const repository: TodoRepository

    constructor (repository: TodoRepository)
      ensures this.repository == repository
    {
      this.repository := repository;
    }

    /** `create_todo`: the repository's new item, or InvalidTodo when validation rejects the content. */
    method CreateTodo(content: string, targetDate: DateTime, freshId: Id,
                      createdClock: DateTime, updatedClock: DateTime,
                      status: TodoStatus := Scheduled) returns (r: Result<TodoItem, TodoError>)
      requires repository.Valid()
      requires freshId !in repository.todos
      modifies repository
      ensures repository.Valid()
      ensures r.Success? <==> !AllWhitespace(content)
      ensures r.Success? ==>
        && NewTodoItem(freshId, content, targetDate, createdClock, updatedClock, status) == Success(r.value)
        && repository.todos == old(repository.todos)[freshId := r.value]
        && repository.order == old(repository.order) + [freshId]
        && repository.GetAll() == old(repository.GetAll()) + [r.value]
      ensures r.Failure? ==>
        && r.error == InvalidTodo(CreateFailedMessage(BlankContent))
        && repository.todos == old(repository.todos)
        && repository.order == old(repository.order)
    {
      var created := repository.Create(content, targetDate, freshId, createdClock, updatedClock, status);
      match created
      case Success(t) =>
        r := Success(t);
      case Failure(e) =>
        r := Failure(InvalidTodo(CreateFailedMessage(e)));
    }

    /** `get_all_todos`: the repository's listing, one entry per stored item. */
    function GetAllTodos(): (r: seq<TodoItem>)
      reads repository
      requires repository.Valid()
      ensures r == repository.GetAll()
      ensures |r| == repository.Count()
    {
      repository.GetAll()
    }

    /** `get_todo_by_id`: the stored item, or TodoNotFound naming the id; never an absent value. */
    function GetTodoById(id: Id): (r: Result<TodoItem, TodoError>)
      reads repository
      ensures r.Success? <==> id in repository.todos
      ensures r.Success? ==> r.value == repository.todos[id]
      ensures r.Failure? ==> r.error == TodoNotFound(NotFoundMessage(id))
    {
      match repository.GetById(id)
      case None => Failure(TodoNotFound(NotFoundMessage(id)))
      case Some(t) => Success(t)
    }

    /** `get_todos_by_status`: the repository's filter. */
    function GetTodosByStatus(s: TodoStatus): (r: seq<TodoItem>)
      reads repository
      requires repository.Valid()
      ensures r == repository.GetByStatus(s)
      ensures forall t | t in r :: t.status == s
    {
      repository.GetByStatus(s)
    }

    /**
     * `update_todo`: the patched item, or TodoNotFound (with nothing changed)
     * for an unknown id. The repository's update cannot raise, so the source's
     * InvalidTodo branch is never taken.
     */
    method UpdateTodo(id: Id, now: DateTime, content: Option<string> := None,
                      targetDate: Option<DateTime> := None, status: Option<TodoStatus> := None)
      returns (r: Result<TodoItem, TodoError>)
      requires repository.Valid()
      modifies repository
      ensures repository.Valid()
      ensures repository.order == old(repository.order)
      ensures r.Success? <==> id in old(repository.todos)
      ensures r.Failure? ==> r.error == TodoNotFound(NotFoundMessage(id)) && repository.todos == old(repository.todos)
      ensures r.Success? ==>
        && r.value == Patched(old(repository.todos)[id], now, content, targetDate, status)
        && repository.todos == old(repository.todos)[id := r.value]
    {
      var updated := repository.Update(id, now, content, targetDate, status);
      if updated.None? {
        r := Failure(TodoNotFound(NotFoundMessage(id)));
      } else {
        r := Success(updated.value);
      }
    }

    /**
     * `update_todo` over the corrected repository update: TodoNotFound for an
     * unknown id; a validation failure becomes InvalidTodo with the
     * "TODO 수정 실패: " message, as the service's `except ValueError` branch
     * intends; nothing changes unless the update succeeds.
     */
    method UpdateTodoValidated(id: Id, now: DateTime, content: Option<string> := None,
                               targetDate: Option<DateTime> := None, status: Option<TodoStatus> := None)
      returns (r: Result<TodoItem, TodoError>)
      requires repository.Valid()
      modifies repository
      ensures repository.Valid()
      ensures repository.order == old(repository.order)
      ensures id !in old(repository.todos) ==>
        r == Failure(TodoNotFound(NotFoundMessage(id))) && repository.todos == old(repository.todos)
      ensures id in old(repository.todos) ==>
        match ValidatedPatch(old(repository.todos)[id], now, content, targetDate, status)
        case Success(t) => r == Success(t) && repository.todos == old(repository.todos)[id := t]
        case Failure(e) => r == Failure(InvalidTodo(UpdateFailedMessage(e))) && repository.todos == old(repository.todos)
      ensures r.Failure? && r.error.InvalidTodo? <==>
        id in old(repository.todos) && content.Some? && AllWhitespace(content.value)
    {
      var updated := repository.UpdateValidated(id, now, content, targetDate, status);
      match updated
      case None =>
        r := Failure(TodoNotFound(NotFoundMessage(id)));
      case Some(Success(t)) =>
        r := Success(t);
      case Some(Failure(e)) =>
        r := Failure(InvalidTodo(UpdateFailedMessage(e)));
    }

    /** `delete_todo`: True when the item was removed; an unknown id is TodoNotFound, never False. */
    method DeleteTodo(id: Id) returns (r: Result<bool, TodoError>)
      requires repository.Valid()
      modifies repository
      ensures repository.Valid()
      ensures r.Success? <==> id in old(repository.todos)
      ensures r.Success? ==> r.value
      ensures r.Failure? ==> r.error == TodoNotFound(NotFoundMessage(id))
      ensures repository.todos == old(repository.todos) - {id}
      ensures repository.order == Without(old(repository.order), id)
    {
      var removed := repository.Delete(id);
      if !removed {
        r := Failure(TodoNotFound(NotFoundMessage(id)));
      } else {
        r := Success(true);
      }
    }

    /**
     * `get_statistics`: the total is the length of the full listing, each
     * status count the length of that status's filter, and the three status
     * counts add up to the total.
     */
    function GetStatistics(): (st: Statistics)
      reads repository
      requires repository.Valid()
      ensures st.total == |GetAllTodos()| == repository.Count()
      ensures st.scheduled == |GetTodosByStatus(Scheduled)|
      ensures st.inProgress == |GetTodosByStatus(InProgress)|
      ensures st.completed == |GetTodosByStatus(Completed)|
      ensures st.scheduled + st.inProgress + st.completed == st.total
    {
      var all := GetAllTodos();
      StatusFiltersPartition(all);
      Statistics(|all|, |GetTodosByStatus(Scheduled)|, |GetTodosByStatus(InProgress)|,
                 |GetTodosByStatus(Completed)|)
    }

    /**
     * `reorder_todos`: hands the list to the repository's `set_order`. A list
     * naming every stored id once becomes the listing order exactly.
     */
    method ReorderTodos(requested: seq<Id>)
      requires repository.Valid()
      modifies repository
      ensures repository.Valid()
      ensures repository.todos == old(repository.todos)
      ensures repository.order == Reordered(old(repository.order), requested)
      ensures NoDuplicates(requested) && (forall id :: id in requested <==> id in old(repository.todos)) ==>
        |GetAllTodos()| == |requested| && forall i | 0 <= i < |requested| :: GetAllTodos()[i].id == requested[i]
    {
      repository.SetOrder(requested);
    }

    /** `sort_by_date`: sorts the repository and returns the new listing, whose target dates never decrease. */
    method SortByDate() returns (r: seq<TodoItem>)
      requires repository.Valid()
      modifies repository
      ensures repository.Valid()
      ensures repository.todos == old(repository.todos)
      ensures multiset(repository.order) == multiset(old(repository.order))
      ensures DateOrdered(repository.order, repository.todos)
      ensures r == repository.GetAll()
      ensures |r| == old(repository.Count())
      ensures forall i, j | 0 <= i < j < |r| :: NotAfter(r[i].targetDate, r[j].targetDate)
    {
      repository.SortByDate();
      r := repository.GetAll();
    }

    /** `clear_all_todos`: empties the repository. */
    method ClearAllTodos()
      requires repository.Valid()
      modifies repository
      ensures repository.Valid()
      ensures repository.Count() == 0 && repository.order == []
    {
      repository.ClearAll();
    }

    /** `get_todo_count`: the repository's count, which is the listing's length. */
    function GetTodoCount(): (n: nat)
      reads repository
      requires repository.Valid()
      ensures n == repository.Count() == |GetAllTodos()|
    {
      repository.Count()
    }
  }

  // ---------------------------------------------------------------------------
  // The service scenarios of the test suite, on a fresh repository. Ids and
  // clock readings are inputs; the ids only need to be distinct.

  /** One `create_todo` call of a scenario, whose content is a single digit and so never rejected. */
  method CreateDigit(service: TodoService, digit: char, date: DateTime, id: Id,
                     clock: DateTime, status: TodoStatus) returns (t: TodoItem)
    requires '0' <= digit <= '9'
    requires service.repository.Valid() && id !in service.repository.todos
    modifies service.repository
    ensures service.repository.Valid()
    ensures service.repository.todos == old(service.repository.todos)[id := t]
    ensures service.repository.order == old(service.repository.order) + [id]
    ensures t.id == id && t.targetDate == date && t.status == status
  {
    assert [digit][0] == digit;
    var r := service.CreateTodo([digit], date, id, clock, clock, status);
    t := r.value;
  }

  /** Two `create_todo` calls in a row. */
  method CreateTwo(service: TodoService, a: Id, da: DateTime, sa: TodoStatus,
                   b: Id, db: DateTime, sb: TodoStatus, clock: DateTime) returns (ta: TodoItem, tb: TodoItem)
    requires service.repository.Valid() && a !in service.repository.todos && b !in service.repository.todos
    requires a != b
    modifies service.repository
    ensures service.repository.Valid()
    ensures service.repository.todos == old(service.repository.todos)[a := ta][b := tb]
    ensures service.repository.order == old(service.repository.order) + [a, b]
    ensures ta.id == a && ta.targetDate == da && ta.status == sa
    ensures tb.id == b && tb.targetDate == db && tb.status == sb
  {
    ta := CreateDigit(service, '1', da, a, clock, sa);
    tb := CreateDigit(service, '2', db, b, clock, sb);
    assert service.repository.order == old(service.repository.order) + [a] + [b];
  }

  /** A fresh service after two creates. */
  method TwoItemService(a: Id, da: DateTime, sa: TodoStatus, b: Id, db: DateTime, sb: TodoStatus, clock: DateTime)
    returns (service: TodoService)
    requires a != b
    ensures fresh(service.repository)
    ensures service.repository.Valid() && service.repository.order == [a, b]
    ensures service.repository.todos.Keys == {a, b}
    ensures service.repository.todos[a].targetDate == da && service.repository.todos[a].status == sa
    ensures service.repository.todos[b].targetDate == db && service.repository.todos[b].status == sb
  {
    var repo := new TodoRepository();
    service := new TodoService(repo);
    var ta, tb := CreateTwo(service, a, da, sa, b, db, sb, clock);
  }

  /** A fresh service after four creates with the given ids, dates and statuses. */
  method FourItemService(date: DateTime, clock: DateTime, a: Id, b: Id, c: Id, d: Id,
                         sa: TodoStatus, sb: TodoStatus, sc: TodoStatus, sd: TodoStatus)
    returns (service: TodoService)
    requires a != b && a != c && a != d && b != c && b != d && c != d
    ensures fresh(service.repository)
    ensures service.repository.Valid() && service.repository.order == [a, b, c, d]
    ensures service.repository.todos[a].status == sa && service.repository.todos[b].status == sb
    ensures service.repository.todos[c].status == sc && service.repository.todos[d].status == sd
  {
    service := TwoItemService(a, date, sa, b, date, sb, clock);
    var t3, t4 := CreateTwo(service, c, date, sc, d, date, sd, clock);
    assert service.repository.order == [a, b] + [c, d];
  }

  /** Two scheduled items, one in progress and one completed give statistics 4, 2, 1, 1. */
  method StatisticsScenario(date: DateTime, clock: DateTime, a: Id, b: Id, c: Id, d: Id)
    returns (st: Statistics)
    requires a != b && a != c && a != d && b != c && b != d && c != d
    ensures st == Statistics(4, 2, 1, 1)
  {
    var service := FourItemService(date, clock, a, b, c, d, Scheduled, Scheduled, InProgress, Completed);
    FourStoredStatuses(service.repository, a, b, c, d);
    st := service.GetStatistics();
  }

  lemma FourStoredStatuses(repo: TodoRepository, a: Id, b: Id, c: Id, d: Id)
    requires repo.Valid() && repo.order == [a, b, c, d]
    requires repo.todos[a].status == Scheduled && repo.todos[b].status == Scheduled
    requires repo.todos[c].status == InProgress && repo.todos[d].status == Completed
    ensures |FilterStatus(repo.GetAll(), Scheduled)| == 2
    ensures |FilterStatus(repo.GetAll(), InProgress)| == 1
    ensures |FilterStatus(repo.GetAll(), Completed)| == 1
  {
    var all := repo.GetAll();
    assert all[0].status == Scheduled && all[1].status == Scheduled;
    assert all[2].status == InProgress && all[3].status == Completed;
    FourStatuses(all);
  }

  lemma FourStatuses(all: seq<TodoItem>)
    requires |all| == 4
    requires all[0].status == Scheduled && all[1].status == Scheduled
    requires all[2].status == InProgress && all[3].status == Completed
    ensures |FilterStatus(all, Scheduled)| == 2
    ensures |FilterStatus(all, InProgress)| == 1
    ensures |FilterStatus(all, Completed)| == 1
  {
    var s1, s2, s3 := all[1..], all[2..], all[3..];
    assert s1[1..] == s2 && s2[1..] == s3 && s3[1..] == [];
    assert FilterStatus(s3, Scheduled) == [] && FilterStatus(s3, InProgress) == [];
    assert FilterStatus(s3, Completed) == [s3[0]];
    assert |FilterStatus(s2, Scheduled)| == 0 && |FilterStatus(s2, InProgress)| == 1;
    assert |FilterStatus(s2, Completed)| == 1;
    assert |FilterStatus(s1, Scheduled)| == 1;
  }

  /** A fresh service after three creates with the given ids and target dates. */
  method ThreeItemService(clock: DateTime, a: Id, b: Id, c: Id, da: DateTime, db: DateTime, dc: DateTime)
    returns (service: TodoService)
    requires a != b && a != c && b != c
    ensures fresh(service.repository)
    ensures service.repository.Valid() && service.repository.order == [a, b, c]
    ensures service.repository.todos.Keys == {a, b, c}
    ensures service.repository.todos[a].targetDate == da && service.repository.todos[b].targetDate == db
    ensures service.repository.todos[c].targetDate == dc
  {
    service := TwoItemService(a, da, Scheduled, b, db, Scheduled, clock);
    var t3 := CreateDigit(service, '3', dc, c, clock, Scheduled);
    assert service.repository.order == [a, b] + [c];
  }

  /** Reordering three items to (third, first, second) lists them in exactly that order. */
  method ReorderScenario(date: DateTime, clock: DateTime, a: Id, b: Id, c: Id)
    returns (ids: seq<Id>)
    requires a != b && a != c && b != c
    ensures ids == [c, a, b]
  {
    var service := ThreeItemService(clock, a, b, c, date, date, date);
    var requested := [c, a, b];
    FullRequest(service.repository, a, b, c);
    service.ReorderTodos(requested);
    var all := service.GetAllTodos();
    ids := [all[0].id, all[1].id, all[2].id];
  }

  /** The request (c, a, b) names every id of a store holding a, b and c exactly once. */
  lemma FullRequest(repo: TodoRepository, a: Id, b: Id, c: Id)
    requires a != b && a != c && b != c
    requires repo.todos.Keys == {a, b, c}
    ensures NoDuplicates([c, a, b])
    ensures forall id :: id in [c, a, b] <==> id in repo.todos
  {
  }

  /**
   * Items created with dates three, one and two steps ahead come back from
   * `sort_by_date` earliest first, each date strictly before the next.
   */
  method SortScenario(clock: DateTime, d1: DateTime, d2: DateTime, d3: DateTime, a: Id, b: Id, c: Id)
    returns (sorted: seq<TodoItem>)
    requires Before(d1, d2) && Before(d2, d3)
    requires a != b && a != c && b != c
    ensures |sorted| == 3
    ensures sorted[0].targetDate == d1 && sorted[1].targetDate == d2 && sorted[2].targetDate == d3
    ensures Before(sorted[0].targetDate, sorted[1].targetDate) && Before(sorted[1].targetDate, sorted[2].targetDate)
  {
    var service := ThreeItemService(clock, a, b, c, d3, d1, d2);
    sorted := service.SortByDate();
    ThreeStoredDates(service.repository, a, b, c, d1, d2, d3);
    BeforeIsStrict(d1, d2);
    BeforeIsStrict(d2, d3);
  }

  lemma ThreeStoredDates(repo: TodoRepository, a: Id, b: Id, c: Id, d1: DateTime, d2: DateTime, d3: DateTime)
    requires Before(d1, d2) && Before(d2, d3)
    requires a != b && a != c && b != c
    requires repo.Valid() && repo.todos.Keys == {a, b, c}
    requires repo.todos[a].targetDate == d3 && repo.todos[b].targetDate == d1 && repo.todos[c].targetDate == d2
    requires DateOrdered(repo.order, repo.todos)
    ensures |repo.GetAll()| == 3
    ensures repo.GetAll()[0].targetDate == d1 && repo.GetAll()[1].targetDate == d2
    ensures repo.GetAll()[2].targetDate == d3
  {
    OrderLengthIsCount(repo.order, repo.todos);
    assert |repo.todos.Keys| == 3;
    ThreeDates(repo.order, repo.todos, a, b, c, d1, d2, d3);
  }

  /** The target dates listed by a date-ordered arrangement of the three sort-scenario items. */
  lemma ThreeDates(order: seq<Id>, todos: map<Id, TodoItem>, a: Id, b: Id, c: Id,
                   d1: DateTime, d2: DateTime, d3: DateTime)
    requires Before(d1, d2) && Before(d2, d3)
    requires a != b && a != c && b != c
    requires todos.Keys == {a, b, c}
    requires todos[a].targetDate == d3 && todos[b].targetDate == d1 && todos[c].targetDate == d2
    requires |order| == 3 && NoDuplicates(order) && AllStored(order, todos)
    requires DateOrdered(order, todos)
    ensures todos[order[0]].targetDate == d1 && todos[order[1]].targetDate == d2
    ensures todos[order[2]].targetDate == d3
  {
    var x0, x1, x2 := todos[order[0]].targetDate, todos[order[1]].targetDate, todos[order[2]].targetDate;
    BeforeIsStrict(d1, d2);
    BeforeIsStrict(d2, d3);
    NotAfterIsTransitive(d1, d2, d3);
    BeforeIsStrict(d1, d3);
    assert x0 != x1 && x0 != x2 && x1 != x2;
    ThreeSortedDates(x0, x1, x2, d1, d2, d3);
  }

  /**
   * Three pairwise distinct dates drawn from d1 < d2 < d3 that do not decrease
   * are d1, d2 and d3 in that order.
   */
  lemma ThreeSortedDates(x0: DateTime, x1: DateTime, x2: DateTime, d1: DateTime, d2: DateTime, d3: DateTime)
    requires Before(d1, d2) && Before(d2, d3)
    requires x0 in {d1, d2, d3} && x1 in {d1, d2, d3} && x2 in {d1, d2, d3}
    requires x0 != x1 && x0 != x2 && x1 != x2
    requires NotAfter(x0, x1) && NotAfter(x1, x2)
    ensures x0 == d1 && x1 == d2 && x2 == d3
  {
    BeforeIsStrict(d1, d2);
    BeforeIsStrict(d2, d3);
    NotAfterIsTransitive(d1, d2, d3);
    BeforeIsStrict(d1, d3);
    NotAfterIsTransitive(x0, x1, x2);
    BeforeIsStrict(x0, x1);
    BeforeIsStrict(x1, x2);
    BeforeIsStrict(x0, x2);
  }
}
