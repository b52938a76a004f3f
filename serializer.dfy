/**
 * models/serializer.py: total, side-effect-free renderings of an item as the
 * TodoResponse record (models/dtos.py) and as the string dict the HTTP layer
 * sends, with the date-times as ISO text and the status as its label.
 */
module Serializer {
  import opened Wrappers
  import opened DateTimes
  import opened Todo

  /** The TodoResponse DTO: six string fields. */
  datatype TodoResponse = TodoResponse(
    id: string,
    content: string,
    targetDate: string,
    status: string,
    createdAt: string,
    updatedAt: string)

  /**
   * `to_response`: id and content verbatim, the status as its label and each
   * date-time as ISO text that reads back as that date-time.
   */
  function ToResponse(t: TodoItem): (r: TodoResponse)
    ensures r.id == t.id && r.content == t.content
    ensures StatusFromLabel(r.status) == Some(t.status)
    ensures ParseIso(r.targetDate) == Some(t.targetDate)
    ensures ParseIso(r.createdAt) == Some(t.createdAt)
    ensures ParseIso(r.updatedAt) == Some(t.updatedAt)
  {
    StatusLabelRoundTrip(t.status);
    IsoRoundTrip(t.targetDate);
    IsoRoundTrip(t.createdAt);
    IsoRoundTrip(t.updatedAt);
    TodoResponse(t.id, t.content, IsoFormat(t.targetDate), t.status.Label(),
                 IsoFormat(t.createdAt), IsoFormat(t.updatedAt))
  }

  /** Reads an item back from a response; None when a date or the status does not parse. */
  function FromResponse(r: TodoResponse): (t: Option<TodoItem>)
    ensures t.Some? ==> t.value.id == r.id && t.value.content == r.content
    ensures t.Some? ==> t.value.status.Label() == r.status
  {
    var targetDate := ParseIso(r.targetDate);
    var status := StatusFromLabel(r.status);
    var createdAt := ParseIso(r.createdAt);
    var updatedAt := ParseIso(r.updatedAt);
    if targetDate.None? || status.None? || createdAt.None? || updatedAt.None? then None
    else Some(TodoItem(r.id, r.content, targetDate.value, status.value, createdAt.value, updatedAt.value))
  }

  /** A response loses nothing: the item is read back from it in full. */
  lemma ResponseRoundTrip(t: TodoItem)
    ensures FromResponse(ToResponse(t)) == Some(t)
  {
  }

  /** Different items give different responses. */
  lemma ToResponseInjective(a: TodoItem, b: TodoItem)
    requires ToResponse(a) == ToResponse(b)
    ensures a == b
  {
    ResponseRoundTrip(a);
    ResponseRoundTrip(b);
  }

  /**
   * `to_dict`: the six keys with the same values as the response, which is
   * also what the item's own `dict()` gives.
   */
  function ToDict(t: TodoItem): (d: map<string, string>)
    ensures d.Keys == {"id", "content", "target_date", "status", "created_at", "updated_at"}
    ensures d == t.Dict()
    ensures d["id"] == ToResponse(t).id && d["content"] == ToResponse(t).content
    ensures d["target_date"] == ToResponse(t).targetDate && d["status"] == ToResponse(t).status
    ensures d["created_at"] == ToResponse(t).createdAt && d["updated_at"] == ToResponse(t).updatedAt
  {
    FieldMap(t.id, t.content, IsoFormat(t.targetDate), t.status.Label(),
             IsoFormat(t.createdAt), IsoFormat(t.updatedAt))
  }

  /** Different items give different dicts. */
  lemma ToDictInjective(a: TodoItem, b: TodoItem)
    requires ToDict(a) == ToDict(b)
    ensures a == b
  {
    var da, db := ToDict(a), ToDict(b);
    assert ToResponse(a) == TodoResponse(da["id"], da["content"], da["target_date"], da["status"],
                                         da["created_at"], da["updated_at"]);
    assert ToResponse(b) == TodoResponse(db["id"], db["content"], db["target_date"], db["status"],
                                         db["created_at"], db["updated_at"]);
    ToResponseInjective(a, b);
  }

  /** `to_list`: one dict per item, in the items' order. */
  function ToList(todos: seq<TodoItem>): (r: seq<map<string, string>>)
    ensures |r| == |todos|
    ensures forall i | 0 <= i < |todos| :: r[i] == ToDict(todos[i])
  {
    MapEach(todos, ToDict)
  }

  /** The list of `f` applied to each element, in order. */
  function MapEach<A, B>(s: seq<A>, f: A -> B): (r: seq<B>)
    ensures |r| == |s|
    ensures forall i | 0 <= i < |s| :: r[i] == f(s[i])
  {
    if s == [] then [] else [f(s[0])] + MapEach(s[1..], f)
  }

  lemma {:induction false} MapEachAppend<A, B>(a: seq<A>, b: seq<A>, f: A -> B)
    ensures MapEach(a + b, f) == MapEach(a, f) + MapEach(b, f)
  {
    if a == [] {
      assert a + b == b;
    } else {
      assert (a + b)[1..] == a[1..] + b;
      MapEachAppend(a[1..], b, f);
    }
  }

  /** Listing a concatenation lists each part in turn. */
  lemma ToListAppend(a: seq<TodoItem>, b: seq<TodoItem>)
    ensures ToList(a + b) == ToList(a) + ToList(b)
  {
    MapEachAppend(a, b, ToDict);
  }
}
