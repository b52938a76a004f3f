/**
 * The TODO entity (models/todo.py): the three-valued status with its display
 * labels, content validation with Python's `str.strip()`, construction with
 * defaults, and the `dict()` rendering.
 */
module Todo {
  import opened Wrappers
  import opened DateTimes

  /** Item identifiers are opaque strings (`str(uuid4())` in the source). */
  type Id = string

  // ---------------------------------------------------------------------------
  // Status

  datatype TodoStatus = Scheduled | InProgress | Completed {
    /** The enum's string value, which is also what is shown and serialized. */
    function Label(): string {
      match this
      case Scheduled => "예정"
      case InProgress => "진행중"
      case Completed => "완료"
    }
  }

  /** `TodoStatus(label)`: the member whose value is `text`, if any. */
  function StatusFromLabel(text: string): (r: Option<TodoStatus>)
    ensures r.Some? ==> r.value.Label() == text
  {
    if text == "예정" then Some(Scheduled)
    else if text == "진행중" then Some(InProgress)
    else if text == "완료" then Some(Completed)
    else None
  }

  /** Every status is found again from its label, so the three labels are distinct. */
  lemma StatusLabelRoundTrip(s: TodoStatus)
    ensures StatusFromLabel(s.Label()) == Some(s)
  {
    match s
    case Scheduled =>
    case InProgress =>
      assert "진행중" != "예정";
    case Completed =>
      assert "완료" != "예정";
      assert "완료" != "진행중";
  }

  // ---------------------------------------------------------------------------
  // Whitespace and strip()

  /** The characters Python's `str.isspace()` accepts, which `str.strip()` removes. */
  predicate IsWhitespace(c: char) {
    || ('\t' <= c <= '\r')
    || ('\U{1C}' <= c <= ' ')
    || c == '\U{85}' || c == '\U{A0}' || c == '\U{1680}'
    || ('\U{2000}' <= c <= '\U{200A}')
    || c == '\U{2028}' || c == '\U{2029}' || c == '\U{202F}' || c == '\U{205F}' || c == '\U{3000}'
  }

  predicate AllWhitespace(s: string) {
    forall i | 0 <= i < |s| :: IsWhitespace(s[i])
  }

  /** Neither end of `s` is a whitespace character. */
  predicate IsTrimmed(s: string) {
    s == [] || (!IsWhitespace(s[0]) && !IsWhitespace(s[|s| - 1]))
  }

  /** `s` without its leading whitespace: the longest suffix that does not start with whitespace. */
  function TrimStart(s: string): (r: string)
    ensures |r| <= |s| && r == s[|s| - |r|..]
    ensures forall i | 0 <= i < |s| - |r| :: IsWhitespace(s[i])
    ensures r == [] || !IsWhitespace(r[0])
  {
    if s != [] && IsWhitespace(s[0]) then
      var r := TrimStart(s[1..]);
      assert forall i | 0 < i < |s| :: s[i] == s[1..][i - 1];
      r
    else s
  }

  /** `s` without its trailing whitespace: the longest prefix that does not end with whitespace. */
  function TrimEnd(s: string): (r: string)
    ensures |r| <= |s| && r == s[..|r|]
    ensures forall i | |r| <= i < |s| :: IsWhitespace(s[i])
    ensures r == [] || !IsWhitespace(r[|r| - 1])
  {
    if s != [] && IsWhitespace(s[|s| - 1]) then
      var r := TrimEnd(s[..|s| - 1]);
      assert forall i | 0 <= i < |s| - 1 :: s[i] == s[..|s| - 1][i];
      r
    else s
  }

  /** Python's `s.strip()`. */
  function Strip(s: string): (r: string)
    ensures IsTrimmed(r)
    ensures r == [] <==> AllWhitespace(s)
    ensures |r| <= |s|
  {
    var t := TrimStart(s);
    var r := TrimEnd(t);
    assert r != [] ==> r[0] == t[0];
    StripEmptyIffBlank(s, t, r);
    r
  }

  lemma StripEmptyIffBlank(s: string, t: string, r: string)
    requires t == TrimStart(s) && r == TrimEnd(t)
    ensures r == [] <==> AllWhitespace(s)
  {
    if r == [] {
      // t cannot be all whitespace and start with a non-whitespace character at once.
      assert t == [];
    } else {
      assert r[0] == t[0] == s[|s| - |t|];
    }
  }

  /** Stripping a stripped string changes nothing. */
  lemma StripIdempotent(s: string)
    ensures Strip(Strip(s)) == Strip(s)
  {
    var r := Strip(s);
    assert TrimStart(r) == r;
    assert TrimEnd(r) == r;
  }

  /** A string that already has no whitespace at either end is its own strip. */
  lemma StripOfTrimmed(s: string)
    requires IsTrimmed(s)
    ensures Strip(s) == s
  {
    assert TrimStart(s) == s;
  }

  // ---------------------------------------------------------------------------
  // Validation

  /** The ValueError raised by the content validator. */
  datatype ValidationError = BlankContent {
    function Message(): string {
      "TODO 내용은 비울 수 없습니다."
    }
  }

  /** `validate_content`: the stripped content, or an error when nothing but whitespace is left. */
  function ValidateContent(v: string): (r: Result<string, ValidationError>)
    ensures r.Success? <==> !AllWhitespace(v)
    ensures r.Success? ==> r.value == Strip(v) && r.value != [] && IsTrimmed(r.value)
    ensures r.Failure? ==> r.error == BlankContent
  {
    if |v| == 0 || Strip(v) == [] then Failure(BlankContent) else Success(Strip(v))
  }

  /** Validating content that was already accepted gives it back unchanged. */
  lemma ValidateContentIdempotent(v: string)
    requires ValidateContent(v).Success?
    ensures ValidateContent(ValidateContent(v).value) == ValidateContent(v)
  {
    StripIdempotent(v);
  }

  lemma {:induction false} TrimStartSkipsBlanks(w: string, x: string)
    requires AllWhitespace(w)
    ensures TrimStart(w + x) == TrimStart(x)
  {
    if w == [] {
      assert w + x == x;
    } else {
      var v := w[1..];
      assert forall i | 0 <= i < |v| :: v[i] == w[i + 1];
      assert (w + x)[0] == w[0] && (w + x)[1..] == v + x;
      TrimStartSkipsBlanks(v, x);
    }
  }

  lemma {:induction false} TrimEndSkipsBlanks(x: string, w: string)
    requires AllWhitespace(w)
    ensures TrimEnd(x + w) == TrimEnd(x)
  {
    if w == [] {
      assert x + w == x;
    } else {
      var v := w[..|w| - 1];
      assert forall i | 0 <= i < |v| :: v[i] == w[i];
      assert (x + w)[|x + w| - 1] == w[|w| - 1] && (x + w)[..|x + w| - 1] == x + v;
      TrimEndSkipsBlanks(x, v);
    }
  }

  /** Strip removes exactly the whitespace around a string that has none at its ends. */
  lemma StripSurrounded(before: string, core: string, after: string)
    requires AllWhitespace(before) && AllWhitespace(after) && IsTrimmed(core)
    ensures Strip(before + core + after) == core
  {
    var s := before + core + after;
    if core == [] {
      assert AllWhitespace(s) by {
        forall i | 0 <= i < |s| ensures IsWhitespace(s[i]) {
          if i < |before| { assert s[i] == before[i]; } else { assert s[i] == after[i - |before|]; }
        }
      }
    } else {
      assert s == before + (core + after);
      TrimStartSkipsBlanks(before, core + after);
      assert (core + after)[0] == core[0];
      assert TrimStart(core + after) == core + after;
      TrimEndSkipsBlanks(core, after);
      StripOfTrimmed(core);
    }
  }

  /** The example from the test suite: surrounding blanks are removed. */
  lemma ValidateContentTrimsExample()
    ensures ValidateContent("  테스트  ") == Success("테스트")
  {
    assert "  테스트  " == "  " + "테스트" + "  ";
    StripSurrounded("  ", "테스트", "  ");
  }

  /** The empty string and a run of spaces are both rejected. */
  lemma ValidateContentRejectsBlankExamples()
    ensures ValidateContent("") == Failure(BlankContent)
    ensures ValidateContent("   ") == Failure(BlankContent)
  {
    assert AllWhitespace("   ");
  }

  // ---------------------------------------------------------------------------
  // The item

  datatype TodoItem = TodoItem(
    id: Id,
    content: string,
    targetDate: DateTime,
    status: TodoStatus,
    createdAt: DateTime,
    updatedAt: DateTime)
  {
    /**
     * `TodoItem.dict()`: every field, the three dates as ISO strings and the
     * status as its label (the model stores enum values).
     */
    function Dict(): (d: map<string, string>)
      ensures d.Keys == {"id", "content", "target_date", "status", "created_at", "updated_at"}
      ensures d["id"] == id && d["content"] == content && d["status"] == status.Label()
      ensures d["target_date"] == IsoFormat(targetDate)
      ensures d["created_at"] == IsoFormat(createdAt) && d["updated_at"] == IsoFormat(updatedAt)
    {
      FieldMap(id, content, IsoFormat(targetDate), status.Label(), IsoFormat(createdAt), IsoFormat(updatedAt))
    }
  }

  /** The six-key string dict both `TodoItem.dict()` and the serializer build. */
  function FieldMap(id: string, content: string, targetDate: string, status: string,
                    createdAt: string, updatedAt: string): (d: map<string, string>)
    ensures d.Keys == {"id", "content", "target_date", "status", "created_at", "updated_at"}
    ensures d["id"] == id && d["content"] == content && d["target_date"] == targetDate
    ensures d["status"] == status && d["created_at"] == createdAt && d["updated_at"] == updatedAt
  {
    // The keys differ in length, except the last two, which differ in their first letter.
    assert |"id"| == 2 && |"content"| == 7 && |"target_date"| == 11 && |"status"| == 6;
    assert |"created_at"| == 10 && |"updated_at"| == 10 && "created_at"[0] != "updated_at"[0];
    map["id" := id, "content" := content, "target_date" := targetDate,
        "status" := status, "created_at" := createdAt, "updated_at" := updatedAt]
  }

  /** The item's content is what validation would store for it. */
  predicate HasValidContent(t: TodoItem) {
    ValidateContent(t.content) == Success(t.content)
  }

  /**
   * `TodoItem(content=..., target_date=..., status=...)`. The fresh id and the
   * two clock readings (the two `datetime.now()` default factories, called in
   * field order) are inputs. Any date-time is accepted as target date.
   */
  function NewTodoItem(freshId: Id, content: string, targetDate: DateTime,
                       createdClock: DateTime, updatedClock: DateTime,
                       status: TodoStatus := Scheduled): (r: Result<TodoItem, ValidationError>)
    ensures r.Success? <==> !AllWhitespace(content)
    ensures r.Failure? ==> r.error == BlankContent
    ensures r.Success? ==>
      && r.value.id == freshId
      && r.value.content == Strip(content)
      && r.value.targetDate == targetDate
      && r.value.status == status
      && r.value.createdAt == createdClock
      && r.value.updatedAt == updatedClock
      && HasValidContent(r.value)
  {
    match ValidateContent(content)
    case Failure(e) => Failure(e)
    case Success(c) =>
      ValidateContentIdempotent(content);
      Success(TodoItem(freshId, c, targetDate, status, createdClock, updatedClock))
  }

  /**
   * With a clock that does not go backwards between the two readings, a new
   * item is not updated before it is created. The clock readings themselves
   * are free inputs, so this holds only under that assumption.
   */
  lemma NewTodoItemTimestampsOrdered(freshId: Id, content: string, targetDate: DateTime,
                                     createdClock: DateTime, updatedClock: DateTime, status: TodoStatus)
    requires !AllWhitespace(content) && NotAfter(createdClock, updatedClock)
    ensures NotAfter(NewTodoItem(freshId, content, targetDate, createdClock, updatedClock, status).value.createdAt,
                     NewTodoItem(freshId, content, targetDate, createdClock, updatedClock, status).value.updatedAt)
  {
  }

  /** Omitting the status gives a Scheduled item. */
  lemma DefaultStatusIsScheduled(freshId: Id, content: string, targetDate: DateTime, c1: DateTime, c2: DateTime)
    requires !AllWhitespace(content)
    ensures NewTodoItem(freshId, content, targetDate, c1, c2).value.status == Scheduled
  {
  }
}
