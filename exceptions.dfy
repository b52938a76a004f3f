/**
 * The domain errors of models/exceptions.py. The base class TodoException is
 * this datatype itself; each subclass is one variant carrying its message.
 */
module Exceptions {
  import opened Todo

  datatype TodoError =
    | TodoNotFound(message: string)
    | InvalidTodo(message: string)
    /** Declared by the source but raised nowhere in the core. */
    | TodoValidation(message: string)

  /** The message the service attaches to every miss on an id. */
  function NotFoundMessage(id: Id): (m: string)
    ensures |m| > |id| + 4 && m[4..4 + |id|] == id
    ensures m[3] == '\'' && m[4 + |id|] == '\''
  {
    "ID '" + id + "'인 TODO를 찾을 수 없습니다"
  }

  /** Misses on different ids are reported with different messages. */
  lemma NotFoundMessageInjective(a: Id, b: Id)
    requires NotFoundMessage(a) == NotFoundMessage(b)
    ensures a == b
  {
    var m := NotFoundMessage(a);
    assert |m| == |a| + 4 + |"'인 TODO를 찾을 수 없습니다"|;
    assert |NotFoundMessage(b)| == |b| + 4 + |"'인 TODO를 찾을 수 없습니다"|;
  }

  /** The message for a rejected create: the fixed prefix followed by the validator's message. */
  function CreateFailedMessage(e: ValidationError): (m: string)
    ensures |m| > |e.Message()| && m[|m| - |e.Message()|..] == e.Message()
  {
    "TODO 생성 실패: " + e.Message()
  }

  /** The message for a rejected update: its own fixed prefix followed by the validator's message. */
  function UpdateFailedMessage(e: ValidationError): (m: string)
    ensures |m| > |e.Message()| && m[|m| - |e.Message()|..] == e.Message()
  {
    "TODO 수정 실패: " + e.Message()
  }

  /** A rejected create and a rejected update are reported differently. */
  lemma FailedMessagesDiffer(e: ValidationError)
    ensures CreateFailedMessage(e) != UpdateFailedMessage(e)
  {
    assert CreateFailedMessage(e)[5] == '생' && UpdateFailedMessage(e)[5] == '수';
  }
}
