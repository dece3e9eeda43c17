/**
 The evaluation result `Value`, the per-run execution `State`, and the two
 `ErrorAbort` entry points that record a failure in a `State`.
 */
module EdifyState {
  import opened Wrappers

  /** Tag of a Value: text, or binary payload. */
  datatype ValueType = StringType | BlobType

  /** The result of a successful evaluation: a tagged text-or-binary buffer. */
  datatype Value = Value(kind: ValueType, data: string)

  /** A text Value holding `s`. */
  function StringValue(s: string): (v: Value)
    ensures v.kind == StringType && v.data == s
  {
    Value(StringType, s)
  }

  /** The truthiness convention: empty text is false, anything else is true. */
  predicate IsTruthy(v: Value) {
    v.data != ""
  }

  /** What boolean-producing builtins return: exactly "t" for true, "" for false. */
  function BoolValue(b: bool): (v: Value)
    ensures v.kind == StringType
    ensures v.data == "t" || v.data == ""
    ensures IsTruthy(v) <==> b
  {
    StringValue(if b then "t" else "")
  }

  /** Failure classification; the host maps a `Cause` to its own codes. */
  datatype CauseCode = NoCause | Cause(code: int)

  /** The opaque host context handed to every builtin and never inspected here. */
  datatype Cookie = Cookie(handle: nat)

  /** The per-run execution context. */
  datatype State = State(script: string, cookie: Cookie, errmsg: string, cause: CauseCode)

  /** A run is aborted once its error message is non-empty. */
  predicate Aborted(s: State) {
    s.errmsg != ""
  }

  /** `State::State`: keeps the script and cookie, starts with no error and no cause. */
  function NewState(script: string, cookie: Cookie): (s: State)
    ensures s.script == script && s.cookie == cookie
    ensures s.errmsg == "" && s.cause == NoCause
    ensures !Aborted(s)
  {
    State(script, cookie, "", NoCause)
  }

  /**
   Message-only `ErrorAbort`: appends the (already formatted) message to the
   error text, leaves everything else alone and yields no Value.
   */
  function ErrorAbort(s: State, message: string): (r: (State, Option<Value>))
    ensures r.1 == None
    ensures r.0.errmsg == s.errmsg + message
    ensures r.0.cause == s.cause
    ensures r.0.script == s.script && r.0.cookie == s.cookie
  {
    (s.(errmsg := s.errmsg + message), None)
  }

  /**
   `ErrorAbort` with a cause code: appends the message like the message-only
   form, and also records the given cause.
   */
  function ErrorAbortCause(s: State, cause: CauseCode, message: string): (r: (State, Option<Value>))
    ensures r.1 == None
    ensures r.0.errmsg == s.errmsg + message
    ensures r.0.cause == cause
    ensures r.0.script == s.script && r.0.cookie == s.cookie
  {
    (s.(errmsg := s.errmsg + message, cause := cause), None)
  }

  /** The message-only form is the cause form that re-records the current cause. */
  lemma ErrorAbortIsCauseFormWithCurrentCause(s: State, message: string)
    ensures ErrorAbort(s, message) == ErrorAbortCause(s, s.cause, message)
  {
  }

  /**
   Aborting never loses earlier text: the previous message stays a prefix, an
   aborted run stays aborted, and a non-empty message always aborts.
   */
  lemma ErrorAbortKeepsEarlierMessage(s: State, cause: CauseCode, message: string)
    ensures s.errmsg <= ErrorAbort(s, message).0.errmsg
    ensures s.errmsg <= ErrorAbortCause(s, cause, message).0.errmsg
    ensures Aborted(s) || message != "" <==> Aborted(ErrorAbort(s, message).0)
    ensures Aborted(s) || message != "" <==> Aborted(ErrorAbortCause(s, cause, message).0)
  {
  }

  /** Two aborts in a row leave both messages, in call order, and the later cause. */
  lemma ErrorAbortsAccumulate(s: State, c1: CauseCode, m1: string, c2: CauseCode, m2: string)
    ensures ErrorAbort(ErrorAbort(s, m1).0, m2).0.errmsg == s.errmsg + m1 + m2
    ensures ErrorAbortCause(ErrorAbortCause(s, c1, m1).0, c2, m2).0
         == s.(errmsg := s.errmsg + m1 + m2, cause := c2)
    ensures ErrorAbort(ErrorAbortCause(s, c1, m1).0, m2).0.cause == c1
  {
    assert s.errmsg + m1 + m2 == (s.errmsg + m1) + m2;
  }
}
