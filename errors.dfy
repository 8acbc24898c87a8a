/**
 * The listener's error value: an operation label and an optional cause,
 * rendered as "listener error <op>" or "listener error <op>: <cause>".
 * The cause is carried as the text it renders to with `%v`.
 */
module Errors {
  import opened Wrappers

  datatype ListenerError = ListenerError(op: string, cause: Option<string>)

  const Prefix: string := "listener error "

  /** `(*Error).Error`. */
  function Render(e: ListenerError): (s: string)
    ensures |Prefix| + |e.op| <= |s| && s[..|Prefix|] == Prefix
    ensures s[|Prefix|..|Prefix| + |e.op|] == e.op
    ensures e.cause.None? ==> |s| == |Prefix| + |e.op|
    ensures e.cause.Some? ==> s[|Prefix| + |e.op|..] == ": " + e.cause.value
  {
    match e.cause
    case Some(c) => Prefix + e.op + ": " + c
    case None => Prefix + e.op
  }

  /** `(*Error).Unwrap`: the stored cause, none for an error built without one. */
  function Unwrap(e: ListenerError): (c: Option<string>)
    ensures c == e.cause
    ensures c.None? <==> Render(e) == Prefix + e.op
  {
    e.cause
  }

  /** For one operation, the rendering without a cause is a strict prefix of any rendering with one. */
  lemma NoCauseIsStrictPrefix(op: string, cause: string)
    ensures var short, long := Render(ListenerError(op, None)), Render(ListenerError(op, Some(cause)));
            |short| < |long| && long[..|short|] == short
  {
    var short, long := Render(ListenerError(op, None)), Render(ListenerError(op, Some(cause)));
    assert long == short + ": " + cause;
  }

  /** Two errors with the same cause render alike only when their operations are the same. */
  lemma RenderDeterminesOp(a: ListenerError, b: ListenerError)
    requires a.cause == b.cause
    requires Render(a) == Render(b)
    ensures a.op == b.op
  {
    var sa := Render(a);
    if a.cause.Some? {
      assert |sa| == |Prefix| + |a.op| + 2 + |a.cause.value|;
    }
    assert a.op == sa[|Prefix|..|Prefix| + |a.op|];
  }

  /** Two errors with the same operation render alike only when their causes are the same. */
  lemma RenderDeterminesCause(a: ListenerError, b: ListenerError)
    requires a.op == b.op
    requires Render(a) == Render(b)
    ensures a.cause == b.cause
  {
    var n := |Prefix| + |a.op|;
    var s := Render(a);
    if a.cause.Some? && b.cause.Some? {
      assert ": " + a.cause.value == s[n..] == ": " + b.cause.value;
      assert a.cause.value == (": " + a.cause.value)[2..];
    }
  }
}
