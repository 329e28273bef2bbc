/** The trace-context logger middleware (package logger): it binds the request's traceparent
    header to a per-request logger, stores that logger in the request context, and L looks it
    up again with a fallback to an example logger. */
module Logger {
  import Zap
  import opened Http

  /** The context key the request logger is stored under. */
  const CtxKey := "logger"

  /** The request header carrying the trace context, also the key of the field bound to the logger. */
  const Traceparent := "traceparent"

  /** The field the middleware binds: the request's traceparent header, "" when it is absent. */
  function TraceField(r: Request): (f: Zap.Field) {
    Zap.Field(Traceparent, Get(r.header, Traceparent))
  }

  /** The request Middleware(base) hands to the next handler: the same request in a context that
      binds CtxKey to base.With(TraceField(r)). The next handler is called once, with this request
      and the unchanged response writer. */
  function Middleware(base: Zap.Logger, r: Request): (next: Request)
    ensures next.header == r.header && next.body == r.body
    ensures forall k :: k != CtxKey ==> ValueOf(next.ctx, k) == ValueOf(r.ctx, k)
    ensures L(next.ctx).core == base.core
    ensures L(next.ctx).fields == base.fields + [Zap.Field("traceparent", Get(r.header, "traceparent"))]
  {
    r.(ctx := WithValue(r.ctx, CtxKey, LoggerValue(base.With(TraceField(r)))))
  }

  /** L(ctx): the logger stored under CtxKey; the example logger when there is none, when nil is
      stored, or when the stored value is not a logger. */
  function L(ctx: Context): (l: Zap.Logger)
    ensures l == Zap.Example || (CtxKey in ctx && ctx[CtxKey] == LoggerValue(l))
  {
    var v := ValueOf(ctx, CtxKey);
    if v.Nil? then Zap.Example
    else if v.LoggerValue? then v.logger
    else Zap.Example
  }

  /** L returns the logger stored under the key when there is one. */
  lemma LFindsStoredLogger(ctx: Context, l: Zap.Logger)
    requires CtxKey in ctx && ctx[CtxKey] == LoggerValue(l)
    ensures L(ctx) == l
  {
  }

  /** L falls back to the example logger when the key is missing or holds anything but a logger. */
  lemma LFallsBack(ctx: Context)
    requires CtxKey !in ctx || !ctx[CtxKey].LoggerValue?
    ensures L(ctx) == Zap.Example
  {
  }

  /** The logger the handler retrieves is the one the middleware built, and its one added field
      carries the traceparent header: the first value under "Traceparent", or "". */
  lemma HandlerSeesTraceLogger(base: Zap.Logger, r: Request)
    ensures var l := L(Middleware(base, r).ctx);
      && l == base.With(TraceField(r))
      && l.fields[|l.fields| - 1].value
         == if "Traceparent" in r.header && |r.header["Traceparent"]| > 0 then r.header["Traceparent"][0] else ""
  {
    CanonicalTraceparent(Traceparent);
  }
}
