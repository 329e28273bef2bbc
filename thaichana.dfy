/** The check-in service (package main): the persistence capability, the check-in handler and
    its two stub siblings, the body-transcoding middleware with its encoding response writer,
    and the router that chains the logger middleware, the transcoding middleware and a route. */
module Thaichana {
  import opened Wrappers
  import opened Go
  import Base64
  import Zap
  import opened Http
  import Logger

  /** The check-in payload: a user id and a place id. */
  datatype Check = Check(id: int64, placeID: int64)

  /** The routes the router registers, each for POST. */
  datatype Route = CurrentsPath | CheckInPath | CheckOutPath

  // ---------------------------------------------------------------------------
  // The persistence capability (Iner, InFunc)
  // ---------------------------------------------------------------------------

  /** The one-method contract Iner in its function-adapter form InFunc: In(id, placeID) returns
      what fn returns for the pair, None standing for a nil error. calls records every call, in
      order, so that what a handler does with the store can be stated. */
  class InFunc {
    const fn: (int64, int64) -> Option<Error>
    ghost var calls: seq<(int64, int64)>

    constructor (fn: (int64, int64) -> Option<Error>)
      ensures this.fn == fn && calls == []
    {
      this.fn := fn;
      calls := [];
    }

    method In(id: int64, placeID: int64) returns (err: Option<Error>)
      modifies this`calls
      ensures err == fn(id, placeID)
      ensures calls == old(calls) + [(id, placeID)]
    {
      err := fn(id, placeID);
      calls := calls + [(id, placeID)];
    }
  }

  // ---------------------------------------------------------------------------
  // The encoding response writer (EncodeWriter)
  // ---------------------------------------------------------------------------

  /** The bytes that a sequence of writes through an EncodeWriter puts on the wrapped writer:
      each write encoded on its own, in order. */
  function EncodeAll(ws: seq<seq<byte>>): (body: seq<byte>)
    decreases |ws|
  {
    if ws == [] then [] else EncodeAll(ws[..|ws| - 1]) + Base64.Encode(ws[|ws| - 1])
  }

  /** The cleartext of a sequence of writes, joined. */
  function Flatten(ws: seq<seq<byte>>): (clear: seq<byte>)
    decreases |ws|
  {
    if ws == [] then [] else Flatten(ws[..|ws| - 1]) + ws[|ws| - 1]
  }

  lemma EncodeAllSnoc(ws: seq<seq<byte>>, b: seq<byte>)
    ensures EncodeAll(ws + [b]) == EncodeAll(ws) + Base64.Encode(b)
  {
    assert (ws + [b])[..|ws|] == ws;
  }

  lemma EncodeAllPair(b1: seq<byte>, b2: seq<byte>)
    ensures EncodeAll([b1, b2]) == Base64.Encode(b1) + Base64.Encode(b2)
  {
    var none: seq<seq<byte>> := [];
    EncodeAllSnoc(none, b1);
    EncodeAllSnoc([b1], b2);
    assert none + [b1] == [b1] && [b1] + [b2] == [b1, b2];
  }

  /** Every write but the last is a multiple of three bytes long. */
  predicate Aligned(ws: seq<seq<byte>>) {
    forall i :: 0 <= i < |ws| - 1 ==> |ws[i]| % 3 == 0
  }

  lemma {:induction false} FlattenWhole(ws: seq<seq<byte>>)
    requires forall i :: 0 <= i < |ws| ==> |ws[i]| % 3 == 0
    ensures |Flatten(ws)| % 3 == 0
    decreases |ws|
  {
    if ws != [] {
      var init := ws[..|ws| - 1];
      FlattenWhole(init);
      assert |ws[|ws| - 1]| % 3 == 0;
    }
  }

  lemma {:induction false} EncodeAllOfAligned(ws: seq<seq<byte>>)
    requires Aligned(ws)
    ensures EncodeAll(ws) == Base64.Encode(Flatten(ws))
    decreases |ws|
  {
    if ws != [] {
      var init, last := ws[..|ws| - 1], ws[|ws| - 1];
      assert forall i :: 0 <= i < |init| ==> init[i] == ws[i];
      FlattenWhole(init);
      EncodeAllOfAligned(init);
      Base64.EncodeAppendAligned(Flatten(init), last);
      calc {
        EncodeAll(ws);
        EncodeAll(init) + Base64.Encode(last);
        Base64.Encode(Flatten(init)) + Base64.Encode(last);
        Base64.Encode(Flatten(init) + last);
        Base64.Encode(Flatten(ws));
      }
    }
  }

  /** A client decoding the whole response body recovers the handler's cleartext when every
      write but the last was a multiple of three bytes long. */
  lemma DecodeAlignedWrites(ws: seq<seq<byte>>)
    requires Aligned(ws)
    ensures Base64.Decode(EncodeAll(ws)) == Some(Flatten(ws))
  {
    EncodeAllOfAligned(ws);
    Base64.RoundTrip(Flatten(ws));
  }

  /** Two writes whose first is not a multiple of three bytes long leave a body that does not
      decode at all: each write is encoded on its own, padding included. */
  lemma MisalignedWritesUndecodable(b1: seq<byte>, b2: seq<byte>)
    requires |b1| % 3 != 0 && |b2| > 0
    ensures Base64.Decode(EncodeAll([b1, b2])) == None
  {
    EncodeAllPair(b1, b2);
    Base64.SplitEncodingUndecodable(b1, b2);
  }

  /** EncodeWriter embeds the response writer it wraps: status and header calls go to it
      unchanged, and every Write is base64-encoded on its own before being passed on. */
  class EncodeWriter {
    const inner: ResponseWriter
    /** The wrapped writer's body when the wrapper was made. */
    ghost const origin: seq<byte>
    /** The cleartext of every Write made through the wrapper, in order. */
    ghost var writes: seq<seq<byte>>

    ghost predicate Valid()
      reads this, inner
    {
      inner.body == origin + EncodeAll(writes)
    }

    constructor (w: ResponseWriter)
      ensures inner == w && origin == w.body && writes == [] && Valid()
    {
      inner := w;
      origin := w.body;
      writes := [];
    }

    method WriteHeader(code: int)
      requires Valid() && 100 <= code <= 999
      modifies inner`status
      ensures Valid()
      ensures inner.status == if old(inner.status).None? && !Informational(code) then Some(code) else old(inner.status)
    {
      inner.WriteHeader(code);
    }

    method SetHeader(key: string, value: string)
      requires Valid()
      modifies inner`header
      ensures Valid()
      ensures inner.header == old(inner.header)[CanonicalKey(key) := [value]]
    {
      inner.SetHeader(key, value);
    }

    /** Write(b): the wrapped writer receives exactly the encoding of b, and the count returned is
        the wrapped writer's count of encoded bytes, which exceeds |b| for any non-empty b. */
    method Write(b: seq<byte>) returns (n: nat)
      requires Valid()
      modifies this`writes, inner`status, inner`body
      ensures Valid()
      ensures writes == old(writes) + [b]
      ensures inner.body == old(inner.body) + Base64.Encode(b)
      ensures inner.status == if old(inner.status).None? then Some(200) else old(inner.status)
      ensures n == |Base64.Encode(b)| == 4 * ((|b| + 2) / 3)
      ensures |b| > 0 ==> n > |b|
    {
      n := inner.Write(Base64.Encode(b));
      writes := writes + [b];
      assert writes[..|writes| - 1] == old(writes);
      Base64.EncodeLonger(b);
    }
  }

  // ---------------------------------------------------------------------------
  // The handlers (CheckIn, Recently, CheckOut)
  // ---------------------------------------------------------------------------

  /** The success body json.Encoder writes for {"message": "ok"}: the JSON and a newline. */
  const OkBody: seq<byte> := Ascii("{\"message\":\"ok\"}\n")

  /** The body json.Encoder writes for an error: its JSON form and a newline, in one write. */
  function ErrorBody(e: Error): (body: seq<byte>) {
    e.json + [10]
  }

  /** Decoding a request body into a Check: a failing read fails the decode with its error,
      otherwise parse stands for json.Decoder.Decode on the bytes. */
  function DecodeCheck(body: Body, parse: seq<byte> -> Result<Check, Error>): (r: Result<Check, Error>) {
    match body
    case Failing(e) => Failure(e)
    case Body(data) => parse(data)
  }

  /** What a route handler does for one request, as a value: the calls it makes on the store,
      the status it sets explicitly (None leaves the implicit 200), and its body writes in order. */
  datatype Effect = Effect(calls: seq<(int64, int64)>, status: Option<int>, writes: seq<seq<byte>>)

  /** The reference behaviour of each route handler, given the store function and the parser. */
  function HandlerEffect(route: Route, fn: (int64, int64) -> Option<Error>,
                         parse: seq<byte> -> Result<Check, Error>, r: Request): (e: Effect)
  {
    match route
    case CurrentsPath => Effect([], None, [])
    case CheckOutPath => Effect([], None, [])
    case CheckInPath =>
      match DecodeCheck(r.body, parse)
      case Failure(e) => Effect([], Some(500), [ErrorBody(e)])
      case Success(c) =>
        match fn(c.id, c.placeID)
        case Some(e) => Effect([(c.id, c.placeID)], Some(500), [ErrorBody(e)])
        case None => Effect([(c.id, c.placeID)], None, [OkBody])
  }

  /** The status on the wire after a handler with effect e ran on a writer whose status was
      prior: the first status sent wins, and a write sends 200 when none was. */
  function StatusAfter(prior: Option<int>, e: Effect): (status: Option<int>) {
    if prior.Some? then prior
    else if e.status.Some? then e.status
    else if e.writes != [] then Some(200)
    else None
  }

  /** The check-in handler calls the store exactly once when the body decodes, with the decoded
      pair, and never otherwise; there is no second call whatever the store answers. */
  lemma CheckInCallsStoreOnce(fn: (int64, int64) -> Option<Error>, parse: seq<byte> -> Result<Check, Error>, r: Request)
    ensures var e, d := HandlerEffect(CheckInPath, fn, parse, r), DecodeCheck(r.body, parse);
      && (d.Failure? ==> e.calls == [])
      && (d.Success? ==> e.calls == [(d.value.id, d.value.placeID)])
  {
  }

  /** The check-in handler sets 500 exactly when decoding fails or the store reports an error,
      and writes one body: the error's JSON, or {"message":"ok"} under the implicit 200. */
  lemma CheckInResponse(fn: (int64, int64) -> Option<Error>, parse: seq<byte> -> Result<Check, Error>, r: Request)
    ensures var e, d := HandlerEffect(CheckInPath, fn, parse, r), DecodeCheck(r.body, parse);
      var failed := d.Failure? || fn(d.value.id, d.value.placeID).Some?;
      && |e.writes| == 1
      && (e.status == Some(500) <==> failed)
      && (e.status == None <==> !failed)
      && (!failed ==> e.writes == [OkBody] && StatusAfter(None, e) == Some(200))
      && (d.Failure? ==> e.writes == [ErrorBody(d.error)])
      && (d.Success? && fn(d.value.id, d.value.placeID).Some? ==>
            e.writes == [ErrorBody(fn(d.value.id, d.value.placeID).value)])
  {
  }

  /** Recently and CheckOut set no status, write nothing and never touch the store. */
  lemma StubsDoNothing(fn: (int64, int64) -> Option<Error>, parse: seq<byte> -> Result<Check, Error>, r: Request)
    ensures HandlerEffect(CurrentsPath, fn, parse, r) == Effect([], None, [])
    ensures HandlerEffect(CheckOutPath, fn, parse, r) == Effect([], None, [])
  {
  }

  /** CheckIn(check): decodes the body into a Check (500 and the error's JSON on failure), calls
      check.In once with the pair (500 and the error's JSON on failure), and otherwise writes
      {"message":"ok"}. The logger it fetches with L only writes a log line, which is not modelled. */
  method CheckIn(check: InFunc, parse: seq<byte> -> Result<Check, Error>, w: EncodeWriter, r: Request)
    requires w.Valid()
    modifies check`calls, w`writes, w.inner`status, w.inner`body
    ensures w.Valid()
    ensures var e := HandlerEffect(CheckInPath, check.fn, parse, r);
      && check.calls == old(check.calls) + e.calls
      && w.writes == old(w.writes) + e.writes
      && w.inner.status == StatusAfter(old(w.inner.status), e)
  {
    var decoded := DecodeCheck(r.body, parse);
    if decoded.Failure? {
      w.WriteHeader(500);
      var _ := w.Write(ErrorBody(decoded.error));
      return;
    }
    var chk := decoded.value;
    var err := check.In(chk.id, chk.placeID);
    if err.Some? {
      w.WriteHeader(500);
      var _ := w.Write(ErrorBody(err.value));
      return;
    }
    var _ := w.Write(OkBody);
  }

  /** Recently: not implemented; leaves the response and the store alone. */
  method Recently(w: EncodeWriter, r: Request)
    ensures unchanged(w, w.inner)
  {
  }

  /** CheckOut: not implemented; leaves the response and the store alone. */
  method CheckOut(w: EncodeWriter, r: Request)
    ensures unchanged(w, w.inner)
  {
  }

  /** The route's handler, as the router registers it. */
  method Dispatch(route: Route, store: InFunc, parse: seq<byte> -> Result<Check, Error>, w: EncodeWriter, r: Request)
    requires w.Valid()
    modifies store`calls, w`writes, w.inner`status, w.inner`body
    ensures w.Valid()
    ensures var e := HandlerEffect(route, store.fn, parse, r);
      && store.calls == old(store.calls) + e.calls
      && w.writes == old(w.writes) + e.writes
      && w.inner.status == StatusAfter(old(w.inner.status), e)
  {
    match route
    case CurrentsPath => Recently(w, r);
    case CheckInPath => CheckIn(store, parse, w, r);
    case CheckOutPath => CheckOut(w, r);
  }

  // ---------------------------------------------------------------------------
  // The transcoding middleware (SealMiddleware) and the router
  // ---------------------------------------------------------------------------

  /** The request SealMiddleware hands to the next handler: the body read in full and
      base64-decoded, everything else as it was; None when the read or the decoding fails. */
  function Unseal(r: Request): (next: Option<Request>)
    ensures next.Some? ==> next.value.header == r.header && next.value.ctx == r.ctx
  {
    match r.body
    case Failing(_) => None
    case Body(data) =>
      match Base64.Decode(data)
      case None => None
      case Some(clear) => Some(r.(body := Body(clear)))
  }

  /** A request whose body is the encoding of some bytes reaches the next handler with exactly
      those bytes as its body. */
  lemma UnsealEncoded(r: Request, payload: seq<byte>)
    requires r.body == Body(Base64.Encode(payload))
    ensures Unseal(r) == Some(r.(body := Body(payload)))
  {
    Base64.RoundTrip(payload);
  }

  /** A request whose body cannot be read, or holds a byte outside the alphabet, the padding
      and line breaks, never reaches the next handler. */
  lemma UnsealRejects(r: Request)
    requires r.body.Failing? || exists c :: c in r.body.data && !Base64.IsSymbol(c) && c != Base64.Pad && c != Base64.CR && c != Base64.LF
    ensures Unseal(r) == None
  {
  }

  /** The body "%%%not-base64%%%" is rejected before any route runs. */
  lemma UnsealRejectsNonBase64(r: Request)
    requires r.body == Body(Ascii("%%%not-base64%%%"))
    ensures Unseal(r) == None
  {
    var c := r.body.data[0];
    assert c == '%' as int && c in r.body.data && !Base64.IsSymbol(c);
    UnsealRejects(r);
  }

  /** SealMiddleware()(next): a body that cannot be read or decoded gets 400 and nothing else,
      and next is not called; otherwise next runs on the decoded request with an EncodeWriter
      around w, so w receives every write of next encoded. */
  method SealMiddleware(route: Route, store: InFunc, parse: seq<byte> -> Result<Check, Error>, w: ResponseWriter, r: Request)
    returns (ghost next: Option<Request>)
    modifies w, store`calls
    ensures next == Unseal(r)
    ensures w.header == old(w.header)
    ensures next.None? ==>
      && w.status == (if old(w.status).None? then Some(400) else old(w.status))
      && w.body == old(w.body)
      && store.calls == old(store.calls)
    ensures next.Some? ==>
      var e := HandlerEffect(route, store.fn, parse, next.value);
      && w.status == StatusAfter(old(w.status), e)
      && w.body == old(w.body) + EncodeAll(e.writes)
      && store.calls == old(store.calls) + e.calls
  {
    if r.body.Failing? {
      w.WriteHeader(400);
      return None;
    }
    var data := Base64.Decode(r.body.data);
    if data.None? {
      w.WriteHeader(400);
      return None;
    }
    var decoded := r.(body := Body(data.value));
    var ew := new EncodeWriter(w);
    Dispatch(route, store, parse, ew, decoded);
    next := Some(decoded);
  }

  /** One request through the router: the logger middleware outermost, then SealMiddleware, then
      the route's handler, on a fresh response writer. The route handler sees the logger bound
      to the request's traceparent, and the client receives the encoding of what it wrote. */
  method Serve(base: Zap.Logger, route: Route, store: InFunc, parse: seq<byte> -> Result<Check, Error>,
               w: ResponseWriter, r: Request)
    returns (ghost handled: Option<Request>)
    requires w.status == None && w.body == []
    modifies w, store`calls
    ensures handled == Unseal(Logger.Middleware(base, r))
    ensures w.header == old(w.header)
    ensures handled.None? ==> w.status == Some(400) && w.body == [] && store.calls == old(store.calls)
    ensures handled.Some? ==>
      var e := HandlerEffect(route, store.fn, parse, handled.value);
      && Logger.L(handled.value.ctx) == base.With(Logger.TraceField(r))
      && w.status == StatusAfter(None, e)
      && w.body == EncodeAll(e.writes)
      && Base64.Decode(w.body) == Some(Flatten(e.writes))
      && store.calls == old(store.calls) + e.calls
  {
    var withLogger := Logger.Middleware(base, r);
    handled := SealMiddleware(route, store, parse, w, withLogger);
    if handled.Some? {
      var e := HandlerEffect(route, store.fn, parse, handled.value);
      assert Aligned(e.writes);
      DecodeAlignedWrites(e.writes);
    }
  }
}
