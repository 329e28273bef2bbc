/** The parts of Go's net/http and context packages the service relies on: request contexts,
    header lookup, requests and the response writer. */
module Http {
  import opened Wrappers
  import opened Go
  import Zap

  // ---------------------------------------------------------------------------
  // context.Context
  // ---------------------------------------------------------------------------

  /** A value stored in a context, tagged with its dynamic type: nil, a *zap.Logger, or a value
      of some other type. */
  datatype Value = Nil | LoggerValue(logger: Zap.Logger) | OtherValue(typeName: string)

  /** A context as its chain of WithValue calls leaves it: the innermost value for every key. */
  type Context = map<string, Value>

  /** ctx.Value(key): the value stored under key, or nil when there is none. */
  function ValueOf(ctx: Context, key: string): (v: Value) {
    if key in ctx then ctx[key] else Nil
  }

  /** context.WithValue: a new context in which key is bound to v; the parent is left as it was. */
  function WithValue(ctx: Context, key: string, v: Value): (child: Context)
    ensures ValueOf(child, key) == v
    ensures forall k :: k != key ==> ValueOf(child, k) == ValueOf(ctx, k)
  {
    ctx[key := v]
  }

  // ---------------------------------------------------------------------------
  // http.Header
  // ---------------------------------------------------------------------------

  /** A header map, keyed by canonical header names. */
  type Header = map<string, seq<string>>

  /** The characters allowed in a header field name (a token in the sense of RFC 7230). */
  predicate IsTokenChar(c: char) {
    || 'a' <= c <= 'z'
    || 'A' <= c <= 'Z'
    || '0' <= c <= '9'
    || c in "!#$%&'*+-.^_`|~"
  }

  /** The lower-case form of an ASCII letter; every other character is left alone. */
  function Lower(c: char): (l: char) {
    if 'A' <= c <= 'Z' then (c as int + 32) as char else c
  }

  /** The upper-case form of an ASCII letter; every other character is left alone. */
  function Upper(c: char): (u: char) {
    if 'a' <= c <= 'z' then (c as int - 32) as char else c
  }

  /** The canonical casing of k, upper starting out as given: each letter upper case when it
      opens the key (and upper holds) or follows a hyphen, lower case otherwise. */
  function CanonicalFrom(k: string, upper: bool): (r: string)
    ensures |r| == |k|
    ensures forall i :: 0 <= i < |k| ==>
      r[i] == if (i == 0 && upper) || (0 < i && k[i - 1] == '-') then Upper(k[i]) else Lower(k[i])
    ensures forall i :: 0 <= i < |k| ==> Lower(r[i]) == Lower(k[i])
    decreases |k|
  {
    if |k| == 0 then []
    else
      var c := k[0];
      [if upper then Upper(c) else Lower(c)] + CanonicalFrom(k[1..], c == '-')
  }

  /** textproto.CanonicalMIMEHeaderKey: the first letter and every letter after a hyphen upper
      case, the other letters lower case; a key holding a character that is not a token
      character is returned unchanged. */
  function CanonicalKey(k: string): (r: string)
    ensures |r| == |k|
    ensures forall i :: 0 <= i < |k| ==> Lower(r[i]) == Lower(k[i])
    ensures (exists i :: 0 <= i < |k| && !IsTokenChar(k[i])) ==> r == k
    ensures (forall i :: 0 <= i < |k| ==> IsTokenChar(k[i])) ==>
      forall i :: 0 <= i < |k| ==>
        r[i] == if i == 0 || k[i - 1] == '-' then Upper(k[i]) else Lower(k[i])
  {
    if forall i :: 0 <= i < |k| ==> IsTokenChar(k[i]) then CanonicalFrom(k, true) else k
  }

  /** Header.Get: the first value stored under the canonical form of key, or "" when there is none. */
  function Get(h: Header, key: string): (value: string) {
    var k := CanonicalKey(key);
    if k in h && |h[k]| > 0 then h[k][0] else ""
  }

  lemma {:induction false} CanonicalFromIgnoresCase(k1: string, k2: string, upper: bool)
    requires |k1| == |k2|
    requires forall i :: 0 <= i < |k1| ==> Lower(k1[i]) == Lower(k2[i])
    ensures CanonicalFrom(k1, upper) == CanonicalFrom(k2, upper)
    decreases |k1|
  {
    if |k1| > 0 {
      assert Lower(k1[0]) == Lower(k2[0]);
      assert (k1[0] == '-') == (k2[0] == '-');
      CanonicalFromIgnoresCase(k1[1..], k2[1..], k1[0] == '-');
    }
  }

  /** Header lookup ignores the case of ASCII letters in a key made of token characters. */
  lemma GetIgnoresCase(h: Header, k1: string, k2: string)
    requires forall i :: 0 <= i < |k1| ==> IsTokenChar(k1[i])
    requires |k1| == |k2|
    requires forall i :: 0 <= i < |k1| ==> Lower(k1[i]) == Lower(k2[i])
    ensures Get(h, k1) == Get(h, k2)
  {
    var t1 := forall i :: 0 <= i < |k1| ==> IsTokenChar(k1[i]);
    var t2 := forall i :: 0 <= i < |k2| ==> IsTokenChar(k2[i]);
    assert t1 == t2 by {
      forall i | 0 <= i < |k1| ensures IsTokenChar(k1[i]) == IsTokenChar(k2[i]) {
        assert Lower(k1[i]) == Lower(k2[i]);
      }
    }
    CanonicalFromIgnoresCase(k1, k2, true);
  }

  lemma {:induction false} CanonicalFromLower(k: string)
    requires forall i :: 0 <= i < |k| ==> 'a' <= k[i] <= 'z'
    ensures CanonicalFrom(k, false) == k
    decreases |k|
  {
    if |k| > 0 {
      CanonicalFromLower(k[1..]);
    }
  }

  /** A key of lower-case letters is canonicalised by upper-casing its first letter only. */
  lemma CanonicalLowerWord(k: string)
    requires |k| > 0 && forall i :: 0 <= i < |k| ==> 'a' <= k[i] <= 'z'
    ensures CanonicalKey(k) == [(k[0] as int - 32) as char] + k[1..]
  {
    assert forall i :: 0 <= i < |k| ==> IsTokenChar(k[i]);
    CanonicalFromLower(k[1..]);
  }

  /** The canonical form of "traceparent" is "Traceparent". */
  lemma CanonicalTraceparent(k: string)
    requires k == "traceparent"
    ensures CanonicalKey(k) == "Traceparent"
  {
    assert forall i :: 0 <= i < |k| ==> 'a' <= k[i] <= 'z';
    CanonicalLowerWord(k);
  }

  // ---------------------------------------------------------------------------
  // http.Request
  // ---------------------------------------------------------------------------

  /** A request body: the bytes a complete read returns, or the error the read fails with. */
  datatype Body = Body(data: seq<byte>) | Failing(err: Error)

  /** The parts of a request the core reads. */
  datatype Request = Request(header: Header, ctx: Context, body: Body)

  // ---------------------------------------------------------------------------
  // http.ResponseWriter
  // ---------------------------------------------------------------------------

  /** A 1xx status other than 101 Switching Protocols: an interim response, not the final status. */
  predicate Informational(code: int) {
    100 <= code <= 199 && code != 101
  }

  /** The response writer the server hands to the outermost handler. status stays None until
      WriteHeader or the first Write sends the status line; when the handler returns without
      either, the server sends 200. */
  class ResponseWriter {
    var status: Option<int>
    var header: Header
    var body: seq<byte>

    constructor ()
      ensures status == None && header == map[] && body == []
    {
      status, header, body := None, map[], [];
    }

    /** Header().Set(key, value): the header map now holds exactly value under the canonical key. */
    method SetHeader(key: string, value: string)
      modifies this`header
      ensures header == old(header)[CanonicalKey(key) := [value]]
    {
      header := header[CanonicalKey(key) := [value]];
    }

    /** WriteHeader(code): sends the status line with code; a status already sent is kept
        (a superfluous call only logs a warning). An informational code is sent ahead of the
        response without becoming its status. Codes outside 100..999 make net/http panic. */
    method WriteHeader(code: int)
      requires 100 <= code <= 999
      modifies this`status
      ensures status == if old(status).None? && !Informational(code) then Some(code) else old(status)
    {
      if status.None? && !Informational(code) {
        status := Some(code);
      }
    }

    /** Write(data): sends the status line with 200 unless one was sent, then appends data to
        the body and reports every byte written. */
    method Write(data: seq<byte>) returns (n: nat)
      modifies this`status, this`body
      ensures status == if old(status).None? then Some(200) else old(status)
      ensures body == old(body) + data
      ensures n == |data|
    {
      if status.None? {
        status := Some(200);
      }
      body := body + data;
      n := |data|;
    }
  }
}
