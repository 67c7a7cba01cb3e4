/**
 * The HTTP side of the tunnel (golang/main.go): the hop-by-hop header
 * filter applied to a proxied request, and the loop that assembles the HTTP
 * response from the messages the browser client sends back over the
 * WebSocket. Channels, the select statement and the context deadline are
 * replaced by a list of events in arrival order; the ResponseWriter is
 * replaced by the trace of calls made on it.
 */
module Proxy {
  import opened Wrappers
  import opened Json

  /** A request or response header: canonical name to its values. */
  type Header = map<string, seq<string>>

  /** A decoded message payload (a Go `map[string]interface{}`). */
  type Payload = map<string, Value>

  /** Headers a proxy must not forward. */
  const HopByHop: set<string> := {
    "Connection", "Keep-Alive", "Proxy-Authenticate", "Proxy-Authorization",
    "Te", "Trailers", "Transfer-Encoding", "Upgrade"
  }

  /** The headers handleProxyRequest copies into the forwarded request. */
  method FilterHeaders(h: Header) returns (out: Header)
    ensures out.Keys == h.Keys - HopByHop
    ensures forall k :: k in out ==> out[k] == h[k]
  {
    out := map[];
    var rest := h.Keys;
    while rest != {}
      invariant rest <= h.Keys
      invariant out.Keys == (h.Keys - rest) - HopByHop
      invariant forall k :: k in out ==> out[k] == h[k]
      decreases rest
    {
      var k :| k in rest;
      if k !in HopByHop {
        out := out[k := h[k]];
      }
      rest := rest - {k};
    }
  }

  /** A JSON object decoded into a Go map: a later duplicate key wins. */
  function ObjectMap(d: Dict): (m: map<string, Value>)
    ensures m.Keys == KeysOf(d)
  {
    if d == [] then map[]
    else
      var init := d[..|d| - 1];
      assert forall i :: 0 <= i < |d| - 1 ==> init[i] == d[i];
      ObjectMap(init)[d[|d| - 1].0 := d[|d| - 1].1]
  }

  /** The value a key ends up with is the one at its last occurrence. */
  lemma {:induction false} ObjectMapLastWins(d: Dict, i: nat)
    requires i < |d|
    requires forall j :: i < j < |d| ==> d[j].0 != d[i].0
    ensures ObjectMap(d)[d[i].0] == d[i].1
  {
    var init := d[..|d| - 1];
    if i < |d| - 1 {
      ObjectMapLastWins(init, i);
    }
  }

  /** The string elements of a JSON array, in order. */
  function Strings(vs: seq<Value>): (r: seq<string>)
    ensures |r| <= |vs|
    ensures forall s :: s in r <==> Str(s) in vs
  {
    if vs == [] then []
    else
      var init := Strings(vs[..|vs| - 1]);
      assert vs == vs[..|vs| - 1] + [vs[|vs| - 1]];
      match vs[|vs| - 1]
      case Str(s) => init + [s]
      case _ => init
  }

  /** The values setResponseHeaders gives one header entry, if it sets it. */
  function HeaderEntry(v: Value): (r: Option<seq<string>>)
    ensures v.Str? ==> r == Some([v.s])
    ensures v.Arr? ==> (r.Some? <==> Strings(v.items) != [])
    ensures v.Arr? && r.Some? ==> r.value == Strings(v.items)
    ensures !v.Str? && !v.Arr? ==> r.None?
  {
    match v
    case Str(s) => Some([s])
    case Arr(vs) => if Strings(vs) == [] then None else Some(Strings(vs))
    case _ => None
  }

  /** The header entries of a payload's `headers` object. */
  function HeadersOf(p: Payload): (r: map<string, Value>)
    ensures "headers" !in p || !p["headers"].Obj? ==> r == map[]
  {
    if "headers" in p && p["headers"].Obj? then ObjectMap(p["headers"].fields) else map[]
  }

  /** The header set from the entries under `keys`. */
  ghost function HeaderFrom(hs: map<string, Value>, keys: set<string>): Header
    requires keys <= hs.Keys
  {
    map k | k in keys && HeaderEntry(hs[k]).Some? :: HeaderEntry(hs[k]).value
  }

  /** The response header setResponseHeaders leaves on a fresh ResponseWriter. */
  ghost function ResponseHeader(p: Payload): Header {
    HeaderFrom(HeadersOf(p), HeadersOf(p).Keys)
  }

  lemma HeaderFromAdd(hs: map<string, Value>, keys: set<string>, key: string)
    requires keys <= hs.Keys && key in hs && key !in keys
    ensures HeaderEntry(hs[key]).Some? ==>
      HeaderFrom(hs, keys + {key}) == HeaderFrom(hs, keys)[key := HeaderEntry(hs[key]).value]
    ensures HeaderEntry(hs[key]).None? ==> HeaderFrom(hs, keys + {key}) == HeaderFrom(hs, keys)
  {
  }

  /** The inner loop of setResponseHeaders: the strings of an array, in order. */
  method ArrayStrings(vs: seq<Value>) returns (added: seq<string>)
    ensures added == Strings(vs)
  {
    added := [];
    for i := 0 to |vs|
      invariant added == Strings(vs[..i])
    {
      assert vs[..i + 1][..i] == vs[..i];
      if vs[i].Str? {
        added := added + [vs[i].s];
      }
    }
    assert vs[..|vs|] == vs;
  }

  /**
   * setResponseHeaders on a fresh ResponseWriter: an array value adds each
   * of its strings, a string value sets the header, anything else is skipped.
   */
  method SetResponseHeaders(p: Payload) returns (h: Header)
    ensures h == ResponseHeader(p)
    ensures forall k :: k in h ==> k in HeadersOf(p) && h[k] != []
    ensures forall k :: k in HeadersOf(p) && HeadersOf(p)[k].Str? ==> k in h && h[k] == [HeadersOf(p)[k].s]
  {
    h := map[];
    var hs := HeadersOf(p);
    var rest := hs.Keys;
    while rest != {}
      invariant rest <= hs.Keys
      invariant h == HeaderFrom(hs, hs.Keys - rest)
      decreases rest
    {
      var key :| key in rest;
      HeaderFromAdd(hs, hs.Keys - rest, key);
      assert hs.Keys - (rest - {key}) == (hs.Keys - rest) + {key};
      match hs[key] {
        case Arr(vs) =>
          var added := ArrayStrings(vs);
          if added != [] {
            h := h[key := added];
          }
        case Str(s) =>
          h := h[key := [s]];
        case _ =>
      }
      rest := rest - {key};
    }
    assert hs.Keys - rest == hs.Keys;
  }

  /** writeStatusCode: the payload's numeric `status`, 200 when there is none. */
  function StatusCode(p: Payload): (code: int)
    ensures "status" in p && p["status"].Num? ==> code == p["status"].n
    ensures !("status" in p && p["status"].Num?) ==> code == 200
  {
    if "status" in p && p["status"].Num? then p["status"].n else 200
  }

  /** The bytes writeBody sends: string `data` wins over string `body`. */
  function BodyData(p: Payload): (data: string)
    ensures "data" in p && p["data"].Str? ==> data == p["data"].s
    ensures !("data" in p && p["data"].Str?) && "body" in p && p["body"].Str? ==> data == p["body"].s
    ensures !("data" in p && p["data"].Str?) && !("body" in p && p["body"].Str?) ==> data == ""
  {
    if "data" in p && p["data"].Str? then p["data"].s
    else if "body" in p && p["body"].Str? then p["body"].s
    else ""
  }

  /** A call made on the ResponseWriter. */
  datatype Action =
    | SetHeaders(header: Header)
    | WriteHeader(code: int)
    | Write(data: string)
    | Flush
    | HttpError(message: string, code: int)

  /** Whether the action fixes the status line. */
  predicate IsStatus(a: Action) {
    a.WriteHeader? || a.HttpError?
  }

  /** writeBody: a Write call only when there is something to write. */
  function WriteBody(p: Payload): (acts: seq<Action>)
    ensures |acts| <= 1
    ensures acts == [] <==> BodyData(p) == ""
    ensures acts != [] ==> acts[0] == Write(BodyData(p))
  {
    if BodyData(p) == "" then [] else [Write(BodyData(p))]
  }

  function FlushIf(canFlush: bool): seq<Action> {
    if canFlush then [Flush] else []
  }

  const ChannelClosedMessage := "Internal Server Error: Response channel closed unexpectedly"
  const ClientErrorMessage := "Bad Gateway: Client reported an error"
  const GatewayTimeoutMessage := "Gateway Timeout"

  /** The message of an `error` reply: the payload's string `error`, or a default. */
  function ErrorMessage(p: Payload): (msg: string)
    ensures "error" in p && p["error"].Str? ==> msg == p["error"].s
    ensures !("error" in p && p["error"].Str?) ==> msg == ClientErrorMessage
  {
    if "error" in p && p["error"].Str? then p["error"].s else ClientErrorMessage
  }

  /** The status of an `error` reply: the payload's numeric `status`, or 502. */
  function ErrorStatus(p: Payload): (code: int)
    ensures "status" in p && p["status"].Num? ==> code == p["status"].n
    ensures !("status" in p && p["status"].Num?) ==> code == 502
  {
    if "status" in p && p["status"].Num? then p["status"].n else 502
  }

  /** What the loop can observe next: a message, the channel closing, or the deadline. */
  datatype Event =
    | Message(kind: string, payload: Payload)
    | ChannelClosed
    | DeadlineExceeded

  /** The calls one event causes, the new `headersSet`, and whether the handler returns. */
  datatype Step = Step(actions: seq<Action>, headersSet: bool, done: bool)

  /** One iteration of processWebSocketResponse's loop. */
  ghost function StepOn(e: Event, headersSet: bool, canFlush: bool): Step {
    match e
    case ChannelClosed =>
      Step(if headersSet then [] else [HttpError(ChannelClosedMessage, 500)], headersSet, true)
    case DeadlineExceeded =>
      Step(if headersSet then [] else [HttpError(GatewayTimeoutMessage, 504)], headersSet, true)
    case Message(kind, p) =>
      if kind == "http_response" then
        if headersSet then Step([], headersSet, true)
        else Step([SetHeaders(ResponseHeader(p)), WriteHeader(StatusCode(p))] + WriteBody(p), headersSet, true)
      else if kind == "stream_start" then
        if headersSet then Step([], headersSet, false)
        else Step([SetHeaders(ResponseHeader(p)), WriteHeader(StatusCode(p))] + FlushIf(canFlush), true, false)
      else if kind == "stream_chunk" then
        Step((if headersSet then [] else [WriteHeader(200)]) + WriteBody(p) + FlushIf(canFlush), true, false)
      else if kind == "stream_end" then
        Step(if headersSet then [] else [WriteHeader(200)], headersSet, true)
      else if kind == "error" then
        Step(if headersSet then [] else [HttpError(ErrorMessage(p), ErrorStatus(p))], headersSet, true)
      else
        Step([], headersSet, false)
  }

  /** The calls made, whether the handler returned, and how many events it took. */
  datatype Run = Run(trace: seq<Action>, finished: bool, consumed: nat)

  /** The loop run over `events` from the given `headersSet`. */
  ghost function Respond(events: seq<Event>, headersSet: bool, canFlush: bool): (r: Run)
    ensures r.consumed <= |events|
    ensures !r.finished ==> r.consumed == |events|
  {
    if events == [] then Run([], false, 0)
    else
      var st := StepOn(events[0], headersSet, canFlush);
      if st.done then Run(st.actions, true, 1)
      else
        var rest := Respond(events[1..], st.headersSet, canFlush);
        Run(st.actions + rest.trace, rest.finished, 1 + rest.consumed)
  }

  /** No call in the trace fixes the status line. */
  predicate NoStatus(t: seq<Action>) {
    forall i :: 0 <= i < |t| ==> !IsStatus(t[i])
  }

  /** At most one call in the trace fixes the status line. */
  predicate StatusOnce(t: seq<Action>) {
    forall i, j :: 0 <= i < |t| && 0 <= j < |t| && IsStatus(t[i]) && IsStatus(t[j]) ==> i == j
  }

  /** Every Write in the trace comes after a call that fixes the status line. */
  predicate WritesAfterStatus(t: seq<Action>) {
    forall i :: 0 <= i < |t| && t[i].Write? ==> exists j :: 0 <= j < i && IsStatus(t[j])
  }

  /** What the trace properties need from one step. */
  lemma StepShape(e: Event, headersSet: bool, canFlush: bool)
    ensures var st := StepOn(e, headersSet, canFlush);
      && (headersSet ==> st.headersSet && NoStatus(st.actions))
      && StatusOnce(st.actions)
      && (!headersSet ==> WritesAfterStatus(st.actions))
      && (!headersSet && st.headersSet ==> !NoStatus(st.actions))
      && (!headersSet && !st.headersSet && !st.done ==> st.actions == [])
  {
    var st := StepOn(e, headersSet, canFlush);
    if e.Message? && !headersSet {
      if e.kind == "http_response" || e.kind == "stream_start" {
        assert IsStatus(st.actions[1]);
      } else if e.kind == "stream_chunk" {
        assert IsStatus(st.actions[0]);
      }
    }
  }

  lemma AppendNoStatus(a: seq<Action>, r: seq<Action>)
    requires NoStatus(a) && NoStatus(r)
    ensures NoStatus(a + r)
  {
    forall i | 0 <= i < |a + r| ensures !IsStatus((a + r)[i]) {
      if i >= |a| { assert (a + r)[i] == r[i - |a|]; }
    }
  }

  lemma AppendStatusOnce(a: seq<Action>, r: seq<Action>)
    requires StatusOnce(a) && NoStatus(r)
    ensures StatusOnce(a + r)
  {
    assert forall i :: |a| <= i < |a + r| ==> (a + r)[i] == r[i - |a|];
  }

  lemma AppendWritesAfterStatus(a: seq<Action>, r: seq<Action>)
    requires WritesAfterStatus(a) && !NoStatus(a)
    ensures WritesAfterStatus(a + r)
  {
    var k :| 0 <= k < |a| && IsStatus(a[k]);
    forall i | 0 <= i < |a + r| && (a + r)[i].Write?
      ensures exists j :: 0 <= j < i && IsStatus((a + r)[j])
    {
      if i < |a| {
        var j :| 0 <= j < i && IsStatus(a[j]);
        assert (a + r)[j] == a[j];
      } else {
        assert (a + r)[k] == a[k];
      }
    }
  }

  /** The status line is fixed at most once, and never once headers are out. */
  lemma {:induction false} StatusAtMostOnce(events: seq<Event>, headersSet: bool, canFlush: bool)
    ensures headersSet ==> NoStatus(Respond(events, headersSet, canFlush).trace)
    ensures StatusOnce(Respond(events, headersSet, canFlush).trace)
  {
    if events != [] {
      var st := StepOn(events[0], headersSet, canFlush);
      StepShape(events[0], headersSet, canFlush);
      if !st.done {
        var r := Respond(events[1..], st.headersSet, canFlush).trace;
        StatusAtMostOnce(events[1..], st.headersSet, canFlush);
        assert Respond(events, headersSet, canFlush).trace == st.actions + r;
        if st.headersSet {
          AppendStatusOnce(st.actions, r);
          if headersSet { AppendNoStatus(st.actions, r); }
        } else {
          assert st.actions + r == r;
        }
      }
    }
  }

  /** Starting before any headers, every Write comes after the status line. */
  lemma {:induction false} WritesFollowStatus(events: seq<Event>, canFlush: bool)
    ensures WritesAfterStatus(Respond(events, false, canFlush).trace)
  {
    if events != [] {
      var st := StepOn(events[0], false, canFlush);
      StepShape(events[0], false, canFlush);
      if !st.done {
        var r := Respond(events[1..], st.headersSet, canFlush).trace;
        assert Respond(events, false, canFlush).trace == st.actions + r;
        if st.headersSet {
          AppendWritesAfterStatus(st.actions, r);
        } else {
          WritesFollowStatus(events[1..], canFlush);
          assert st.actions + r == r;
        }
      }
    }
  }

  /** Once the handler has returned, later events change nothing. */
  lemma {:induction false} FinishedIgnoresLater(events: seq<Event>, later: seq<Event>, headersSet: bool, canFlush: bool)
    requires Respond(events, headersSet, canFlush).finished
    ensures Respond(events + later, headersSet, canFlush) == Respond(events, headersSet, canFlush)
  {
    assert (events + later)[0] == events[0];
    assert (events + later)[1..] == events[1..] + later;
    var st := StepOn(events[0], headersSet, canFlush);
    if !st.done {
      FinishedIgnoresLater(events[1..], later, st.headersSet, canFlush);
    }
  }

  /** Once headers are out, a late http_response ends the request silently
      and a late stream_start is skipped. */
  lemma LateMessages(p: Payload, events: seq<Event>, canFlush: bool)
    ensures Respond([Message("http_response", p)] + events, true, canFlush) == Run([], true, 1)
    ensures var r := Respond(events, true, canFlush);
      Respond([Message("stream_start", p)] + events, true, canFlush) == r.(consumed := r.consumed + 1)
  {
    assert ([Message("stream_start", p)] + events)[1..] == events;
  }

  /** Before any headers: a chunk starts with an implicit 200, and an
      error reply answers with its own message and status, or the defaults. */
  lemma EarlyMessages(p: Payload, events: seq<Event>, canFlush: bool)
    ensures Respond([Message("stream_chunk", p)] + events, false, canFlush).trace[0] == WriteHeader(200)
    ensures Respond([Message("error", p)] + events, false, canFlush)
      == Run([HttpError(ErrorMessage(p), ErrorStatus(p))], true, 1)
    ensures Respond([Message("stream_end", p)] + events, false, canFlush) == Run([WriteHeader(200)], true, 1)
  {
  }

  /** A closed channel or the deadline ends the request, with 500 or 504 if nothing was sent. */
  lemma AbnormalEnds(events: seq<Event>, canFlush: bool)
    ensures Respond([ChannelClosed] + events, false, canFlush) == Run([HttpError(ChannelClosedMessage, 500)], true, 1)
    ensures Respond([DeadlineExceeded] + events, false, canFlush) == Run([HttpError(GatewayTimeoutMessage, 504)], true, 1)
    ensures Respond([ChannelClosed] + events, true, canFlush) == Run([], true, 1)
    ensures Respond([DeadlineExceeded] + events, true, canFlush) == Run([], true, 1)
  {
  }

  /** Any other message type is skipped. */
  lemma UnknownKindIgnored(kind: string, p: Payload, events: seq<Event>, headersSet: bool, canFlush: bool)
    requires kind !in {"http_response", "stream_start", "stream_chunk", "stream_end", "error"}
    ensures var r := Respond(events, headersSet, canFlush);
      Respond([Message(kind, p)] + events, headersSet, canFlush) == r.(consumed := r.consumed + 1)
  {
    assert ([Message(kind, p)] + events)[1..] == events;
  }

  /** The body of one loop iteration, acting on the ResponseWriter. */
  method HandleEvent(e: Event, headersSet: bool, canFlush: bool)
    returns (actions: seq<Action>, headersSetAfter: bool, done: bool)
    ensures Step(actions, headersSetAfter, done) == StepOn(e, headersSet, canFlush)
  {
    actions, headersSetAfter, done := [], headersSet, false;
    match e {
      case ChannelClosed =>
        if !headersSet { actions := [HttpError(ChannelClosedMessage, 500)]; }
        done := true;
      case DeadlineExceeded =>
        if !headersSet { actions := [HttpError(GatewayTimeoutMessage, 504)]; }
        done := true;
      case Message(kind, p) =>
        if kind == "http_response" {
          if !headersSet {
            var h := SetResponseHeaders(p);
            actions := [SetHeaders(h), WriteHeader(StatusCode(p))] + WriteBody(p);
          }
          done := true;
        } else if kind == "stream_start" {
          if !headersSet {
            var h := SetResponseHeaders(p);
            actions := [SetHeaders(h), WriteHeader(StatusCode(p))] + FlushIf(canFlush);
            headersSetAfter := true;
          }
        } else if kind == "stream_chunk" {
          if !headersSet {
            actions := [WriteHeader(200)];
            headersSetAfter := true;
          }
          actions := actions + WriteBody(p) + FlushIf(canFlush);
        } else if kind == "stream_end" {
          if !headersSet { actions := [WriteHeader(200)]; }
          done := true;
        } else if kind == "error" {
          if !headersSet { actions := [HttpError(ErrorMessage(p), ErrorStatus(p))]; }
          done := true;
        }
    }
  }

  /** A run preceded by `n` events that made the calls `t` without returning. */
  function After(t: seq<Action>, n: nat, r: Run): Run {
    Run(t + r.trace, r.finished, n + r.consumed)
  }

  lemma AfterAfter(t: seq<Action>, n: nat, a: seq<Action>, m: nat, r: Run)
    ensures After(t, n, After(a, m, r)) == After(t + a, n + m, r)
  {
    assert t + (a + r.trace) == (t + a) + r.trace;
  }

  /** The run from event i on, unfolded by one step. */
  lemma RespondFrom(events: seq<Event>, i: nat, headersSet: bool, canFlush: bool)
    requires i < |events|
    ensures var st := StepOn(events[i], headersSet, canFlush);
      Respond(events[i..], headersSet, canFlush) ==
        if st.done then Run(st.actions, true, 1)
        else After(st.actions, 1, Respond(events[i + 1..], st.headersSet, canFlush))
  {
    assert events[i..][0] == events[i];
    assert events[i..][1..] == events[i + 1..];
  }

  /**
   * processWebSocketResponse: consumes events until one ends the request and
   * returns the calls made on the ResponseWriter. When the events run out
   * first, the handler is still waiting (`finished` is false).
   */
  method ProcessWebSocketResponse(events: seq<Event>, canFlush: bool)
    returns (trace: seq<Action>, finished: bool, consumed: nat)
    ensures Run(trace, finished, consumed) == Respond(events, false, canFlush)
  {
    var headersSet := false;
    trace, finished, consumed := [], false, 0;
    assert After([], 0, Respond(events[0..], false, canFlush)) == Respond(events, false, canFlush) by {
      assert events[0..] == events;
    }
    while consumed < |events| && !finished
      invariant consumed <= |events|
      invariant finished ==> Respond(events, false, canFlush) == Run(trace, true, consumed)
      invariant !finished ==>
        Respond(events, false, canFlush) == After(trace, consumed, Respond(events[consumed..], headersSet, canFlush))
      decreases |events| - consumed
    {
      RespondFrom(events, consumed, headersSet, canFlush);
      var actions, headersSetAfter, done := HandleEvent(events[consumed], headersSet, canFlush);
      if done {
        trace, finished := trace + actions, true;
      } else {
        AfterAfter(trace, consumed, actions, 1, Respond(events[consumed + 1..], headersSetAfter, canFlush));
        trace := trace + actions;
      }
      consumed, headersSet := consumed + 1, headersSetAfter;
    }
    if !finished {
      assert events[consumed..] == [];
      assert trace + [] == trace;
    }
  }
}
