/** What reply each request gets: netrpc/net/rpc/rpc_dispatcher.cc, with protobuf services as parameters. */
module Dispatcher {
  import opened Bytes
  import opened TinyPB
  import opened FrameStreams

  const ERROR_FAILED_DESERIALIZE: Int32 := 10000003
  const ERROR_FAILED_SERIALIZE: Int32 := 10000004
  const ERROR_SERVICE_NOT_FOUND: Int32 := 10000008
  const ERROR_PARSE_SERVICE_NAME: Int32 := 10000010

  const DOT: Byte := 46

  /** A source text as bytes; such texts hold no NUL. */
  function Ascii(s: string): (b: seq<Byte>)
    ensures |b| == |s| && NulFree(b)
    ensures forall i :: 0 <= i < |s| && 1 <= s[i] as int < 0x100 ==> b[i] == s[i] as int
  {
    seq(|s|, i requires 0 <= i < |s| => if 1 <= s[i] as int < 0x100 then s[i] as int else 63)
  }

  /** What a synchronous call of a service method does with its closure, and how the response serialises then. */
  datatype CallResult = ClosureDropped | Serialized(data: seq<Byte>) | SerializeFailed(partial: seq<Byte>)

  /** A method: whether it can parse a request body, and what calling it comes to. */
  datatype Method = Method(parses: seq<Byte> -> bool, call: seq<Byte> -> CallResult)

  type Registry = map<seq<Byte>, map<seq<Byte>, Method>>

  datatype FullName = NoName | FullName(service: seq<Byte>, method_: seq<Byte>)

  /** `find_first_of(".")`, or -1. */
  function FirstDot(s: seq<Byte>): (i: int)
    ensures -1 <= i < |s|
    ensures i == -1 <==> DOT !in s
    ensures i >= 0 ==> s[i] == DOT && forall k :: 0 <= k < i ==> s[k] != DOT
  {
    if s == [] then -1
    else if s[0] == DOT then 0
    else
      var i := FirstDot(s[1..]);
      if i == -1 then -1 else i + 1
  }

  /** The text before the first dot and the text after it; no name without a dot. */
  function ParseServiceFullName(full: seq<Byte>): (r: FullName)
    ensures r.NoName? <==> DOT !in full
    ensures r.FullName? ==> full == r.service + [DOT] + r.method_ && DOT !in r.service
  {
    var i := FirstDot(full);
    if full == [] || i == -1 then NoName else FullName(full[..i], full[i + 1..])
  }

  /** The only split at a dot whose left part is free of dots. */
  lemma FirstDotSplit(service: seq<Byte>, method_: seq<Byte>)
    requires DOT !in service
    ensures ParseServiceFullName(service + [DOT] + method_) == FullName(service, method_)
  {
    var full := service + [DOT] + method_;
    var i := FirstDot(full);
    assert full[|service|] == DOT && forall k :: 0 <= k < |service| ==> full[k] == service[k];
    assert full[..|service|] == service && full[|service| + 1..] == method_;
  }

  const BLANK: Message := Message([], [], 0, [], [], 0, 0, 0, 0, false)

  function SetTinyPBError(m: Message, code: Int32, info: string): Message {
    m.(errCode := code, errInfo := Ascii(info), errInfoLen := |info|)
  }

  /** How far a request gets, and what its method's closure makes of the response if it comes to that. */
  datatype Fate =
    | Nameless | NoService | NoMethod | NotParsed | Silent
    | Replied(data: seq<Byte>) | Garbled(partial: seq<Byte>)

  function FateOf(services: Registry, request: Message): Fate {
    var name := ParseServiceFullName(request.methodName);
    if name.NoName? then Nameless
    else if name.service !in services then NoService
    else if name.method_ !in services[name.service] then NoMethod
    else
      var m := services[name.service][name.method_];
      if !m.parses(request.pbData) then NotParsed
      else
        match m.call(request.pbData)
        case ClosureDropped => Silent
        case Serialized(data) => Replied(data)
        case SerializeFailed(partial) => Garbled(partial)
  }

  /** What dispatching a request comes to: the response, and whether the closure has already sent it. */
  datatype Dispatched = Dispatched(response: Message, sent: bool)

  function Dispatch(services: Registry, request: Message): Dispatched {
    var response := BLANK.(msgId := request.msgId, methodName := request.methodName);
    match FateOf(services, request)
    case Nameless => Dispatched(SetTinyPBError(response, ERROR_PARSE_SERVICE_NAME, "parse service name error"), false)
    case NoService => Dispatched(SetTinyPBError(response, ERROR_SERVICE_NOT_FOUND, "service not found"), false)
    case NoMethod => Dispatched(SetTinyPBError(response, ERROR_SERVICE_NOT_FOUND, "method not found"), false)
    case NotParsed => Dispatched(SetTinyPBError(response, ERROR_FAILED_DESERIALIZE, "deserilize error"), false)
    case Silent => Dispatched(response, false)
    case Replied(data) => Dispatched(response.(pbData := data, errCode := 0, errInfo := []), true)
    case Garbled(partial) =>
      Dispatched(SetTinyPBError(response.(pbData := partial), ERROR_FAILED_SERIALIZE, "serilize error"), true)
  }

  /** Every reply carries its request's id and method name, and stays within the field limits the request kept. */
  lemma ReplyKeepsIdentity(services: Registry, request: Message)
    requires Encodable(request) && request.msgId != []
    requires Sized(Dispatch(services, request).response)
    ensures var r := Dispatch(services, request).response;
            r.msgId == request.msgId && r.methodName == request.methodName && Encodable(r)
  {
    hide FateOf, Ascii;
  }

  // The same by the registry alone.

  /** `reply` carries these bytes and this outcome under the request's id and method name. */
  predicate Carries(reply: Message, request: Message, data: seq<Byte>, code: int, text: string) {
    && reply.msgId == request.msgId && reply.methodName == request.methodName
    && reply.pbData == data && reply.errCode == code && reply.errInfo == Ascii(text) && reply.errInfoLen == |text|
  }

  /** A method name without a dot is refused. */
  lemma NamelessReply(services: Registry, request: Message)
    requires DOT !in request.methodName
    ensures var d := Dispatch(services, request);
            !d.sent && Carries(d.response, request, [], 10000010, "parse service name error")
  {
  }

  /** The reply to a request for method `n` of service `s`, in each case there is. */
  lemma NamedReply(services: Registry, request: Message, s: seq<Byte>, n: seq<Byte>)
    requires DOT !in s && request.methodName == s + [DOT] + n
    ensures var d := Dispatch(services, request); var body := request.pbData;
            if s !in services then !d.sent && Carries(d.response, request, [], 10000008, "service not found")
            else if n !in services[s] then !d.sent && Carries(d.response, request, [], 10000008, "method not found")
            else if !services[s][n].parses(body) then
              !d.sent && Carries(d.response, request, [], 10000003, "deserilize error")
            else
              match services[s][n].call(body)
              case ClosureDropped => !d.sent && Carries(d.response, request, [], 0, "")
              case Serialized(data) => d.sent && Carries(d.response, request, data, 0, "")
              case SerializeFailed(part) => d.sent && Carries(d.response, request, part, 10000004, "serilize error")
  {
    hide Ascii;
    FirstDotSplit(s, n);
    assert Ascii("") == [];
  }
}
