/** The JSON-RPC side of distributed-app.js: `jsonrpc` turns a request's
    params into a positional argument list ending in a completion callback,
    the callback wraps the outcome into a response, and `call` forwards an
    invocation of a remote object as a POST to its node. */
module Rpc {
  import opened Wrappers
  import opened Proxies
  import opened Objects

  /** A JSON value as the codec handles it (numbers are integers in the
      model). `Thrown` is an exception object the source catches and passes
      on as an error. */
  datatype Value =
    | Null
    | Bool(b: bool)
    | Num(n: int)
    | Str(s: string)
    | Arr(items: seq<Value>)
    | Obj(fields: map<string, Value>)
    | Thrown(message: string)

  /** JavaScript truthiness of a value. */
  predicate Truthy(v: Value) {
    match v
    case Null => false
    case Bool(b) => b
    case Num(n) => n != 0
    case Str(s) => s != ""
    case _ => true
  }

  /** One slot of a positional argument list: a value, a hole left by a
      named parameter the request did not supply, or the callback. */
  datatype Arg = Val(value: Value) | Undefined | Callback

  /** The two parameter structures of section 4.2 of the JSON-RPC 2.0
      specification, by position and by name, and a request without params. */
  datatype Params = Positional(items: seq<Value>) | Named(fields: map<string, Value>) | NoParams

  datatype Request = Request(id: Value, methodName: string, params: Params)

  datatype Response = Response(id: Value, result: Value, error: Value)

  /** What `jsonrpc` does with a request: invoke the method with an argument
      list, or answer at once from its catch block. */
  datatype Dispatch = Invoke(methodName: string, args: seq<Arg>) | Reply(response: Response)

  /** The exceptions the catch block of `jsonrpc` receives. */
  const MethodNotFound := Thrown("method or object not found")
  const NoParameterNames := Thrown("parameter list of the method is null")
  const ParamsUndefined := Thrown("params is undefined")

  /** The `rpcCallback` of `jsonrpc`: echoes the request id and carries the
      result only when there is no error. */
  function Respond(id: Value, err: Value, result: Value): (r: Response)
    ensures r.id == id && r.error == err
    ensures Truthy(err) ==> r.result == Null
    ensures !Truthy(err) ==> r.result == result
  {
    Response(id, if !Truthy(err) then result else Null, err)
  }

  /** The array branch: the items in order, then the callback. */
  function PositionalArgs(items: seq<Value>): (args: seq<Arg>)
    ensures |args| == |items| + 1 && args[|items|] == Callback
    ensures forall i :: 0 <= i < |items| ==> args[i] == Val(items[i])
  {
    seq(|items|, i requires 0 <= i < |items| => Val(items[i])) + [Callback]
  }

  /** `params[paramName]`: the named value, or undefined. */
  function FieldArg(fields: map<string, Value>, name: string): Arg {
    if name in fields then Val(fields[name]) else Undefined
  }

  /** The object branch: slot `i` takes the value named by the method's
      i-th parameter, and the last slot is overwritten by the callback. */
  function NamedArgs(fields: map<string, Value>, names: seq<string>): (args: seq<Arg>)
    requires |names| > 0
    ensures |args| == |names| && args[|names| - 1] == Callback
    ensures forall i :: 0 <= i < |names| - 1 ==>
      args[i] == if names[i] in fields then Val(fields[names[i]]) else Undefined
  {
    seq(|names|, i requires 0 <= i < |names| => FieldArg(fields, names[i]))[|names| - 1 := Callback]
  }

  /** jsonrpc: maps the request's params onto the method's parameter list.
      `signature` is the method's parameter-name list, None when the object
      module or the method does not exist. */
  function Jsonrpc(req: Request, signature: Option<seq<string>>): (r: Dispatch)
    ensures r.Reply? <==> !req.params.Positional? && (signature.None? || |signature.value| == 0 || req.params.NoParams?)
    ensures r.Reply? ==> r.response.id == req.id && r.response.result == Null && Truthy(r.response.error)
    ensures r.Invoke? ==> r.methodName == req.methodName && |r.args| > 0 && r.args[|r.args| - 1] == Callback
    ensures req.params.Positional? ==>
      && r.Invoke? && |r.args| == |req.params.items| + 1
      && forall i :: 0 <= i < |req.params.items| ==> r.args[i] == Val(req.params.items[i])
    ensures req.params.Named? && signature.Some? && |signature.value| > 0 ==>
      && r.Invoke? && |r.args| == |signature.value|
      && forall i :: 0 <= i < |signature.value| - 1 ==>
           r.args[i] == if signature.value[i] in req.params.fields
                        then Val(req.params.fields[signature.value[i]]) else Undefined
  {
    match req.params
    case Positional(items) => Invoke(req.methodName, PositionalArgs(items))
    case Named(fields) =>
      if signature.None? then Reply(Response(req.id, Null, MethodNotFound))
      else if |signature.value| == 0 then Reply(Response(req.id, Null, NoParameterNames))
      else Invoke(req.methodName, NamedArgs(fields, signature.value))
    case NoParams =>
      if signature.None? then Reply(Response(req.id, Null, MethodNotFound))
      else if |signature.value| == 0 then Reply(Response(req.id, Null, NoParameterNames))
      else Reply(Response(req.id, Null, ParamsUndefined))
  }

  /** A by-name request that supplies every parameter dispatches the same
      call as the by-position request listing the same values in the
      method's parameter order. */
  lemma NamedMatchesPositional(id: Value, methodName: string, fields: map<string, Value>,
                               items: seq<Value>, names: seq<string>)
    requires |names| == |items| + 1
    requires forall i :: 0 <= i < |items| ==> names[i] in fields && fields[names[i]] == items[i]
    ensures Jsonrpc(Request(id, methodName, Named(fields)), Some(names))
         == Jsonrpc(Request(id, methodName, Positional(items)), Some(names))
  {
    var a := NamedArgs(fields, names);
    var b := PositionalArgs(items);
    assert |a| == |b|;
    assert forall i :: 0 <= i < |a| ==> a[i] == b[i];
  }

  /** How an argument travels inside a JSON array: `undefined` and
      functions are written as null. */
  function Wire(a: Arg): (v: Value)
    ensures a.Val? ==> v == a.value
    ensures !a.Val? ==> v == Null
  {
    match a
    case Val(v) => v
    case _ => Null
  }

  /** The JSON-RPC request body `call` sends to a remote object. */
  datatype Envelope = Envelope(methodName: string, params: seq<Value>)

  datatype Post = Post(url: string, body: Envelope)

  /** What `call` does with an invocation: run it on the local instance, or
      post it to the remote node and hand the reply to `callback`. */
  datatype Route = Local(methodName: string, args: seq<Arg>) | Remote(post: Post, callback: Arg)

  datatype Routed = Routed(dir: Directory, route: Route)

  /** `object.url + '/rpc/' + objectName`; an absent url would print as
      "undefined". */
  function RpcUrl(url: Option<Url>, name: string): (r: string)
    ensures url.Some? ==> |url.value| <= |r| && r[..|url.value|] == url.value
    ensures url.None? ==> |r| >= 9 && r[..9] == "undefined"
    ensures |"/rpc/" + name| <= |r| && r[|r| - |name| - 5..] == "/rpc/" + name
  {
    url.GetOr("undefined") + "/rpc/" + name
  }

  /** Calls to different objects at one node go to different endpoints. */
  lemma RpcUrlInjective(url: Option<Url>, a: string, b: string)
    ensures RpcUrl(url, a) == RpcUrl(url, b) ==> a == b
  {
    if RpcUrl(url, a) == RpcUrl(url, b) {
      var prefix := url.GetOr("undefined") + "/rpc/";
      assert RpcUrl(url, a)[|prefix|..] == a;
      assert RpcUrl(url, b)[|prefix|..] == b;
    }
  }

  /** call: looks the object up (creating a local entry when it is unknown)
      and either invokes it here or splits off the trailing callback and
      builds the envelope for the remote node. */
  function Call(d: Directory, name: string, methodName: string, params: seq<Arg>): (r: Routed)
    ensures r.dir == Get(d, name).dir && name in r.dir
    ensures r.route.Local? <==> r.dir[name].isLocal
    ensures r.route.Local? ==> r.route.methodName == methodName && r.route.args == params
    ensures r.route.Remote? ==>
      && r.route.post.url == RpcUrl(r.dir[name].url, name)
      && r.route.post.body.methodName == methodName
      && |r.route.post.body.params| == (if |params| == 0 then 0 else |params| - 1)
      && (forall i :: 0 <= i < |r.route.post.body.params| ==> r.route.post.body.params[i] == Wire(params[i]))
      && r.route.callback == (if |params| == 0 then Undefined else params[|params| - 1])
  {
    var found := Get(d, name);
    var entry := found.entry;
    if entry.isLocal then Routed(found.dir, Local(methodName, params))
    else
      var iMax := |params| - 1;
      var args := if iMax <= 0 then [] else seq(iMax, i requires 0 <= i < iMax => Wire(params[i]));
      var callback := if iMax >= 0 then params[iMax] else Undefined;
      Routed(found.dir, Remote(Post(RpcUrl(entry.url, name), Envelope(methodName, args)), callback))
  }

  /** An object that is unknown or local is invoked in-process. */
  lemma UnknownObjectsRunLocally(d: Directory, name: string, methodName: string, params: seq<Arg>)
    requires name !in d || d[name].isLocal
    ensures Call(d, name, methodName, params).route == Local(methodName, params)
  {
  }

  /** The remote call is a round trip: when the caller's argument list is
      values followed by the callback, the receiving node's `jsonrpc`
      rebuilds exactly the same argument list, with its own callback in
      the last slot. */
  lemma RemoteCallRoundTrip(d: Directory, name: string, methodName: string, params: seq<Arg>,
                            id: Value, signature: Option<seq<string>>)
    requires ValidDirectory(d) && name in d && !d[name].isLocal
    requires |params| > 0 && params[|params| - 1] == Callback
    requires forall i :: 0 <= i < |params| - 1 ==> params[i].Val?
    ensures Call(d, name, methodName, params).route.Remote?
    ensures Call(d, name, methodName, params).route.post.url == d[name].url.value + "/rpc/" + name
    ensures var env := Call(d, name, methodName, params).route.post.body;
      Jsonrpc(Request(id, env.methodName, Positional(env.params)), signature) == Invoke(methodName, params)
  {
    var env := Call(d, name, methodName, params).route.post.body;
    var args := PositionalArgs(env.params);
    assert |args| == |params|;
    assert forall i :: 0 <= i < |params| ==> args[i] == params[i];
  }

  /** The outcome of the POST: a transport error, or the decoded response. */
  datatype Transport = TransportError(error: Value) | Delivered(response: Response)

  /** The arguments `call` passes to the caller's callback. */
  datatype Completion = Completion(err: Value, result: Value)

  /** The request callback inside `call`: a transport error with a null
      result, or the response's error and result. */
  function Deliver(t: Transport): (c: Completion)
    ensures t.TransportError? ==> c == Completion(t.error, Null)
    ensures t.Delivered? ==> c.err == t.response.error && c.result == t.response.result
  {
    match t
    case TransportError(e) => Completion(e, Null)
    case Delivered(res) => Completion(res.error, res.result)
  }

  /** A node that forwards a request to the object's owner answers with the
      owner's error and result unchanged, under its own request id. */
  lemma ForwardingIsTransparent(ownerId: Value, id: Value, err: Value, result: Value)
    ensures var c := Deliver(Delivered(Respond(ownerId, err, result)));
      Respond(id, c.err, c.result) == Respond(id, err, result)
  {
  }

  /** A transport error reaches the forwarding node's caller as an error
      with a null result. */
  lemma TransportErrorReported(id: Value, e: Value)
    requires Truthy(e)
    ensures var c := Deliver(TransportError(e));
      Respond(id, c.err, c.result) == Response(id, Null, e)
  {
  }
}
