/**
 * The request/response correlator of the inspector front-end
 * (`InspectorBackend.js`). Each command sent to the back-end gets a fresh
 * callback id, and `_pendingResponsesCount` counts the callbacks still waiting.
 * Arguments are checked against the command's signature before anything is
 * sent. A response runs its callback once; an event goes to its domain's
 * dispatcher. Queued scripts run when nothing is pending. Error descriptions
 * follow the reserved codes of section 5.1 of the JSON-RPC 2.0 specification.
 */
module InspectorBackend {
  import opened JsRuntime

  /** The JavaScript values that travel through the correlator (numbers are integers here). */
  datatype Value =
    | Undefined
    | Null
    | Bool(b: bool)
    | Num(n: int)
    | Str(s: string)
    | Object(props: map<string, Value>)
    | Function(fn: nat)

  /** `typeof v`. */
  function TypeOf(v: Value): string
  {
    match v
    case Undefined => "undefined"
    case Null => "object"
    case Bool(_) => "boolean"
    case Num(_) => "number"
    case Str(_) => "string"
    case Object(_) => "object"
    case Function(_) => "function"
  }

  /** JavaScript truthiness (objects and functions are always truthy). */
  predicate Truthy(v: Value)
  {
    match v
    case Undefined => false
    case Null => false
    case Bool(b) => b
    case Num(n) => n != 0
    case Str(s) => s != []
    case Object(_) => true
    case Function(_) => true
  }

  /** `v[name]` on an object; `undefined` when the property is missing. */
  function Get(v: Value, name: string): Value
  {
    if v.Object? && name in v.props then v.props[name] else Undefined
  }

  /** One entry of a command signature: `{name, type, optional}`. */
  datatype Param = Param(name: string, typeName: string, optional: bool)

  /**
   * A waiting callback: a function the caller gave, whose `methodName` property
   * lives on the function itself (so a later command that reuses the function
   * overwrites it), or the fresh no-op `_wrap` makes, carrying its own method name.
   */
  datatype Callback = Given(fn: nat) | NoOp(methodName: string)
  {
    /** The function called: `None` for the no-op. */
    function Fn(): Option<nat>
    {
      if Given? then Some(fn) else None
    }
  }

  /** The callback `_wrap` stores: the given function, or a fresh no-op named after the method. */
  function Wrapped(callback: Option<nat>, methodName: string): Callback
  {
    if callback.Some? then Given(callback.value) else NoOp(methodName)
  }

  /** What `sendMessageObjectToBackend` receives: `{method, params?, id}`. */
  datatype MessageObject = MessageObject(methodName: string, params: Option<map<string, Value>>, id: int)

  /** A message from the back-end: a response (it has an `id`) or an event. Missing fields are `undefined`. */
  datatype Message =
    | Response(id: Value, error: Value, result: Value)
    | Event(methodName: string, params: Value)

  /** A function the correlator calls: a response callback, a dispatcher function or a queued script. */
  datatype Call =
    | CallbackCall(fn: Option<nat>, args: seq<Value>)
    | HandlerCall(domain: string, functionName: string, args: seq<Value>)
    | ScriptCall(script: nat)

  // Argument checking in `_sendMessageToBackend`: parameter `i` takes argument `i`.

  /** The trailing function argument, when there is one, is the callback and is removed. */
  function SplitCallback(vararg: seq<Value>): (r: (seq<Value>, Option<nat>))
    ensures r.1.Some? ==> vararg == r.0 + [Function(r.1.value)]
    ensures r.1.None? ==> r.0 == vararg && (vararg == [] || !vararg[|vararg| - 1].Function?)
  {
    if |vararg| > 0 && vararg[|vararg| - 1].Function? then (vararg[..|vararg| - 1], Some(vararg[|vararg| - 1].fn))
    else (vararg, None)
  }

  /** The argument shifted off for parameter `i`; `undefined` once the arguments run out. */
  function ArgAt(args: seq<Value>, i: nat): Value
  {
    if i < |args| then args[i] else Undefined
  }

  /** Parameter `i` gets a value: it is not an optional parameter left `undefined`. */
  predicate Supplied(signature: seq<Param>, args: seq<Value>, i: nat)
    requires i < |signature|
  {
    !(signature[i].optional && ArgAt(args, i) == Undefined)
  }

  /** Parameter `i` passes: it has an argument unless optional, and a supplied value has the declared type. */
  predicate ParamOk(signature: seq<Param>, args: seq<Value>, i: nat)
    requires i < |signature|
  {
    (i < |args| || signature[i].optional) &&
    (Supplied(signature, args, i) ==> TypeOf(ArgAt(args, i)) == signature[i].typeName)
  }

  /**
   * The call is sent: every parameter passes, and without a callback a single
   * leftover argument must be `undefined`.
   */
  predicate Accepted(signature: seq<Param>, vararg: seq<Value>)
  {
    var (args, callback) := SplitCallback(vararg);
    (forall i :: 0 <= i < |signature| ==> ParamOk(signature, args, i)) &&
    !(callback.None? && |args| == |signature| + 1 && args[|signature|] != Undefined)
  }

  /** `params` after the first `n` parameters: each supplied value stored under its name, later ones winning. */
  function ParamsOf(signature: seq<Param>, args: seq<Value>, n: nat): map<string, Value>
    requires n <= |signature|
  {
    if n == 0 then map[]
    else
      var m := ParamsOf(signature, args, n - 1);
      if Supplied(signature, args, n - 1) then m[signature[n - 1].name := ArgAt(args, n - 1)] else m
  }

  /** Some of the first `n` parameters got a value (`hasParams`). */
  predicate HasParams(signature: seq<Param>, args: seq<Value>, n: nat)
    requires n <= |signature|
  {
    exists j :: 0 <= j < n && Supplied(signature, args, j)
  }

  /** The `params` object sent: the supplied values, or `null` when there are none. */
  function ParamsSent(signature: seq<Param>, vararg: seq<Value>): Option<map<string, Value>>
  {
    var args := SplitCallback(vararg).0;
    if HasParams(signature, args, |signature|) then Some(ParamsOf(signature, args, |signature|)) else None
  }

  /** A name is in `params` exactly when some supplied parameter has it. */
  lemma {:induction false} ParamsOfKeys(signature: seq<Param>, args: seq<Value>, n: nat, name: string)
    requires n <= |signature|
    ensures name in ParamsOf(signature, args, n) <==>
            exists j :: 0 <= j < n && Supplied(signature, args, j) && signature[j].name == name
    decreases n
  {
    if n > 0 {
      ParamsOfKeys(signature, args, n - 1, name);
      if name in ParamsOf(signature, args, n) && name !in ParamsOf(signature, args, n - 1) {
        assert Supplied(signature, args, n - 1) && signature[n - 1].name == name;
      }
    }
  }

  /** Under each name `params` holds the value of the last supplied parameter with that name. */
  lemma {:induction false} ParamsOfValue(signature: seq<Param>, args: seq<Value>, n: nat, j: nat)
    requires j < n <= |signature| && Supplied(signature, args, j)
    requires forall k :: j < k < n ==> !(Supplied(signature, args, k) && signature[k].name == signature[j].name)
    ensures signature[j].name in ParamsOf(signature, args, n)
    ensures ParamsOf(signature, args, n)[signature[j].name] == ArgAt(args, j)
    decreases n
  {
    if j < n - 1 {
      ParamsOfValue(signature, args, n - 1, j);
    }
  }

  /** The reserved error codes of section 5.1 of the JSON-RPC 2.0 specification, as `getDescription` names them. */
  function Description(code: Value): (d: Option<string>)
    ensures d.Some? <==> code in {Num(-32700), Num(-32600), Num(-32601), Num(-32602), Num(-32603), Num(-32000)}
  {
    match code
    case Num(-32700) => Some("Parse error")
    case Num(-32600) => Some("Invalid Request")
    case Num(-32601) => Some("Method not found")
    case Num(-32602) => Some("Invalid params")
    case Num(-32603) => Some("Internal error")
    case Num(-32000) => Some("Server error")
    case _ => None
  }

  /** Every error response is reported except one with code -32000 (a server error). */
  predicate Reported(error: Value)
  {
    Truthy(error) && Get(error, "code") != Num(-32000)
  }

  /**
   * Reporting this error throws. `reportProtocolError` concatenates the error to
   * a string, which calls the `toString` that `dispatch` installs on it, and that
   * evaluates `this.data.join(" ")` whenever `data` is truthy: every truthy value
   * here but an object with a `join` function lacks it, so the call is a TypeError.
   */
  predicate ReportThrows(error: Value)
  {
    var data := Get(error, "data");
    Reported(error) && error.Object? && Truthy(data) && !Get(data, "join").Function?
  }

  /** An unlisted error with a text `data` throws while it is reported; a server error is never reported. */
  lemma ReportThrowsOnData(code: int, data: string)
    requires data != []
    ensures code != -32000 ==> ReportThrows(Object(map["code" := Num(code), "message" := Str("m"), "data" := Str(data)]))
    ensures !ReportThrows(Object(map["code" := Num(-32000), "message" := Str("m"), "data" := Str(data)]))
    ensures !ReportThrows(Object(map["code" := Num(code), "message" := Str("m")]))
  {
    var e := Object(map["code" := Num(code), "message" := Str("m"), "data" := Str(data)]);
    assert Get(e, "code") == Num(code) && Get(e, "data") == Str(data);
    assert Get(Object(map["code" := Num(code), "message" := Str("m")]), "data") == Undefined;
  }

  /** The arguments of a response callback: the error first, then the result fields in reply-argument order. */
  function ReplyArguments(error: Value, result: Value, names: Option<seq<string>>): (args: seq<Value>)
    ensures |args| >= 1 && args[0] == error
    ensures Truthy(result) && names.Some? ==>
              |args| == 1 + |names.value| && forall i :: 0 <= i < |names.value| ==> args[i + 1] == Get(result, names.value[i])
    ensures !(Truthy(result) && names.Some?) ==> args == [error]
  {
    [error] + (if Truthy(result) && names.Some? then seq(|names.value|, i requires 0 <= i < |names.value| => Get(result, names.value[i])) else [])
  }

  /** The arguments of an event handler: the event's parameters in registered order, none without `params`. */
  function EventArguments(params: Value, names: seq<string>): (args: seq<Value>)
    ensures Truthy(params) ==> |args| == |names| && forall i :: 0 <= i < |names| ==> args[i] == Get(params, names[i])
    ensures !Truthy(params) ==> args == []
  {
    if Truthy(params) then seq(|names|, i requires 0 <= i < |names| => Get(params, names[i])) else []
  }

  /** `method.split(".")[0]`: the text before the first '.'. */
  function DomainName(methodName: string): (d: string)
    ensures d <= methodName && '.' !in d
    ensures |d| < |methodName| ==> methodName[|d|] == '.'
  {
    if methodName == [] || methodName[0] == '.' then [] else [methodName[0]] + DomainName(methodName[1..])
  }

  /** The text after the first '.' of `method`, if there is one. */
  function AfterDomain(methodName: string): (r: Option<string>)
    ensures r.Some? <==> |DomainName(methodName)| < |methodName|
    ensures r.Some? ==> r.value == methodName[|DomainName(methodName)| + 1..]
  {
    var d := DomainName(methodName);
    if |d| < |methodName| then Some(methodName[|d| + 1..]) else None
  }

  /**
   * `method.split(".")[1]` used as a property key: the text between the first and
   * second '.', or the key "undefined" when there is no '.'.
   */
  function FunctionKey(methodName: string): string
  {
    match AfterDomain(methodName)
    case Some(rest) => DomainName(rest)
    case None => "undefined"
  }

  /** Splitting undoes joining a domain and a function name that hold no '.'. */
  lemma SplitJoin(domain: string, functionName: string)
    requires '.' !in domain && '.' !in functionName
    ensures DomainName(domain + "." + functionName) == domain
    ensures FunctionKey(domain + "." + functionName) == functionName
  {
    JoinedDomain(domain, functionName);
    JoinedKey(domain, functionName);
  }

  lemma JoinedDomain(domain: string, functionName: string)
    requires '.' !in domain
    ensures DomainName(domain + "." + functionName) == domain
  {
    DomainNameOf(domain, "." + functionName);
    assert domain + ("." + functionName) == domain + "." + functionName;
  }

  lemma JoinedKey(domain: string, functionName: string)
    requires '.' !in domain && '.' !in functionName
    ensures FunctionKey(domain + "." + functionName) == functionName
  {
    var joined := domain + "." + functionName;
    JoinedDomain(domain, functionName);
    assert joined[|domain| + 1..] == functionName;
    DomainNameOf(functionName, []);
    assert functionName + [] == functionName;
  }

  /** The domain part of a text that starts with a dot-free word ends where the word does. */
  lemma {:induction false} DomainNameOf(word: string, rest: string)
    requires '.' !in word && (rest == [] || rest[0] == '.')
    ensures DomainName(word + rest) == word
    decreases |word|
  {
    if word == [] {
      assert word + rest == rest;
    } else {
      DomainNameOf(word[1..], rest);
      assert (word + rest)[1..] == word[1..] + rest;
    }
  }

  /**
   * The callback id `_callbacks[id]` finds: the key is the id's text, so a number
   * finds itself and a string finds the number it is the decimal text of.
   */
  function KeyOf(id: Value): Option<int>
  {
    match id
    case Num(n) => Some(n)
    case Str(s) =>
      if s != [] && (forall i :: 0 <= i < |s| ==> IsDigitChar(s[i])) && NatToString(DecimalValue(s)) == s
      then Some(DecimalValue(s)) else None
    case _ => None
  }

  /** A non-negative id is found by its number and by its decimal text, and by nothing else. */
  lemma KeyOfMeans(id: Value, k: nat)
    ensures KeyOf(id) == Some(k) <==> id == Num(k) || id == Str(NatToString(k))
  {
    if id == Str(NatToString(k)) {
      NatToStringRoundTrip(k);
    }
  }

  /** The queued scripts `dispatch` runs once no response is pending. */
  function ScriptsRun(scripts: Option<seq<nat>>, pending: int): seq<Call>
  {
    if scripts.Some? && pending == 0 then ScriptCalls(scripts.value) else []
  }

  function ScriptCalls(scripts: seq<nat>): (calls: seq<Call>)
    ensures |calls| == |scripts| && forall i :: 0 <= i < |scripts| ==> calls[i] == ScriptCall(scripts[i])
  {
    seq(|scripts|, i requires 0 <= i < |scripts| => ScriptCall(scripts[i]))
  }

  /** `InspectorBackendClass`. */
  class Backend {
    var lastCallbackId: int
    var pendingResponsesCount: int
    var callbacks: map<int, Callback>
    /** The `methodName` property of each function given as a callback, as last written by `_wrap`. */
    var methodNames: map<nat, string>
    var domainDispatchers: map<string, set<string>>
    var eventArgs: map<string, seq<string>>
    var replyArgs: map<string, seq<string>>
    /** `_scripts`: `undefined` until `runAfterPendingDispatches` first runs. */
    var scripts: Option<seq<nat>>
    /** The message objects handed to `InspectorFrontendHost.sendMessageToBackend`, in order. */
    var sent: seq<MessageObject>
    /** The callbacks, dispatcher functions and scripts called, in order. */
    var calls: seq<Call>
    /** The ids of the responses reported as protocol errors, in order. */
    var reported: seq<Value>

    /**
     * The pending counter counts the waiting callbacks, and every waiting id was
     * handed out already (so the next one is fresh).
     */
    predicate Valid()
      reads this
    {
      lastCallbackId >= 1 && pendingResponsesCount == |callbacks| &&
      forall id :: id in callbacks ==> 1 <= id < lastCallbackId
    }

    constructor ()
      ensures Valid()
      ensures lastCallbackId == 1 && pendingResponsesCount == 0 && callbacks == map[] && methodNames == map[]
      ensures domainDispatchers == map[] && eventArgs == map[] && replyArgs == map[] && scripts == None
      ensures sent == [] && calls == [] && reported == []
    {
      lastCallbackId := 1;
      pendingResponsesCount := 0;
      callbacks := map[];
      methodNames := map[];
      domainDispatchers := map[];
      eventArgs := map[];
      replyArgs := map[];
      scripts := None;
      sent := [];
      calls := [];
      reported := [];
    }

    /** `registerCommand`: remembers the reply argument names (the agent globals are not modelled). */
    method RegisterCommand(methodName: string, replyNames: seq<string>)
      modifies this`replyArgs
      ensures replyArgs == old(replyArgs)[methodName := replyNames]
    {
      replyArgs := replyArgs[methodName := replyNames];
    }

    /** `registerEvent`. */
    method RegisterEvent(eventName: string, params: seq<string>)
      modifies this`eventArgs
      ensures eventArgs == old(eventArgs)[eventName := params]
    {
      eventArgs := eventArgs[eventName := params];
    }

    /** `registerDomainDispatcher`: a dispatcher is known by the names of the functions it implements. */
    method RegisterDomainDispatcher(domain: string, functions: set<string>)
      modifies this`domainDispatchers
      ensures domainDispatchers == old(domainDispatchers)[domain := functions]
    {
      domainDispatchers := domainDispatchers[domain := functions];
    }

    /**
     * `_wrap`: the next id, never used before; the callback (or a fresh no-op) is
     * stored under it, and the method name is written on that function.
     */
    method Wrap(callback: Option<nat>, methodName: string) returns (callbackId: int)
      requires lastCallbackId >= 1 && forall id :: id in callbacks ==> 1 <= id < lastCallbackId
      modifies this`lastCallbackId, this`callbacks, this`methodNames
      ensures callbackId == old(lastCallbackId) && lastCallbackId == callbackId + 1
      ensures callbackId !in old(callbacks)
      ensures callbacks == old(callbacks)[callbackId := Wrapped(callback, methodName)]
      ensures methodNames == if callback.Some? then old(methodNames)[callback.value := methodName] else old(methodNames)
      ensures |callbacks| == |old(callbacks)| + 1
      ensures forall id :: id in callbacks ==> 1 <= id < lastCallbackId
    {
      callbackId := lastCallbackId;
      lastCallbackId := lastCallbackId + 1;
      callbacks := callbacks[callbackId := Wrapped(callback, methodName)];
      if callback.Some? {
        methodNames := methodNames[callback.value := methodName];
      }
    }

    /** The method name a callback carries now; a given function never wrapped has none, read as the key "undefined". */
    function MethodNameOf(cb: Callback): string
      reads this`methodNames
    {
      match cb
      case NoOp(name) => name
      case Given(fn) => if fn in methodNames then methodNames[fn] else "undefined"
    }

    /** `_wrapCallbackAndSendMessageObject`: one more pending response, one more message sent. */
    method WrapCallbackAndSendMessageObject(methodName: string, params: Option<map<string, Value>>, callback: Option<nat>)
      requires Valid()
      modifies this`lastCallbackId, this`callbacks, this`methodNames, this`pendingResponsesCount, this`sent
      ensures Valid()
      ensures lastCallbackId == old(lastCallbackId) + 1 && pendingResponsesCount == old(pendingResponsesCount) + 1
      ensures callbacks == old(callbacks)[old(lastCallbackId) := Wrapped(callback, methodName)]
      ensures sent == old(sent) + [MessageObject(methodName, params, old(lastCallbackId))]
      ensures methodNames == if callback.Some? then old(methodNames)[callback.value := methodName] else old(methodNames)
    {
      var id := Wrap(callback, methodName);
      pendingResponsesCount := pendingResponsesCount + 1;
      sent := sent + [MessageObject(methodName, params, id)];
    }

    /** `_invoke`: sends the given parameters object as it is. */
    method Invoke(methodName: string, args: Option<map<string, Value>>, callback: Option<nat>)
      requires Valid()
      modifies this`lastCallbackId, this`callbacks, this`methodNames, this`pendingResponsesCount, this`sent
      ensures Valid()
      ensures lastCallbackId == old(lastCallbackId) + 1 && pendingResponsesCount == old(pendingResponsesCount) + 1
      ensures callbacks == old(callbacks)[old(lastCallbackId) := Wrapped(callback, methodName)]
      ensures sent == old(sent) + [MessageObject(methodName, args, old(lastCallbackId))]
      ensures methodNames == if callback.Some? then old(methodNames)[callback.value := methodName] else old(methodNames)
    {
      WrapCallbackAndSendMessageObject(methodName, args, callback);
    }

    /**
     * `_sendMessageToBackend`: checks the arguments against the signature and
     * sends the command only when they pass, with the supplied values as
     * `params` (or `null`) and the trailing function as its callback.
     */
    method SendMessageToBackend(methodName: string, signature: seq<Param>, vararg: seq<Value>) returns (ok: bool)
      requires Valid()
      modifies this`lastCallbackId, this`callbacks, this`methodNames, this`pendingResponsesCount, this`sent
      ensures Valid()
      ensures ok <==> Accepted(signature, vararg)
      ensures ok ==> lastCallbackId == old(lastCallbackId) + 1 && pendingResponsesCount == old(pendingResponsesCount) + 1
      ensures ok ==> callbacks == old(callbacks)[old(lastCallbackId) := Wrapped(SplitCallback(vararg).1, methodName)]
      ensures ok ==> sent == old(sent) + [MessageObject(methodName, ParamsSent(signature, vararg), old(lastCallbackId))]
      ensures ok && SplitCallback(vararg).1.Some? ==> methodNames == old(methodNames)[SplitCallback(vararg).1.value := methodName]
      ensures !(ok && SplitCallback(vararg).1.Some?) ==> methodNames == old(methodNames)
      ensures !ok ==> lastCallbackId == old(lastCallbackId) && pendingResponsesCount == old(pendingResponsesCount)
      ensures !ok ==> callbacks == old(callbacks) && sent == old(sent)
    {
      var all, callback := vararg, None;
      if |all| > 0 && all[|all| - 1].Function? {
        callback := Some(all[|all| - 1].fn);
        all := all[..|all| - 1];
      }
      var args := all;
      var params: map<string, Value> := map[];
      var hasParams := false;
      var i := 0;
      while i < |signature|
        invariant 0 <= i <= |signature|
        invariant args == if i < |all| then all[i..] else []
        invariant forall k :: 0 <= k < i ==> ParamOk(signature, all, k)
        invariant params == ParamsOf(signature, all, i)
        invariant hasParams <==> HasParams(signature, all, i)
      {
        var param := signature[i];
        if args == [] && !param.optional {
          assert !ParamOk(signature, all, i);
          return false;
        }
        var value := if args == [] then Undefined else args[0];
        args := if args == [] then [] else args[1..];
        assert value == ArgAt(all, i);
        if param.optional && value == Undefined {
          assert !HasParams(signature, all, i + 1) <==> !HasParams(signature, all, i) by {
            assert !Supplied(signature, all, i);
          }
          i := i + 1;
          continue;
        }
        if TypeOf(value) != param.typeName {
          assert !ParamOk(signature, all, i);
          return false;
        }
        params := params[param.name := value];
        hasParams := true;
        i := i + 1;
      }
      if |args| == 1 && callback.None? {
        if args[0] != Undefined {
          assert all[|signature|] == args[0];
          return false;
        }
      }
      ok := true;
      WrapCallbackAndSendMessageObject(methodName, if hasParams then Some(params) else None, callback);
    }

    /**
     * `runAfterPendingDispatches`: queues the script, if any; with nothing pending
     * the queue is emptied and then every queued script runs, in order.
     */
    method RunAfterPendingDispatches(script: Option<nat>)
      modifies this`scripts, this`calls
      ensures var queued := old(scripts).GetOr([]) + (if script.Some? then [script.value] else []);
              if pendingResponsesCount == 0 then scripts == Some([]) && calls == old(calls) + ScriptCalls(queued)
              else scripts == Some(queued) && calls == old(calls)
    {
      ghost var queued := old(scripts).GetOr([]) + (if script.Some? then [script.value] else []);
      var queue := if scripts.Some? then scripts.value else [];
      if script.Some? {
        queue := queue + [script.value];
      }
      assert queue == queued;
      scripts := Some(queue);
      if pendingResponsesCount == 0 {
        scripts := Some([]);
        var id := 0;
        while id < |queue|
          invariant 0 <= id <= |queue|
          invariant calls == old(calls) + ScriptCalls(queue[..id])
          invariant scripts == Some([])
        {
          assert ScriptCalls(queue[..id + 1]) == ScriptCalls(queue[..id]) + [ScriptCall(queue[id])];
          calls := calls + [ScriptCall(queue[id])];
          id := id + 1;
        }
        assert queue[..id] == queue;
      }
    }

    /** `_replyArgs[methodName]`, when registered. */
    function ReplyNames(methodName: string): Option<seq<string>>
      reads this`replyArgs
    {
      if methodName in replyArgs then Some(replyArgs[methodName]) else None
    }

    /** The id of the waiting callback a response id finds. */
    function Waiting(id: Value): (r: Option<int>)
      reads this`callbacks
      ensures r.Some? ==> r == KeyOf(id) && r.value in callbacks
      ensures r.None? ==> KeyOf(id).None? || KeyOf(id).value !in callbacks
    {
      if KeyOf(id).Some? && KeyOf(id).value in callbacks then KeyOf(id) else None
    }

    /**
     * `dispatch` of a response: a report unless the error code is -32000; the
     * waiting callback, if any, runs once with the error and the result fields and
     * is removed; then, with nothing left pending, the queued scripts run. A report
     * that throws ends the dispatch before the callback is looked up.
     */
    method DispatchResponse(id: Value, error: Value, result: Value) returns (threw: bool)
      requires Valid()
      modifies this`reported, this`calls, this`pendingResponsesCount, this`callbacks, this`scripts
      ensures Valid()
      ensures threw == ReportThrows(error)
      ensures ResponseDispatched(id, error, result)
    {
      threw := ReportThrows(error);
      if !threw {
        Respond(id, error, result);
      }
    }

    /** A response's dispatch once its error, if any, has been reported without throwing. */
    method Respond(id: Value, error: Value, result: Value)
      requires Valid() && !ReportThrows(error)
      modifies this`reported, this`calls, this`pendingResponsesCount, this`callbacks, this`scripts
      ensures Valid()
      ensures Responded(id, error, result)
    {
      ghost var remaining, run := Remaining(id), CallbackRun(id, error, result);
      Report(id, error);
      ResolveCallback(id, error, result);
      assert callbacks == remaining && calls == old(calls) + run;
      RunScriptsIfIdle();
    }

    /** `reportProtocolError`, reached unless the error code is -32000. */
    method Report(id: Value, error: Value)
      modifies this`reported
      ensures reported == old(reported) + if Reported(error) then [id] else []
    {
      if Reported(error) {
        reported := reported + [id];
      }
    }

    /**
     * What `dispatch` of a response does: a report unless the error code is -32000;
     * the waiting callback, if any, runs once and is removed; then, once the queue
     * exists and nothing is pending, the queued scripts run and the queue is emptied.
     * When the report throws, nothing is reported, run or removed.
     */
    twostate predicate ResponseDispatched(id: Value, error: Value, result: Value)
      reads this
    {
      if ReportThrows(error) then
        reported == old(reported) && callbacks == old(callbacks) && pendingResponsesCount == old(pendingResponsesCount)
        && calls == old(calls) && scripts == old(scripts)
      else
        Responded(id, error, result)
    }

    /** What a response's dispatch does when its report does not throw. */
    twostate predicate Responded(id: Value, error: Value, result: Value)
      reads this
    {
      reported == old(reported) + (if Reported(error) then [id] else [])
      && callbacks == old(Remaining(id)) && pendingResponsesCount == |callbacks|
      && calls == old(calls) + old(CallbackRun(id, error, result)) + ScriptsRun(old(scripts), pendingResponsesCount)
      && scripts == (if old(scripts).Some? && pendingResponsesCount == 0 then Some([]) else old(scripts))
    }

    /** The tail of `dispatch`: once the queue exists and nothing is pending, the queued scripts run. */
    method RunScriptsIfIdle()
      modifies this`scripts, this`calls
      ensures calls == old(calls) + ScriptsRun(old(scripts), pendingResponsesCount)
      ensures scripts == if old(scripts).Some? && pendingResponsesCount == 0 then Some([]) else old(scripts)
    {
      if scripts.Some? && pendingResponsesCount == 0 {
        RunAfterPendingDispatches(None);
      }
    }

    /** The part of a response's dispatch that runs and removes its waiting callback. */
    method ResolveCallback(id: Value, error: Value, result: Value)
      requires Valid()
      modifies this`calls, this`pendingResponsesCount, this`callbacks
      ensures Valid()
      ensures callbacks == old(Remaining(id))
      ensures calls == old(calls) + old(CallbackRun(id, error, result))
    {
      var key := KeyOf(id);
      if key.Some? && key.value in callbacks {
        var cb := callbacks[key.value];
        calls := calls + [CallbackCall(cb.Fn(), ReplyArguments(error, result, ReplyNames(MethodNameOf(cb))))];
        pendingResponsesCount := pendingResponsesCount - 1;
        RemoveOne(callbacks, key.value);
        callbacks := callbacks - {key.value};
      }
    }

    /** The callbacks still waiting once a response with this id arrives. */
    function Remaining(id: Value): (m: map<int, Callback>)
      reads this`callbacks
      ensures Waiting(id).Some? ==> var k := Waiting(id).value;
                k !in m && m.Keys + {k} == callbacks.Keys && |m| == |callbacks| - 1
                && forall j :: j in m ==> m[j] == callbacks[j]
      ensures Waiting(id).None? ==> m == callbacks
    {
      var key := KeyOf(id);
      if key.Some? && key.value in callbacks then RemoveOne(callbacks, key.value); callbacks - {key.value} else callbacks
    }

    /**
     * The call a response with this id makes: its waiting callback, once, with the
     * error and then the result fields named by the reply arguments of the method
     * name the callback carries now.
     */
    function CallbackRun(id: Value, error: Value, result: Value): (r: seq<Call>)
      reads this`callbacks, this`replyArgs, this`methodNames
      ensures |r| == if Waiting(id).Some? then 1 else 0
      ensures Waiting(id).Some? ==> var cb := callbacks[Waiting(id).value];
                r[0] == CallbackCall(cb.Fn(), ReplyArguments(error, result, ReplyNames(MethodNameOf(cb))))
    {
      var key := KeyOf(id);
      if key.Some? && key.value in callbacks then
        var cb := callbacks[key.value];
        [CallbackCall(cb.Fn(), ReplyArguments(error, result, ReplyNames(MethodNameOf(cb))))]
      else []
    }

    /**
     * `dispatch` of an event: dropped for an unknown domain, a function the
     * dispatcher lacks or an unregistered event; otherwise the dispatcher
     * function runs once with the parameters in registered order.
     */
    method DispatchEvent(methodName: string, params: Value)
      modifies this`calls
      ensures calls == old(calls) + EventRun(methodName, params)
    {
      var domainName := DomainName(methodName);
      var functionName := FunctionKey(methodName);
      if domainName !in domainDispatchers {
        return;
      }
      if functionName !in domainDispatchers[domainName] {
        return;
      }
      if methodName !in eventArgs {
        return;
      }
      calls := calls + [HandlerCall(domainName, functionName, EventArguments(params, eventArgs[methodName]))];
    }

    /**
     * The call an event makes: none for an unknown domain, a function the dispatcher
     * lacks or an unregistered event; otherwise the dispatcher function, once, with
     * the parameters in registered order.
     */
    function EventRun(methodName: string, params: Value): (r: seq<Call>)
      reads this`domainDispatchers, this`eventArgs
      ensures |r| <= 1
      ensures |r| == 1 <==>
                DomainName(methodName) in domainDispatchers && FunctionKey(methodName) in domainDispatchers[DomainName(methodName)]
                && methodName in eventArgs
      ensures |r| == 1 ==> r[0] == HandlerCall(DomainName(methodName), FunctionKey(methodName), EventArguments(params, eventArgs[methodName]))
    {
      var domain := DomainName(methodName);
      var functionName := FunctionKey(methodName);
      if domain in domainDispatchers && functionName in domainDispatchers[domain] && methodName in eventArgs
      then [HandlerCall(domain, functionName, EventArguments(params, eventArgs[methodName]))]
      else []
    }

    /**
     * `dispatch`: a message with an id is a response, anything else an event; an
     * event leaves the callbacks, the count, the queue and the reports as they were.
     */
    method Dispatch(message: Message) returns (threw: bool)
      requires Valid()
      modifies this`reported, this`calls, this`pendingResponsesCount, this`callbacks, this`scripts
      ensures Valid()
      ensures threw <==> message.Response? && ReportThrows(message.error)
      ensures message.Response? ==> ResponseDispatched(message.id, message.error, message.result)
      ensures message.Event? ==>
                calls == old(calls) + old(EventRun(message.methodName, message.params))
                && callbacks == old(callbacks) && pendingResponsesCount == old(pendingResponsesCount)
                && scripts == old(scripts) && reported == old(reported)
    {
      match message
      case Response(id, error, result) =>
        threw := DispatchResponse(id, error, result);
      case Event(methodName, params) =>
        DispatchEvent(methodName, params);
        threw := false;
    }
  }

  /**
   * One function given to two commands in flight carries the later method name,
   * so the response to the first command is read with the second one's reply
   * arguments; a string id finds the callback as its number does.
   */
  method SharedCallbackScenario() returns (b: Backend)
    ensures b.calls == [CallbackCall(Some(7), [Undefined, Num(2)])]
    ensures b.pendingResponsesCount == 1
  {
    b := SharedCallbackSetup();
    var result := Object(map["a" := Num(1), "b" := Num(2)]);
    ScenarioReply(result);
    KeyOfMeans(Str("1"), 1);
    assert b.Waiting(Str("1")) == Some(1);
    assert b.CallbackRun(Str("1"), Undefined, result) == [CallbackCall(Some(7), [Undefined, Num(2)])];
    assert !ReportThrows(Undefined);
    assert b.Remaining(Str("1")) == map[2 := Given(7)];
    assert ScriptsRun(b.scripts, 1) == [];
    var _ := b.Dispatch(Response(Str("1"), Undefined, result));
  }

  /** Two commands registered, then both invoked with function 7 as their callback. */
  method SharedCallbackSetup() returns (b: Backend)
    ensures fresh(b) && b.Valid()
    ensures b.callbacks == map[1 := Given(7), 2 := Given(7)] && b.methodNames == map[7 := "B.y"]
    ensures b.replyArgs == map["A.x" := ["a"], "B.y" := ["b"]]
    ensures b.calls == [] && b.scripts == None && b.reported == []
  {
    b := new Backend();
    b.RegisterCommand("A.x", ["a"]);
    b.RegisterCommand("B.y", ["b"]);
    b.Invoke("A.x", None, Some(7));
    b.Invoke("B.y", None, Some(7));
  }

  /** The reply of the scenario above, read with the reply arguments of "B.y"; "1" is the text of id 1. */
  lemma ScenarioReply(result: Value)
    requires result == Object(map["a" := Num(1), "b" := Num(2)])
    ensures ReplyArguments(Undefined, result, Some(["b"])) == [Undefined, Num(2)]
    ensures NatToString(1) == "1"
  {
    assert Get(result, "b") == Num(2);
  }

  /** Removing a present key leaves one entry fewer. */
  lemma RemoveOne<K, V>(m: map<K, V>, k: K)
    requires k in m
    ensures |m - {k}| == |m| - 1
  {
    assert (m - {k}).Keys == m.Keys - {k};
    assert |m.Keys - {k}| == |m.Keys| - 1;
  }
}
