/** include/samplog/PluginLogger.h: the header-only plugin logger handed to
    plugin authors. It has no state of its own; each member is a short
    boolean expression over calls to its base class, whose definition is
    not part of this model. So every member takes the base's answers as
    parameters and returns its own result together with the base calls it
    made, in order: the short-circuit behaviour is visible in that list. */
module PluginLoggerHeader {
  import opened Common
  import opened LogLevels
  import opened AmxTypes
  import CPluginLoggerModule

  /** A call the plugin logger makes on its base. */
  datatype BaseCall =
    | AskLevel(level: Mask)
    | AskTrace(amx: AmxId)
    | LogMessage(level: Mask, msg: string, callInfo: Option<seq<CallInfo>>)
    | LogNative(logModule: string, amx: AmxId, params: int, name: string, fmt: string)

  /** The result of a member and the base calls it made. */
  datatype Outcome = Outcome(result: bool, calls: seq<BaseCall>)

  /** `Log(level, msg)`: one forwarded call, whose result is returned. */
  function Log(level: Mask, msg: string, logged: bool): (r: Outcome)
    ensures r.result == logged
    ensures |r.calls| == 1 && r.calls[0].LogMessage? && r.calls[0].callInfo.None?
    ensures r.calls[0].level == level && r.calls[0].msg == msg
  {
    Outcome(logged, [LogMessage(level, msg, None)])
  }

  /** `Log(amx, level, msg)`: `enabled` is the base's IsLogLevel answer,
      `trace` the call trace (None when GetAmxFunctionCallTrace fails) and
      `logged` the base Log's result. A disabled level returns false before
      any trace is taken; a failed trace returns false and logs nothing. */
  function LogWithAmx(amx: AmxId, level: Mask, msg: string, enabled: bool, trace: Option<seq<CallInfo>>, logged: bool): (r: Outcome)
    ensures r.result <==> enabled && trace.Some? && logged
    ensures |r.calls| > 0 && r.calls[0] == AskLevel(level)
    ensures AskTrace(amx) in r.calls <==> enabled
    ensures (exists c :: c in r.calls && c.LogMessage?) <==> enabled && trace.Some?
    ensures forall c :: c in r.calls && c.LogMessage? ==> c == LogMessage(level, msg, trace)
  {
    if !enabled then Outcome(false, [AskLevel(level)])
    else if trace.None? then Outcome(false, [AskLevel(level), AskTrace(amx)])
    else
      var r := Outcome(logged, [AskLevel(level), AskTrace(amx), LogMessage(level, msg, trace)]);
      assert r.calls[2] in r.calls;
      r
  }

  /** Once the level is enabled and the trace is taken, the message goes to
      the base exactly as the plain overload would send it, with the trace
      attached, and the result is the same. */
  lemma TracedLogExtendsPlainLog(amx: AmxId, level: Mask, msg: string, callInfo: seq<CallInfo>, logged: bool)
    ensures var traced := LogWithAmx(amx, level, msg, true, Some(callInfo), logged);
      var plain := Log(level, msg, logged);
      && traced.result == plain.result
      && traced.calls[|traced.calls| - 1] == plain.calls[0].(callInfo := Some(callInfo))
  {
  }

  /** `LogNativeCall`: forwarded unchanged, under the module the constructor
      gave this logger, `"plugins/" + pluginname`. */
  function LogNativeCall(pluginname: string, amx: AmxId, params: int, name: string, fmt: string, forwarded: bool): (r: Outcome)
    ensures r.result == forwarded
    ensures |r.calls| == 1 && r.calls[0].LogNative?
    ensures r.calls[0].logModule == CPluginLoggerModule.PluginModule(pluginname)
    ensures r.calls[0].amx == amx && r.calls[0].params == params
    ensures r.calls[0].name == name && r.calls[0].fmt == fmt
  {
    Outcome(forwarded, [LogNative(CPluginLoggerModule.PluginModule(pluginname), amx, params, name, fmt)])
  }

  /** Two plugin loggers never log a native call under the same module. */
  lemma NativeCallsKeepPluginsApart(a: string, b: string, amx: AmxId, params: int, name: string, fmt: string, forwarded: bool)
    requires a != b
    ensures LogNativeCall(a, amx, params, name, fmt, forwarded).calls[0].logModule
         != LogNativeCall(b, amx, params, name, fmt, forwarded).calls[0].logModule
  {
    assert CPluginLoggerModule.PluginModule(a)[8..] == a;
  }
}
