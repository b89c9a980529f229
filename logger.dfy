/** src/Logger.cpp: a named logger that filters by level and hands each
    accepted message to the shared writer queue as a deferred action. The
    action formats the line, appends it to the logger's file, records it for
    the level log and echoes it to the console when configured; a counter
    tracks the actions still pending. The queue is the sequential FIFO of
    `LogManager::Queue`; timestamps are clock readings rendered by a
    caller-supplied function. */
module LoggerModule {
  import opened Common
  import opened LogLevels
  import opened AmxTypes
  import opened ConfigTypes
  import opened LogConfigModule
  import opened LogFormat
  import opened NativeFormat
  import LM = LogManagerModule

  /** The log file of a module: the logs root folder, the module name and
      ".log". */
  function LogFilePath(root: string, moduleName: string): (p: string)
    ensures StartsWith(p, root + moduleName)
    ensures |p| == |root| + |moduleName| + 4 && p[|p| - 4..] == ".log"
  {
    root + moduleName + ".log"
  }

  /** Under one root folder, different modules write different files. */
  lemma LogFilePathInjective(root: string, a: string, b: string)
    requires LogFilePath(root, a) == LogFilePath(root, b)
    ensures a == b
  {
    var p := LogFilePath(root, a);
    assert a == p[|root|..|p| - 4];
    assert b == p[|root|..|p| - 4];
  }

  /** One queued action: the logger it belongs to and what `Log` captured. */
  datatype Action = Action(owner: Logger, level: Mask, time: int, msg: string, callInfo: seq<CallInfo>)

  /** The number of actions of `l` in `actions`. */
  function Count(actions: seq<Action>, l: Logger): (n: nat)
    ensures n <= |actions|
  {
    if |actions| == 0 then 0
    else (if actions[0].owner == l then 1 else 0) + Count(actions[1..], l)
  }

  /** Queuing one more action counts it for its owner only. */
  lemma {:induction false} CountSnoc(actions: seq<Action>, a: Action, l: Logger)
    ensures Count(actions + [a], l) == Count(actions, l) + (if a.owner == l then 1 else 0)
    decreases |actions|
  {
    if |actions| == 0 {
      assert (actions + [a])[1..] == [];
    } else {
      assert (actions + [a])[1..] == actions[1..] + [a];
      CountSnoc(actions[1..], a, l);
    }
  }

  /** A logger has no pending action unless some action names it. */
  lemma {:induction false} CountZero(actions: seq<Action>, l: Logger)
    requires forall i :: 0 <= i < |actions| ==> actions[i].owner != l
    ensures Count(actions, l) == 0
    decreases |actions|
  {
    if |actions| > 0 {
      CountZero(actions[1..], l);
    }
  }

  /** `LogManager`'s action queue. */
  class ActionQueue {
    var pending: seq<Action>

    constructor ()
      ensures pending == []
    {
      pending := [];
    }
  }

  /** What `LogManager::WriteLevelLogString` receives: the rendered time,
      the level, the module and the message without its call suffix. */
  datatype LevelRecord = LevelRecord(time: string, level: Mask, logModule: string, msg: string)

  /** A console line: the plain layout, or the coloured one whose colours
      are not modelled. */
  datatype ConsoleRecord =
    | Plain(line: string)
    | Colored(time: string, logModule: string, level: Mask, msg: string)

  /** Everything the actions write to: the files, the level log and the
      console. */
  class Output {
    var files: map<string, string>
    var levelLog: seq<LevelRecord>
    var console: seq<ConsoleRecord>

    constructor (files: map<string, string>)
      ensures this.files == files && levelLog == [] && console == []
    {
      this.files := files;
      levelLog := [];
      console := [];
    }
  }

  /** FormatLogMessage: the message, then the call-chain suffix when there
      is call information. */
  method FormatLogMessage(message: string, callInfo: seq<CallInfo>) returns (s: string)
    ensures s == message + CallSuffix(callInfo)
    ensures |callInfo| == 0 ==> s == message
  {
    s := message;
    if |callInfo| == 0 {
      return;
    }
    s := s + " (";
    ghost var opening := s;
    var first := true;
    var i := 0;
    while i < |callInfo|
      invariant 0 <= i <= |callInfo|
      invariant first <==> i == 0
      invariant s == opening + ChainOf(callInfo, i)
    {
      var entry := CallEntry(callInfo[i]);
      ghost var sep := if first then "" else " -> ";
      assert opening + ChainOf(callInfo, i + 1) == s + sep + entry by {
        ChainStep(callInfo, i, opening);
      }
      if !first {
        s := s + " -> ";
      }
      s := s + entry;
      first := false;
      i := i + 1;
    }
    assert message + CallSuffix(callInfo) == s + ")" by {
      ChainComplete(callInfo, message);
    }
    s := s + ")";
  }

  /** FormatTimestamp: the global time format inside "{:" and "}", rendered
      for the clock reading. */
  function FormatTimestamp(timeFormat: string, time: int, render: LM.Render): string
  {
    render("{:" + timeFormat + "}", time)
  }

  /** PrintLogString: the plain `[time] [module] [LEVEL] msg` line unless
      colours are enabled. */
  function PrintLogString(enableColors: bool, time: string, logModule: string, level: Mask, msg: string): (r: ConsoleRecord)
    ensures r.Plain? <==> !enableColors
  {
    if enableColors then Colored(time, logModule, level, msg) else Plain(ConsoleLine(time, logModule, level, msg))
  }

  class Logger {
    const moduleName: string
    const logFilePath: string
    var config: LoggerConfig
    var logCounter: int
    const queue: ActionQueue

    /** The counter equals the number of this logger's actions still queued. */
    predicate Valid()
      reads this, queue
    {
      logCounter == Count(queue.pending, this)
    }

    /** IsLogLevel: every bit of `level` is enabled in the logger's mask. */
    predicate IsLogLevel(level: Mask)
      reads this
    {
      Enables(config.level, level)
    }

    /** The constructor: the file path under the configured root, then
        the subscription (the registry calls back at once when it holds a
        record for the module, and this logger adopts it when the stored
        callback is its own), then truncation unless the settings say
        append. `defaults` is the default-constructed settings record. */
    constructor (moduleName: string, registry: LogConfig, queue: ActionQueue, out: Output,
                 cb: CallbackId, defaults: LoggerConfig)
      modifies registry, out
      ensures this.moduleName == moduleName && this.queue == queue && logCounter == 0
      ensures logFilePath == LogFilePath(old(registry.globalConfig).logsRootFolder, moduleName)
      ensures registry.events == Emplace(old(registry.events), moduleName, cb)
      ensures registry.fired == old(registry.fired) +
        (if moduleName in registry.loggerConfigs then [Notification(registry.events[moduleName], registry.loggerConfigs[moduleName])] else [])
      ensures config == (if moduleName in registry.loggerConfigs && registry.events[moduleName] == cb
                         then registry.loggerConfigs[moduleName] else defaults)
      ensures registry.loggerConfigs == old(registry.loggerConfigs) && registry.globalConfig == old(registry.globalConfig)
      ensures registry.levelConfigs == old(registry.levelConfigs)
      ensures out.files == (if config.append then old(out.files) else old(out.files)[logFilePath := ""])
      ensures out.levelLog == old(out.levelLog) && out.console == old(out.console)
      ensures Valid()
    {
      this.moduleName := moduleName;
      logFilePath := LogFilePath(registry.globalConfig.logsRootFolder, moduleName);
      config := defaults;
      logCounter := 0;
      this.queue := queue;
      new;
      CountZero(queue.pending, this);
      registry.SubscribeLogger(moduleName, cb);
      if moduleName in registry.loggerConfigs && registry.events[moduleName] == cb {
        OnConfigUpdate(registry.loggerConfigs[moduleName]);
      }
      if !config.append {
        out.files := out.files[logFilePath := ""];
      }
    }

    /** OnConfigUpdate: the new settings replace the old ones. */
    method OnConfigUpdate(c: LoggerConfig)
      modifies this
      ensures config == c && logCounter == old(logCounter)
    {
      config := c;
    }

    /** Log: a disabled level is refused and nothing is queued; otherwise
        exactly one action is queued with the clock reading `now` and the
        counter goes up by one. */
    method Log(level: Mask, msg: string, callInfo: seq<CallInfo>, now: int) returns (ok: bool)
      requires Valid()
      modifies this, queue
      ensures ok <==> IsLogLevel(level)
      ensures ok ==> queue.pending == old(queue.pending) + [Action(this, level, now, msg, callInfo)]
      ensures ok ==> logCounter == old(logCounter) + 1
      ensures !ok ==> queue.pending == old(queue.pending) && logCounter == old(logCounter)
      ensures config == old(config)
      ensures Valid()
    {
      if !IsLogLevel(level) {
        return false;
      }
      var a := Action(this, level, now, msg, callInfo);
      CountSnoc(queue.pending, a, this);
      queue.pending := queue.pending + [a];
      logCounter := logCounter + 1;
      return true;
    }

    /** The overload without call information. */
    method LogPlain(level: Mask, msg: string, now: int) returns (ok: bool)
      requires Valid()
      modifies this, queue
      ensures ok <==> IsLogLevel(level)
      ensures ok ==> queue.pending == old(queue.pending) + [Action(this, level, now, msg, [])]
      ensures !ok ==> queue.pending == old(queue.pending) && logCounter == old(logCounter)
      ensures Valid()
    {
      ok := Log(level, msg, [], now);
    }

    /** LogNativeCall: refused without an AMX, without parameters, with an
        empty name or with DEBUG disabled, all before formatting; refused
        when a format character is unknown; otherwise the call text is
        logged at DEBUG with the call trace the debug manager reported.
        That trace is a parameter here. GetFunctionCallTrace as written
        (GetFunctionCallTraceAsWritten) never fills `call_info`, so in the
        program `trace` is always empty. */
    method LogNativeCall(amxPresent: bool, paramsPresent: bool, params: seq<int>, name: string,
                         fmt: string, env: AmxEnv, trace: seq<CallInfo>, now: int) returns (ok: bool)
      requires Valid()
      requires |fmt| < |params|
      modifies this, queue
      ensures ok <==> amxPresent && paramsPresent && name != "" && IsLogLevel(DEBUG)
                      && NativeCallText(Current, name, fmt, params, env).Some?
      ensures ok ==> (queue.pending == old(queue.pending) +
        [Action(this, DEBUG, now, NativeCallText(Current, name, fmt, params, env).value, trace)])
      ensures !ok ==> queue.pending == old(queue.pending) && logCounter == old(logCounter)
      ensures Valid()
    {
      if !amxPresent || !paramsPresent || name == "" || !IsLogLevel(DEBUG) {
        return false;
      }
      var text := FormatNativeCall(Current, name, fmt, params, env);
      if text.None? {
        return false;
      }
      ok := Log(DEBUG, text.value, trace, now);
    }
  }

  /** Whether a level echoes to the console: its record, or the default
      record that `GetLogLevelConfig` inserts for an unseen level. */
  function LevelEcho(levelConfigs: map<Mask, LogLevelConfig>, level: Mask): bool
  {
    level in levelConfigs && levelConfigs[level].printToConsole
  }

  /** The writer thread running the front action: the line with its call
      suffix goes to the owner's file, the raw message to the level log, and
      the console gets the line exactly when the logger or the level asks
      for it; the owner's counter then goes down by one, so an owner whose
      counter matched its queued actions still does. */
  method RunNext(queue: ActionQueue, out: Output, registry: LogConfig, render: LM.Render) returns (a: Action)
    requires |queue.pending| > 0
    requires queue.pending[0].owner.queue == queue
    modifies queue, out, registry, queue.pending[0].owner
    ensures a == old(queue.pending[0]) && queue.pending == old(queue.pending[1..])
    ensures a.owner.logCounter == old(a.owner.logCounter) - 1 && a.owner.config == old(a.owner.config)
    ensures old(a.owner.Valid()) ==> a.owner.Valid()
    ensures var ts := FormatTimestamp(old(registry.globalConfig).logTimeFormat, a.time, render);
      && out.files == LM.AppendTo(old(out.files), a.owner.logFilePath, ModuleLine(ts, a.level, a.msg + CallSuffix(a.callInfo)))
      && out.levelLog == old(out.levelLog) + [LevelRecord(ts, a.level, a.owner.moduleName, a.msg)]
      && out.console == old(out.console) +
           (if a.owner.config.printToConsole || LevelEcho(old(registry.levelConfigs), a.level)
            then [PrintLogString(old(registry.globalConfig).enableColors, ts, a.owner.moduleName, a.level, a.msg + CallSuffix(a.callInfo))]
            else [])
    ensures a.level in registry.levelConfigs
    ensures registry.loggerConfigs == old(registry.loggerConfigs) && registry.events == old(registry.events)
    ensures registry.globalConfig == old(registry.globalConfig) && registry.fired == old(registry.fired)
  {
    a := queue.pending[0];
    queue.pending := queue.pending[1..];
    var owner := a.owner;
    var global := registry.GetGlobalConfig();
    var ts := FormatTimestamp(global.logTimeFormat, a.time, render);
    var text := FormatLogMessage(a.msg, a.callInfo);
    out.files := LM.AppendTo(out.files, owner.logFilePath, ModuleLine(ts, a.level, text));
    out.levelLog := out.levelLog + [LevelRecord(ts, a.level, owner.moduleName, a.msg)];
    ghost var before := registry.levelConfigs;
    var levelConfig := registry.GetLogLevelConfig(a.level);
    assert levelConfig.printToConsole == LevelEcho(before, a.level);
    if owner.config.printToConsole || levelConfig.printToConsole {
      out.console := out.console + [PrintLogString(global.enableColors, ts, owner.moduleName, a.level, text)];
    }
    owner.logCounter := owner.logCounter - 1;
  }
}
