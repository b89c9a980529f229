/** src/CPluginLogger.cpp: the older plugin logger. It owns a `CLogger` for
    the module `plugins/<name>` and formats native calls with the older
    formatter, which knows no 'r' or 'p'. The native's parameter cells are
    read from AMX data memory at the pointer the debug manager computes. */
module CPluginLoggerModule {
  import opened Common
  import opened LogLevels
  import opened AmxTypes
  import opened NativeFormat
  import opened CAmxDebugManagerModule
  import opened CLoggerModule
  import G2LogLevels

  /** The module name the plugin's logger is created with. */
  function PluginModule(pluginname: string): (m: string)
    ensures StartsWith(m, "plugins/") && m[8..] == pluginname
  {
    "plugins/" + pluginname
  }

  /** Different plugins log to different modules. */
  lemma PluginModuleInjective(a: string, b: string)
    requires PluginModule(a) == PluginModule(b)
    ensures a == b
  {
    assert a == PluginModule(a)[8..] == PluginModule(b)[8..] == b;
  }

  /** The `n` cells from `params` on: `params[k]` is the cell at
      `params + k * sizeof(cell)`. */
  function ParamCells(mem: map<int, int>, params: int, n: nat): (r: seq<int>)
    ensures |r| == n
    ensures forall k :: 0 <= k < n ==> r[k] == ReadCell(mem, params + k * CELL_SIZE)
  {
    seq(n, k => ReadCell(mem, params + k * CELL_SIZE))
  }

  class CPluginLogger {
    /** `m_Logger`. */
    const logger: CLogger

    /** The constructor: the logger's file is `logs/plugins/<name>.log`. */
    constructor (pluginname: string, initialLevel: Mask)
      ensures fresh(logger) && fresh(logger.sink)
      ensures logger.sink.path == "logs/" + PluginModule(pluginname) + ".log"
      ensures logger.logLevel == initialLevel && logger.saved == [] && logger.fatal == []
    {
      logger := new CLogger("plugins/" + pluginname, initialLevel);
    }

    /** Log: the text `vsprintf` produced is logged at `level` without
        position information. */
    method Log(level: Mask, formatted: string)
      modifies logger
      ensures var m := G2Message("", 0, "", level, formatted);
        if 4 in level then logger.fatal == old(logger.fatal) + [m] && logger.saved == old(logger.saved)
        else logger.saved == old(logger.saved) + [m] && logger.fatal == old(logger.fatal)
      ensures logger.logLevel == old(logger.logLevel)
    {
      logger.Log(formatted, level, 0, "", "");
    }

    /** LogEx: forwards message, level and source position unchanged. */
    method LogEx(level: Mask, msg: string, line: int, file: string, func: string)
      modifies logger
      ensures var m := G2Message(file, line, func, level, msg);
        if 4 in level then logger.fatal == old(logger.fatal) + [m] && logger.saved == old(logger.saved)
        else logger.saved == old(logger.saved) + [m] && logger.fatal == old(logger.fatal)
      ensures logger.logLevel == old(logger.logLevel)
    {
      logger.Log(msg, level, line, file, func);
    }

    /** LogNativeCall: false and nothing logged when a format character is
        unknown (the older set has no 'r' and no 'p'); otherwise the text
        `name(args)` is saved at DEBUG, without any level check, with the
        line, file and function of the current instruction, or 0, "" and ""
        where the debug manager has none. */
    method LogNativeCall(debug: CAmxDebugManager, amx: Amx, mem: map<int, int>, name: string, fmt: string, env: AmxEnv)
      returns (ok: bool)
      modifies logger
      ensures var params := ParamCells(mem, GetNativeParamsPtr(amx), |fmt| + 1);
        ok <==> NativeCallText(Older, name, fmt, params, env).Some?
      ensures !ok ==> logger.saved == old(logger.saved)
      ensures ok ==>
        var params := ParamCells(mem, GetNativeParamsPtr(amx), |fmt| + 1);
        var here := !debug.disabled && amx.id in debug.bound;
        var line := if here && amx.cip in debug.bound[amx.id].lineAt then debug.bound[amx.id].lineAt[amx.cip] + 1 else 0;
        var file := if here && amx.cip in debug.bound[amx.id].fileAt then debug.bound[amx.id].fileAt[amx.cip] else "";
        var func := if here && amx.cip in debug.bound[amx.id].functionAt then debug.bound[amx.id].functionAt[amx.cip] else "";
        logger.saved == old(logger.saved) + [G2Message(file, line, func, DEBUG, NativeCallText(Older, name, fmt, params, env).value)]
      ensures logger.fatal == old(logger.fatal) && logger.logLevel == old(logger.logLevel)
    {
      var params := ParamCells(mem, GetNativeParamsPtr(amx), |fmt| + 1);
      var text := FormatNativeCall(Older, name, fmt, params, env);
      if text.None? {
        return false;
      }
      // `file` and `func` are strings that start empty and receive a name
      // only when its lookup succeeds; a cleared (NULL) name leaves them "".
      var _, line := debug.GetLastAmxLine(amx, 0);
      var _, file := debug.GetLastAmxFile(amx, None);
      var _, func := debug.GetLastAmxFunction(amx, None);
      assert 4 !in DEBUG;
      LogEx(DEBUG, text.value, line, if file.Some? then file.value else "", if func.Some? then func.value else "");
      return true;
    }

    /** SetLogLevel: forwarded, so levels are only ever added. */
    method SetLogLevel(level: Mask, enabled: bool)
      modifies logger
      ensures old(logger.logLevel) <= logger.logLevel
      ensures forall b :: b in logger.logLevel <==> b in old(logger.logLevel) || b in level
      ensures logger.saved == old(logger.saved) && logger.fatal == old(logger.fatal)
    {
      logger.SetLogLevel(level, enabled);
      assert level <= logger.logLevel by {
        G2LogLevels.LogLevelIsSubset(logger.logLevel, level);
      }
    }
  }

  /** Where both formatters accept a call without floats, the older one
      writes the same text as the newer one; 'r' and 'p' make only the older
      one fail. */
  lemma OlderFormatterAgrees(name: string, fmt: string, params: seq<int>, env: AmxEnv)
    requires |fmt| < |params| && 'f' !in fmt
    ensures NativeCallText(Older, name, fmt, params, env).Some? ==>
      NativeCallText(Current, name, fmt, params, env) == NativeCallText(Older, name, fmt, params, env)
    ensures ('r' in fmt || 'p' in fmt) ==> NativeCallText(Older, name, fmt, params, env).None?
  {
    RevisionsAgree(fmt, params, env);
    FormatArgsMeaning(Older, fmt, params, env);
    if 'r' in fmt || 'p' in fmt {
      var i :| 0 <= i < |fmt| && (fmt[i] == 'r' || fmt[i] == 'p');
      assert fmt[i] !in Specs(Older);
    }
  }
}
