/** src/LogConfig.hpp: the configuration registry. It keeps one settings
    record per logger name, one subscriber callback per logger name, one
    record per level and the global settings. Invoking a callback is
    recorded as a notification (which callback, with which record) in the
    order the calls happen; what the callback then does is not part of this
    class. `ParseConfigFile` (src/LogConfigReader.cpp) refills the maps from
    a loaded document. */
module LogConfigModule {
  import opened Common
  import opened LogLevels
  import opened Yaml
  import opened ConfigTypes
  import opened LogConfigReader

  /** A stored `ConfigUpdateEvent_t`, by identity. */
  type CallbackId = nat

  datatype Notification = Notification(callback: CallbackId, config: LoggerConfig)

  /** What `YAML::LoadFile` gives: a parse error, a missing file, or a tree. */
  datatype Document = ParseError | BadFile | Loaded(root: Node)

  /** The level a logger entry's `LogLevel` node selects, computed the way
      the source does it: reset to NONE when the key is present and not
      null, then ParseLogLevel on each element of a sequence or on the node
      itself. Asking a missing key whether it is a sequence throws. */
  method ReadLoggerLevel(levelNode: Node, initial: Mask) returns (threw: bool, level: Mask)
    ensures threw <==> LevelSetting(levelNode, initial).None?
    ensures !threw ==> level == LevelSetting(levelNode, initial).value
  {
    level := initial;
    if IsDefined(levelNode) && !levelNode.Null? {
      level := LogLevels.NONE;
    }
    ghost var base := level;
    var isSequence := IsSequenceOrThrow(levelNode);
    if isSequence.None? {
      return true, level;
    }
    threw := false;
    if isSequence.value {
      var items := levelNode.items;
      var j := 0;
      while j < |items|
        invariant 0 <= j <= |items|
        invariant level == base + LevelsOf(items[..j])
      {
        assert items[..j + 1][..j] == items[..j];
        var _, next := ParseLogLevel(items[j], level);
        level := next;
        j := j + 1;
      }
      assert items[..|items|] == items;
    } else {
      var _, next := ParseLogLevel(levelNode, level);
      level := next;
    }
  }

  /** Once reading a logger entry has thrown, later entries change nothing. */
  lemma {:induction false} ThrowIsFinal(entries: seq<Entry>, more: seq<Entry>, defaults: LoggerConfig)
    requires LoggerConfigsFrom(entries, defaults).1
    ensures LoggerConfigsFrom(entries + more, defaults) == LoggerConfigsFrom(entries, defaults)
    decreases |more|
  {
    if |more| == 0 {
      assert entries + more == entries;
    } else {
      assert (entries + more)[..|entries + more| - 1] == entries + more[..|more| - 1];
      ThrowIsFinal(entries, more[..|more| - 1], defaults);
    }
  }

  /** Once reading a level entry has thrown, later entries change nothing. */
  lemma {:induction false} LevelThrowIsFinal(entries: seq<Entry>, more: seq<Entry>)
    requires LevelConfigsFrom(entries).1
    ensures LevelConfigsFrom(entries + more) == LevelConfigsFrom(entries)
    decreases |more|
  {
    if |more| == 0 {
      assert entries + more == entries;
    } else {
      assert (entries + more)[..|entries + more| - 1] == entries + more[..|more| - 1];
      LevelThrowIsFinal(entries, more[..|more| - 1]);
    }
  }

  class LogConfig {
    /** `_loggerConfigs`. */
    var loggerConfigs: map<string, LoggerConfig>
    /** `_loggerConfigEvents`. */
    var events: map<string, CallbackId>
    /** `_levelConfigs`. */
    var levelConfigs: map<Mask, LogLevelConfig>
    /** `_globalConfig`. */
    var globalConfig: GlobalConfig
    /** The callback invocations so far. */
    var fired: seq<Notification>

    /** The defaulted constructor: empty maps, default global settings. */
    constructor ()
      ensures loggerConfigs == map[] && events == map[] && levelConfigs == map[]
      ensures globalConfig == DefaultGlobalConfig() && fired == []
    {
      loggerConfigs := map[];
      events := map[];
      levelConfigs := map[];
      globalConfig := DefaultGlobalConfig();
      fired := [];
    }

    /** AddLoggerConfig: `emplace`, so an existing record is kept; the
        module's subscriber, if any, is called with the record now stored,
        which may be the older one. */
    method AddLoggerConfig(moduleName: string, config: LoggerConfig)
      modifies this
      ensures loggerConfigs == Emplace(old(loggerConfigs), moduleName, config)
      ensures moduleName in old(loggerConfigs) ==> loggerConfigs[moduleName] == old(loggerConfigs)[moduleName]
      ensures fired == old(fired) +
        (if moduleName in events then [Notification(events[moduleName], loggerConfigs[moduleName])] else [])
      ensures events == old(events) && levelConfigs == old(levelConfigs) && globalConfig == old(globalConfig)
    {
      loggerConfigs := Emplace(loggerConfigs, moduleName, config);
      if moduleName in events {
        fired := fired + [Notification(events[moduleName], loggerConfigs[moduleName])];
      }
    }

    /** SubscribeLogger: the first callback per module is kept; if a record
        for the module exists, the stored callback (not necessarily `cb`)
        is called once with it. */
    method SubscribeLogger(moduleName: string, cb: CallbackId)
      modifies this
      ensures events == Emplace(old(events), moduleName, cb)
      ensures moduleName in old(events) ==> events[moduleName] == old(events)[moduleName]
      ensures fired == old(fired) +
        (if moduleName in loggerConfigs then [Notification(events[moduleName], loggerConfigs[moduleName])] else [])
      ensures loggerConfigs == old(loggerConfigs) && levelConfigs == old(levelConfigs) && globalConfig == old(globalConfig)
    {
      events := Emplace(events, moduleName, cb);
      if moduleName in loggerConfigs {
        fired := fired + [Notification(events[moduleName], loggerConfigs[moduleName])];
      }
    }

    /** UnsubscribeLogger: removes the module's callback, if any; the
        records are not touched. */
    method UnsubscribeLogger(moduleName: string)
      modifies this
      ensures events == old(events) - {moduleName}
      ensures moduleName !in events
      ensures loggerConfigs == old(loggerConfigs) && levelConfigs == old(levelConfigs)
      ensures globalConfig == old(globalConfig) && fired == old(fired)
    {
      events := events - {moduleName};
    }

    /** GetLogLevelConfig: `operator[]`, which inserts a default record for
        a level seen for the first time and returns the stored record. */
    method GetLogLevelConfig(level: Mask) returns (c: LogLevelConfig)
      modifies this
      ensures level in old(levelConfigs) ==> levelConfigs == old(levelConfigs)
      ensures level !in old(levelConfigs) ==> levelConfigs == old(levelConfigs)[level := DefaultLogLevelConfig()]
      ensures level in levelConfigs && c == levelConfigs[level]
      ensures level !in old(levelConfigs) ==> !c.printToConsole
      ensures loggerConfigs == old(loggerConfigs) && events == old(events)
      ensures globalConfig == old(globalConfig) && fired == old(fired)
    {
      if level !in levelConfigs {
        levelConfigs := levelConfigs[level := DefaultLogLevelConfig()];
      }
      c := levelConfigs[level];
    }

    /** GetGlobalConfig: the current global settings; nothing changes. */
    method GetGlobalConfig() returns (g: GlobalConfig)
      ensures g == globalConfig
    {
      g := globalConfig;
    }

    /** LogConfig::ParseConfigFile. A document that does not parse or does
        not exist leaves every map as it was. Otherwise the logger map is
        rebuilt ("log-core" first), then the level map, then the global
        settings. An exception while subscripting the root or a logger
        entry, reading a level entry or validating the time format ends
        the reload where it happens (`threw`); the subscribers are not
        called. */
    method ParseConfigFile(doc: Document, defaults: LoggerConfig) returns (threw: bool)
      modifies this
      ensures events == old(events) && fired == old(fired)
      ensures !doc.Loaded? ==> (!threw && loggerConfigs == old(loggerConfigs) &&
        levelConfigs == old(levelConfigs) && globalConfig == old(globalConfig))
      ensures doc.Loaded? ==> loggerConfigs == LoggerConfigsOf(doc.root, defaults).0
      ensures doc.Loaded? && LoggerConfigsOf(doc.root, defaults).1 ==>
        threw && levelConfigs == old(levelConfigs) && globalConfig == old(globalConfig)
      ensures doc.Loaded? && !LoggerConfigsOf(doc.root, defaults).1 ==>
        levelConfigs == LevelConfigsFrom(EntriesOf(Get(doc.root, "LogLevel"))).0
      ensures doc.Loaded? && !LoggerConfigsOf(doc.root, defaults).1 && LevelConfigsFrom(EntriesOf(Get(doc.root, "LogLevel"))).1 ==>
        threw && globalConfig == old(globalConfig)
      ensures doc.Loaded? && !LoggerConfigsOf(doc.root, defaults).1 && !LevelConfigsFrom(EntriesOf(Get(doc.root, "LogLevel"))).1 ==>
        globalConfig == GlobalConfigFrom(doc.root).0 && threw == GlobalConfigFrom(doc.root).1
    {
      if !doc.Loaded? {
        return false;
      }
      var root := doc.root;
      threw := ReadLoggers(root, defaults);
      if threw {
        return;
      }
      threw := ReadLevels(root);
      if threw {
        return;
      }
      threw := ReadGlobal(root);
    }

    /** The logger loop of ParseConfigFile, after the map is reset to the
        "log-core" entry. */
    method ReadLoggers(root: Node, defaults: LoggerConfig) returns (threw: bool)
      modifies this
      ensures loggerConfigs == LoggerConfigsOf(root, defaults).0
      ensures threw == LoggerConfigsOf(root, defaults).1
      ensures events == old(events) && fired == old(fired)
      ensures levelConfigs == old(levelConfigs) && globalConfig == old(globalConfig)
    {
      loggerConfigs := map[];
      loggerConfigs := Emplace(loggerConfigs, "log-core", GetInternalLogConfig(defaults));
      var loggersNode := Index(root, "Logger");
      if loggersNode.None? {
        return true;
      }
      var loggers := EntriesOf(loggersNode.value);
      var i := 0;
      while i < |loggers|
        invariant 0 <= i <= |loggers|
        invariant loggerConfigs == LoggerConfigsFrom(loggers[..i], defaults).0
        invariant !LoggerConfigsFrom(loggers[..i], defaults).1
        invariant events == old(events) && fired == old(fired)
        invariant levelConfigs == old(levelConfigs) && globalConfig == old(globalConfig)
      {
        var entry := loggers[i];
        LoggerConfigsStep(loggers, defaults, i);
        var moduleName := AsString(entry.key, "");
        if IsReservedLoggerName(moduleName) {
          i := i + 1;
          continue;
        }
        var levelNode := Index(entry.value, "LogLevel");
        var threwLevel, level := true, defaults.level;
        if levelNode.Some? {
          threwLevel, level := ReadLoggerLevel(levelNode.value, defaults.level);
        }
        var setting := LoggerSetting(entry.value, defaults);
        if threwLevel || setting.None? {
          assert setting.None?;
          ThrowIsFinal(loggers[..i + 1], loggers[i + 1..], defaults);
          assert loggers[..i + 1] + loggers[i + 1..] == loggers;
          return true;
        }
        assert setting.value.level == level;
        loggerConfigs := Emplace(loggerConfigs, moduleName, setting.value);
        i := i + 1;
      }
      assert loggers[..|loggers|] == loggers;
      return false;
    }

    /** The per-level loop of ParseConfigFile, for a root the logger loop
        has already subscripted. */
    method ReadLevels(root: Node) returns (threw: bool)
      requires Index(root, "Logger").Some?
      modifies this
      ensures levelConfigs == LevelConfigsFrom(EntriesOf(Get(root, "LogLevel"))).0
      ensures threw == LevelConfigsFrom(EntriesOf(Get(root, "LogLevel"))).1
      ensures loggerConfigs == old(loggerConfigs) && events == old(events)
      ensures fired == old(fired) && globalConfig == old(globalConfig)
    {
      var levels := EntriesOf(Get(root, "LogLevel"));
      levelConfigs := map[];
      threw := false;
      var i := 0;
      while i < |levels| && !threw
        invariant 0 <= i <= |levels|
        invariant levelConfigs == LevelConfigsFrom(levels[..i]).0
        invariant threw == LevelConfigsFrom(levels[..i]).1
        invariant loggerConfigs == old(loggerConfigs) && events == old(events)
        invariant fired == old(fired) && globalConfig == old(globalConfig)
      {
        assert levels[..i + 1] == levels[..i] + [levels[i]];
        threw := ReadLevelEntry(levels[i], levels[..i]);
        i := i + 1;
      }
      if threw {
        LevelThrowIsFinal(levels[..i], levels[i..]);
        assert levels[..i] + levels[i..] == levels;
      } else {
        assert levels[..i] == levels;
      }
    }

    /** One round of the per-level loop: a key that names a level gets the
        entry's console flag unless the level is already there; reading the
        flag throws where the entry's value is a scalar. */
    method ReadLevelEntry(entry: Entry, ghost done: seq<Entry>) returns (threw: bool)
      requires levelConfigs == LevelConfigsFrom(done).0 && !LevelConfigsFrom(done).1
      modifies this
      ensures levelConfigs == LevelConfigsFrom(done + [entry]).0 && threw == LevelConfigsFrom(done + [entry]).1
      ensures var named := LevelByName(AsString(entry.key, ""));
        threw <==> named.Some? && Index(entry.value, "PrintToConsole").None?
      ensures var named := LevelByName(AsString(entry.key, ""));
        var flag := Index(entry.value, "PrintToConsole");
        levelConfigs ==
          if named.None? || flag.None? then old(levelConfigs)
          else Emplace(old(levelConfigs), named.value, LogLevelConfig(BoolSetting(flag.value, false)))
      ensures loggerConfigs == old(loggerConfigs) && events == old(events)
      ensures fired == old(fired) && globalConfig == old(globalConfig)
    {
      LevelConfigsStep(done + [entry], |done|);
      assert (done + [entry])[..|done|] == done && (done + [entry])[..|done| + 1] == done + [entry];
      var ok, level := ParseLogLevel(entry.key, LogLevels.NONE);
      if !ok {
        return false;
      }
      assert level == LevelByName(AsString(entry.key, "")).value by {
        assert level == LogLevels.NONE + LevelByName(AsString(entry.key, "")).value;
      }
      var flagNode := Index(entry.value, "PrintToConsole");
      if flagNode.None? {
        return true;
      }
      var config := LogLevelConfig(BoolSetting(flagNode.value, DefaultLogLevelConfig().printToConsole));
      levelConfigs := Emplace(levelConfigs, level, config);
      return false;
    }

    /** The global settings of ParseConfigFile: reset, then the time format
        if the validator accepts it, then the two switches. The root is one
        the logger loop has already subscripted. */
    method ReadGlobal(root: Node) returns (threw: bool)
      requires Index(root, "Logger").Some?
      modifies this
      ensures globalConfig == GlobalConfigFrom(root).0 && threw == GlobalConfigFrom(root).1
      ensures loggerConfigs == old(loggerConfigs) && events == old(events)
      ensures fired == old(fired) && levelConfigs == old(levelConfigs)
    {
      globalConfig := DefaultGlobalConfig();
      var formatNode := Get(root, "LogTimeFormat");
      if IsDefined(formatNode) && formatNode.Scalar? {
        var timeFormat := AsString(formatNode, globalConfig.logTimeFormat);
        var outcome := ValidateTimeFormat(timeFormat);
        if outcome.Threw? {
          return true;
        }
        if outcome == Returned(true) {
          globalConfig := globalConfig.(logTimeFormat := timeFormat);
        }
      }
      globalConfig := globalConfig.(enableColors := BoolSetting(Get(root, "EnableColors"), globalConfig.enableColors));
      globalConfig := globalConfig.(disableDebugInfo := BoolSetting(Get(root, "DisableDebugInfo"), globalConfig.disableDebugInfo));
      return false;
    }
  }
}
