/** src/LogConfigReader.hpp: an older revision of the per-logger settings,
    with its own record `LogConfig` and a lookup by module name. */
module LegacyConfigReader {
  import opened LogLevels

  /** The union `LogRotationValue` together with the kind that selects it:
      a file size in megabytes for SIZE, a number of hours for DATE. */
  datatype LegacyRotation =
    | NoRotation
    | DateRotation(dateHours: int)
    | SizeRotation(fileSizeMb: nat)

  /** `LogConfig` of this revision. */
  datatype LegacyLogConfig = LegacyLogConfig(level: Mask, rotation: LegacyRotation)

  /** The default member initialisers: errors, warnings and fatal errors,
      no rotation. */
  function DefaultLegacyLogConfig(): (c: LegacyLogConfig)
    ensures Enables(c.level, ERROR) && Enables(c.level, WARNING) && Enables(c.level, FATAL)
    ensures !Enables(c.level, DEBUG) && !Enables(c.level, INFO) && !Enables(c.level, VERBOSE)
    ensures c.rotation.NoRotation?
  {
    LegacyLogConfig(ERROR + WARNING + FATAL, NoRotation)
  }

  class LogConfigReader {
    /** `_logger_configs`. */
    var loggerConfigs: map<string, LegacyLogConfig>

    constructor (configs: map<string, LegacyLogConfig>)
      ensures loggerConfigs == configs
    {
      loggerConfigs := configs;
    }

    /** GetLoggerConfig: a present module's record is copied into `dest` and
        true returned; for an absent module `dest` is left as it was. */
    method GetLoggerConfig(moduleName: string, dest: LegacyLogConfig) returns (ok: bool, dest': LegacyLogConfig)
      ensures ok <==> moduleName in loggerConfigs
      ensures ok ==> dest' == loggerConfigs[moduleName]
      ensures !ok ==> dest' == dest
    {
      if moduleName in loggerConfigs {
        return true, loggerConfigs[moduleName];
      }
      return false, dest;
    }
  }
}
