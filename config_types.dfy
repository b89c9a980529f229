/** The configuration records of src/LogConfig.hpp and the per-logger
    settings record `Logger::Config`. The declaration of `Logger::Config` is
    not part of this model: its fields are the four that
    src/LogConfigReader.cpp and src/Logger.cpp read and write, and its
    default values are a parameter wherever a default-constructed record is
    needed. */
module ConfigTypes {
  import opened LogLevels
  import opened LogRotationTypes

  /** `Logger::Config`. */
  datatype LoggerConfig = LoggerConfig(
    level: Mask,
    rotation: LogRotationConfig,
    printToConsole: bool,
    append: bool)

  /** `LogLevelConfig`. */
  datatype LogLevelConfig = LogLevelConfig(printToConsole: bool)

  /** `GlobalConfig`. */
  datatype GlobalConfig = GlobalConfig(
    logTimeFormat: string,
    disableDebugInfo: bool,
    enableColors: bool,
    logsRootFolder: string)

  const DEFAULT_TIME_FORMAT: string := "%x %X"
  const DEFAULT_LOGS_ROOT: string := "logs/"

  /** A default-constructed `LogLevelConfig` does not echo to the console. */
  function DefaultLogLevelConfig(): (c: LogLevelConfig)
    ensures !c.printToConsole
  {
    LogLevelConfig(false)
  }

  /** A default-constructed `GlobalConfig`: locale date and time, no
      colours, debug information on, logs under "logs/". */
  function DefaultGlobalConfig(): (c: GlobalConfig)
    ensures c.logTimeFormat == DEFAULT_TIME_FORMAT && c.logsRootFolder == DEFAULT_LOGS_ROOT
    ensures !c.disableDebugInfo && !c.enableColors
  {
    GlobalConfig(DEFAULT_TIME_FORMAT, false, false, DEFAULT_LOGS_ROOT)
  }
}
