/** src/Logger.hpp: the revision of `Logger` that keeps its own severity
    mask `_loglevel`. Its constructor is defined in a source file that is
    not part of this model, so the first mask is a parameter. */
module LoggerHeader {
  import opened LogLevels

  class Logger {
    /** `_module_name`. */
    const moduleName: string
    /** `_loglevel`. */
    var loglevel: Mask

    constructor (modulename: string, initialLevel: Mask)
      ensures moduleName == modulename && loglevel == initialLevel
    {
      moduleName := modulename;
      loglevel := initialLevel;
    }

    /** SetLogLevel replaces the whole mask: afterwards exactly the levels
        inside the new mask are enabled, whatever was enabled before. */
    method SetLogLevel(level: Mask)
      modifies this
      ensures loglevel == level
      ensures forall x :: Enables(loglevel, x) <==> x <= level
    {
      loglevel := level;
      forall x {
        EnablesIsSubset(loglevel, x);
      }
    }

    /** IsLogLevel: `(_loglevel & l) == l`, true exactly when every bit of
        `level` is set; NONE is therefore always enabled. */
    method IsLogLevel(level: Mask) returns (r: bool)
      ensures r <==> level <= loglevel
      ensures level == NONE ==> r
    {
      r := loglevel * level == level;
      EnablesIsSubset(loglevel, level);
    }
  }
}
