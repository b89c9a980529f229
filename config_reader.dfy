/** src/LogConfigReader.cpp: the parsers for the settings of log-config.yml
    and the per-logger, per-level and global decisions `ParseConfigFile`
    takes for a loaded document. The parsers that write through a reference
    parameter are methods returning the new value of that parameter. */
module LogConfigReader {
  import opened Common
  import opened Numerals
  import opened LogLevels
  import opened LogRotationTypes
  import opened Yaml
  import opened ConfigTypes

  /** How a call ends: it returns a flag, or an exception escapes it. */
  datatype Outcome = Returned(ok: bool) | Threw

  const INT_MAX: int := 0x7FFF_FFFF
  const UINT_RANGE: int := 0x1_0000_0000

  // ------------------------------------------------------------ log levels

  /** GetAllLogLevel: the six named levels and no other bit. */
  function GetAllLogLevel(): (m: Mask)
    ensures forall l :: IsNamedLevel(l) ==> Enables(m, l)
    ensures forall b: Bit :: b in m <==> b < 6
  {
    DEBUG + INFO + WARNING + ERROR + FATAL + VERBOSE
  }

  /** The name table of ParseLogLevel; names are case-sensitive. */
  function LevelByName(name: string): (r: Option<Mask>)
    ensures r.Some? <==> name in {"Debug", "Info", "Warning", "Error", "Fatal", "Verbose", "All"}
  {
    if name == "Debug" then Some(DEBUG)
    else if name == "Info" then Some(INFO)
    else if name == "Warning" then Some(WARNING)
    else if name == "Error" then Some(ERROR)
    else if name == "Fatal" then Some(FATAL)
    else if name == "Verbose" then Some(VERBOSE)
    else if name == "All" then Some(GetAllLogLevel())
    else None
  }

  /** The name the configuration file uses for a named level. */
  function ConfigName(l: Mask): string
    requires IsNamedLevel(l)
  {
    if l == DEBUG then "Debug"
    else if l == INFO then "Info"
    else if l == WARNING then "Warning"
    else if l == ERROR then "Error"
    else if l == FATAL then "Fatal"
    else "Verbose"
  }

  /** Every named level has a name that parses back to it, and "All" is
      their union; the label printed in log lines ("DEBUG") is not a name
      the table accepts. */
  lemma LevelNamesRoundTrip(l: Mask)
    requires IsNamedLevel(l)
    ensures LevelByName(ConfigName(l)) == Some(l)
    ensures LevelByName("All") == Some(DEBUG + INFO + WARNING + ERROR + FATAL + VERBOSE)
    ensures LevelByName("DEBUG").None? && LevelByName("debug").None?
  {
  }

  /** ParseLogLevel: the node's scalar text (empty for any other node) is
      looked up; a known name is OR-ed into `dest`, an empty or unknown one
      returns false and leaves `dest` as it was. */
  method ParseLogLevel(levelNode: Node, dest: Mask) returns (ok: bool, dest': Mask)
    ensures ok <==> LevelByName(AsString(levelNode, "")).Some?
    ensures ok ==> dest' == dest + LevelByName(AsString(levelNode, "")).value
    ensures !ok ==> dest' == dest
    ensures dest <= dest'
  {
    var levelStr := AsString(levelNode, "");
    if levelStr == "" {
      return false, dest;
    }
    var it := LevelByName(levelStr);
    if it.None? {
      return false, dest;
    }
    return true, dest + it.value;
  }

  // ------------------------------------------------------------- durations

  function DurationName(t: LogRotationTimeType): string
  {
    match t
      case DAILY => "daily"
      case WEEKLY => "weekly"
      case MONTHLY => "monthly"
  }

  /** The duration a (lower-cased) setting names. */
  function DurationOf(s: string): (r: Option<LogRotationTimeType>)
    ensures r.Some? ==> DurationName(r.value) == Lowered(s)
    ensures r.None? ==> forall t :: DurationName(t) != Lowered(s)
  {
    var d := Lowered(s);
    if d == "daily" then Some(DAILY)
    else if d == "weekly" then Some(WEEKLY)
    else if d == "monthly" then Some(MONTHLY)
    else None
  }

  /** ParseDuration: the lower-cased text must be one of the three names;
      otherwise false with `dest` unchanged. */
  method ParseDuration(duration: string, dest: LogRotationTimeType) returns (ok: bool, dest': LogRotationTimeType)
    ensures ok <==> exists t :: DurationName(t) == Lowered(duration)
    ensures ok ==> DurationName(dest') == Lowered(duration)
    ensures !ok ==> dest' == dest
  {
    var lowered := Lowered(duration);
    if lowered == "daily" {
      dest' := DAILY;
    } else if lowered == "weekly" {
      dest' := WEEKLY;
    } else if lowered == "monthly" {
      dest' := MONTHLY;
    } else {
      assert forall t :: DurationName(t) != lowered;
      return false, dest;
    }
    assert DurationName(dest') == lowered;
    ok := true;
  }

  lemma {:induction false} LoweredIdempotent(s: string)
    ensures Lowered(Lowered(s)) == Lowered(s)
  {
    var l := Lowered(s);
    assert forall i :: 0 <= i < |s| ==> ToLower(l[i]) == l[i];
  }

  /** Every duration is accepted under its own name and under any
      capitalisation of it. */
  lemma DurationRoundTrip(t: LogRotationTimeType, s: string)
    requires Lowered(s) == DurationName(t)
    ensures DurationOf(DurationName(t)) == Some(t)
    ensures DurationOf(s) == Some(t)
  {
    LoweredIdempotent(s);
  }

  // ------------------------------------------------------------- file sizes

  /** The shape ParseFileSize accepts: digits, then one of k, m, g and then
      b, the two letters in either case. */
  predicate IsSizeSetting(s: string)
  {
    |s| >= 3 && AllDecimal(s[..|s| - 2]) &&
    ToLower(s[|s| - 2]) in {'k', 'm', 'g'} && ToLower(s[|s| - 1]) == 'b'
  }

  /** `stoi` runs before the shape check and throws when the leading digits
      of a string that does not consist of digits alone exceed INT_MAX. */
  predicate NumberTooLarge(s: string)
  {
    var n := LeadingDigits(s);
    0 < n < |s| && DecimalValue(s[..n]) > INT_MAX
  }

  /** The kilobytes a setting stands for. The products are evaluated in
      `int`; their overflow is taken to wrap, and the conversion to
      `unsigned int` then reduces modulo 2^32. */
  function SizeInKb(s: string): (kb: uint32)
    requires IsSizeSetting(s) && !NumberTooLarge(s)
  {
    var n := DecimalValue(s[..|s| - 2]);
    var unit := ToLower(s[|s| - 2]);
    if unit == 'k' then n
    else if unit == 'm' then (n * 1000) % UINT_RANGE
    else (n * 1000 * 1000) % UINT_RANGE
  }

  lemma SizeSettingDigits(s: string)
    requires IsSizeSetting(s)
    ensures LeadingDigits(s) == |s| - 2
  {
    var c := s[|s| - 2];
    assert ToLower(c) in {'k', 'm', 'g'};
    assert !IsDecimalDigit(c);
    assert s[..|s| - 2][..|s| - 2] == s[..|s| - 2];
    LeadingDigitsExact(s, |s| - 2);
  }

  /** ParseFileSize, step by step: find the first non-digit, read the
      number, check the length and the trailing 'b', switch on the unit. */
  method ParseFileSize(size: string, destInKb: uint32) returns (outcome: Outcome, dest': uint32)
    ensures outcome.Threw? <==> NumberTooLarge(size)
    ensures outcome == Returned(true) <==> IsSizeSetting(size) && !NumberTooLarge(size)
    ensures outcome == Returned(true) ==> dest' == SizeInKb(size)
    ensures outcome != Returned(true) ==> dest' == destInKb
  {
    var typeIdx := LeadingDigits(size);
    if typeIdx == |size| || typeIdx == 0 {
      if IsSizeSetting(size) {
        SizeSettingDigits(size);
      }
      return Returned(false), destInKb;
    }
    var sizeVal := DecimalValue(size[..typeIdx]);
    if sizeVal > INT_MAX {
      return Threw, destInKb;
    }
    if |size| != typeIdx + 2 || ToLower(size[typeIdx + 1]) != 'b' {
      if IsSizeSetting(size) {
        SizeSettingDigits(size);
      }
      return Returned(false), destInKb;
    }
    var unit := ToLower(size[typeIdx]);
    if unit == 'k' {
      dest' := sizeVal;
    } else if unit == 'm' {
      dest' := (sizeVal * 1000) % UINT_RANGE;
    } else if unit == 'g' {
      dest' := (sizeVal * 1000 * 1000) % UINT_RANGE;
    } else {
      return Returned(false), destInKb;
    }
    outcome := Returned(true);
  }

  /** Round trip: a number written in decimal followed by "KB" reads back
      as that many kilobytes, and followed by "mb" as a thousand times that,
      while the numbers stay in range. */
  lemma FileSizeRoundTrip(n: nat)
    requires n <= INT_MAX
    ensures IsSizeSetting(Decimal(n) + "KB") && !NumberTooLarge(Decimal(n) + "KB")
    ensures SizeInKb(Decimal(n) + "KB") == n
    ensures n * 1000 < UINT_RANGE ==>
      IsSizeSetting(Decimal(n) + "mb") && !NumberTooLarge(Decimal(n) + "mb") &&
      SizeInKb(Decimal(n) + "mb") == n * 1000
  {
    DecimalRoundTrip(n);
    var d := Decimal(n);
    forall unit | unit == "KB" || unit == "mb"
      ensures IsSizeSetting(d + unit) && LeadingDigits(d + unit) == |d|
      ensures (d + unit)[..|d|] == d && !NumberTooLarge(d + unit)
    {
      var s := d + unit;
      assert s[..|s| - 2] == d;
      assert s[|s| - 2] == unit[0] && s[|s| - 1] == unit[1];
      SizeSettingDigits(s);
    }
  }

  /** "5GB" means five million kilobytes, but "5000GB" does not fit: the
      product wraps. */
  lemma FileSizeExamples()
    ensures IsSizeSetting("5GB") && !NumberTooLarge("5GB") && SizeInKb("5GB") == 5000000
    ensures !IsSizeSetting("5G") && !IsSizeSetting("GB") && !IsSizeSetting("5TB")
  {
    assert "5GB"[..1] == "5";
    assert DecimalValue("5") == 5 by { assert "5"[..0] == ""; }
    SizeSettingDigits("5GB");
    assert ToLower("5TB"[1]) == 't';
  }

  // ------------------------------------------------------------ time format

  /** The conversion specifiers the validator accepts after '%'. */
  const TIME_SPECIFIERS: set<char> := {
    'a', 'A', 'b', 'B', 'c', 'C', 'd', 'D', 'e', 'F', 'g', 'G', 'h', 'H', 'I', 'j',
    'm', 'M', 'n', 'p', 'r', 'R', 'S', 't', 'T', 'u', 'U', 'V', 'w', 'W', 'x', 'X',
    'y', 'Y', 'z', 'Z', '%'}

  /** What ValidateTimeFormat does with `s`, read from the front: ordinary
      characters are skipped, a '%' consumes the next character, which must
      be a listed specifier, and a '%' at the very end makes `at()` throw. */
  function TimeFormatCheck(s: string): Outcome
  {
    if |s| == 0 then Returned(true)
    else if s[0] != '%' then TimeFormatCheck(s[1..])
    else if |s| == 1 then Threw
    else if s[1] in TIME_SPECIFIERS then TimeFormatCheck(s[2..])
    else Returned(false)
  }

  /** ValidateTimeFormat: the index-advancing loop. */
  method ValidateTimeFormat(format: string) returns (outcome: Outcome)
    ensures outcome == TimeFormatCheck(format)
  {
    var idx := 0;
    while idx < |format|
      invariant 0 <= idx <= |format|
      invariant TimeFormatCheck(format[idx..]) == TimeFormatCheck(format)
    {
      var c := format[idx];
      assert format[idx..][1..] == format[idx + 1..];
      idx := idx + 1;
      if c != '%' {
        continue;
      }
      if idx == |format| {
        return Threw;
      }
      var spec := format[idx];
      assert format[idx - 1..][2..] == format[idx + 1..];
      idx := idx + 1;
      if spec !in TIME_SPECIFIERS {
        return Returned(false);
      }
    }
    assert format[idx..] == [];
    return Returned(true);
  }

  /** A format without '%' is valid. */
  lemma {:induction false} NoPercentIsValid(s: string)
    requires '%' !in s
    ensures TimeFormatCheck(s) == Returned(true)
    decreases |s|
  {
    if |s| > 0 {
      assert s[1..] == s[|s| - (|s| - 1)..];
      assert forall c :: c in s[1..] ==> c in s;
      NoPercentIsValid(s[1..]);
    }
  }

  /** A format in which every '%' is followed by a listed specifier is
      accepted (a "%%" pair counts as one escaped '%'). */
  lemma {:induction false} SpecifiedFormatIsValid(s: string)
    requires forall i :: 0 <= i < |s| && s[i] == '%' ==> i + 1 < |s| && s[i + 1] in TIME_SPECIFIERS
    ensures TimeFormatCheck(s) == Returned(true)
    decreases |s|
  {
    if |s| == 0 {
    } else if s[0] != '%' {
      assert forall i :: 0 <= i < |s| - 1 ==> s[1..][i] == s[i + 1];
      SpecifiedFormatIsValid(s[1..]);
    } else {
      assert forall i :: 0 <= i < |s| - 2 ==> s[2..][i] == s[i + 2];
      SpecifiedFormatIsValid(s[2..]);
    }
  }

  /** A rejection points at a '%' followed by something that is not a
      specifier; an exception comes from a '%' in the last position. */
  lemma {:induction false} RejectionHasWitness(s: string)
    ensures TimeFormatCheck(s) == Returned(false) ==>
      exists i :: 0 <= i < |s| - 1 && s[i] == '%' && s[i + 1] !in TIME_SPECIFIERS
    ensures TimeFormatCheck(s).Threw? ==> |s| > 0 && s[|s| - 1] == '%'
    decreases |s|
  {
    if |s| == 0 {
    } else if s[0] != '%' {
      RejectionHasWitness(s[1..]);
      if TimeFormatCheck(s) == Returned(false) {
        var i :| 0 <= i < |s| - 2 && s[1..][i] == '%' && s[1..][i + 1] !in TIME_SPECIFIERS;
        assert s[i + 1] == '%' && s[i + 2] !in TIME_SPECIFIERS;
      }
    } else if |s| == 1 {
    } else if s[1] in TIME_SPECIFIERS {
      RejectionHasWitness(s[2..]);
      if TimeFormatCheck(s) == Returned(false) {
        var i :| 0 <= i < |s| - 3 && s[2..][i] == '%' && s[2..][i + 1] !in TIME_SPECIFIERS;
        assert s[i + 2] == '%' && s[i + 3] !in TIME_SPECIFIERS;
      }
    } else {
      assert s[0] == '%' && s[1] !in TIME_SPECIFIERS;
    }
  }

  /** The default "%x %X" passes the validator; "%q" does not, and "%%q" does
      because the first '%' escapes the second. */
  lemma TimeFormatExamples()
    ensures TimeFormatCheck(DEFAULT_TIME_FORMAT) == Returned(true)
    ensures TimeFormatCheck("%q") == Returned(false)
    ensures TimeFormatCheck("%%q") == Returned(true)
    ensures TimeFormatCheck("%x %") == Threw
  {
    assert DEFAULT_TIME_FORMAT[2..] == " %X";
    assert " %X"[1..] == "%X";
    assert "%X"[2..] == "";
    assert "%%q"[2..] == "q";
    assert "q"[1..] == "";
    assert "%x %"[2..] == " %";
    assert " %"[1..] == "%";
  }

  // ------------------------------------------------------- per-logger rules

  /** GetInternalLogConfig: the "log-core" logger logs every level and
      echoes to the console; the other fields keep their defaults. */
  function GetInternalLogConfig(defaults: LoggerConfig): (c: LoggerConfig)
    ensures forall l :: IsNamedLevel(l) ==> Enables(c.level, l)
    ensures c.printToConsole
    ensures c.rotation == defaults.rotation && c.append == defaults.append
  {
    defaults.(level := GetAllLogLevel(), printToConsole := true)
  }

  /** The levels a sequence of level nodes adds, in order. */
  function LevelsOf(items: seq<Node>): (m: Mask)
    ensures forall i :: 0 <= i < |items| && LevelByName(AsString(items[i], "")).Some? ==>
      LevelByName(AsString(items[i], "")).value <= m
    ensures forall b :: b in m ==>
      exists i :: 0 <= i < |items| && LevelByName(AsString(items[i], "")).Some? && b in LevelByName(AsString(items[i], "")).value
  {
    if |items| == 0 then LogLevels.NONE
    else
      var front := items[..|items| - 1];
      var last := LevelByName(AsString(items[|items| - 1], ""));
      assert forall i :: 0 <= i < |front| ==> front[i] == items[i];
      LevelsOf(front) + (if last.Some? then last.value else LogLevels.NONE)
  }

  /** The `LogLevel` key of a logger, or None where reading it throws:
      `IsSequence()` on a missing key. A present, non-null key replaces the
      default mask, which the listed names are then OR-ed into; a sequence
      contributes each element, any other node its own text. A null key
      keeps the default. */
  function LevelSetting(levelNode: Node, initial: Mask): (m: Option<Mask>)
    ensures m.None? <==> !IsDefined(levelNode)
    ensures levelNode.Null? ==> m == Some(initial)
    ensures levelNode.Sequence? ==> m == Some(LevelsOf(levelNode.items))
  {
    var base := if IsDefined(levelNode) && !levelNode.Null? then LogLevels.NONE else initial;
    match IsSequenceOrThrow(levelNode)
      case None => None
      case Some(isSequence) =>
        if isSequence then
          assert base + LevelsOf(levelNode.items) == LevelsOf(levelNode.items);
          Some(base + LevelsOf(levelNode.items))
        else
          var one := LevelByName(AsString(levelNode, ""));
          assert levelNode.Null? ==> one.None? && base + LogLevels.NONE == initial;
          Some(base + (if one.Some? then one.value else LogLevels.NONE))
  }

  /** A missing key throws and a null one keeps the default; a single name
      selects exactly that level; a present but unknown name leaves the
      logger with no level. */
  lemma LevelSettingCases(initial: Mask, l: Mask)
    requires IsNamedLevel(l)
    ensures LevelSetting(Undefined, initial).None?
    ensures LevelSetting(Null, initial) == Some(initial)
    ensures LevelSetting(Scalar(ConfigName(l)), initial) == Some(l)
    ensures LevelSetting(Scalar("Warn"), initial) == Some(LogLevels.NONE)
  {
    assert LevelSetting(Scalar(ConfigName(l)), initial) == Some(l) by {
      LevelNamesRoundTrip(l);
      assert LogLevels.NONE + l == l;
    }
    assert LevelSetting(Scalar("Warn"), initial) == Some(LogLevels.NONE) by {
      assert LevelByName("Warn").None?;
      assert LogLevels.NONE + LogLevels.NONE == LogLevels.NONE;
    }
  }

  /** A list of names selects exactly the listed levels. */
  lemma LevelListCase(initial: Mask)
    ensures LevelSetting(Sequence([Scalar("Error"), Scalar("Fatal")]), initial) == Some(ERROR + FATAL)
  {
    var items := [Scalar("Error"), Scalar("Fatal")];
    assert items[..1] == [Scalar("Error")];
    assert items[..1][..0] == [];
    assert LevelsOf(items[..1]) == ERROR;
  }

  /** The rotation of a logger, or None where reading it throws: where
      a scalar `LogRotation` is subscripted, where `type.as<std::string>()`
      throws, or where ParseFileSize's `stoi`
      throws on a size trigger whose leading number exceeds INT_MAX. With
      no `LogRotation` key, or without both `Type` and `Trigger`, the
      initial value stays; an unknown type name also keeps it. A valid type
      sets the kind, its trigger falls back to DAILY or 100 kB when it does
      not parse, and a scalar `BackupCount` is read. */
  function RotationSetting(rotationNode: Node, initial: LogRotationConfig): (r: Option<LogRotationConfig>)
    ensures !IsDefined(rotationNode) ==> r == Some(initial)
    ensures rotationNode.Scalar? ==> r.None?
    ensures rotationNode.Null? || rotationNode.Sequence? ==> r == Some(initial)
    ensures r.None? && !rotationNode.Scalar? ==> IsDefined(Get(rotationNode, "Trigger"))
    ensures r.None? && Get(rotationNode, "Type").Scalar? ==>
      Get(rotationNode, "Type").text == "Size" && NumberTooLarge(AsString(Get(rotationNode, "Trigger"), "100MB"))
  {
    if !IsDefined(rotationNode) then Some(initial)
    else match Index(rotationNode, "Type")
      case None => None
      case Some(typeNode) =>
        var trigger := Get(rotationNode, "Trigger");
        if !(IsDefined(typeNode) && IsDefined(trigger)) then Some(initial)
        else match AsStringOrThrow(typeNode)
          case None => None
          case Some(typeStr) =>
            if typeStr != "Date" && typeStr != "Size" then Some(initial)
            else if typeStr == "Size" && NumberTooLarge(AsString(trigger, "100MB")) then None
            else
              var rotation :=
                if typeStr == "Date" then
                  var d := DurationOf(AsString(trigger, "Daily"));
                  DateRotation(if d.Some? then d.value else DAILY)
                else
                  var t := AsString(trigger, "100MB");
                  SizeRotation(if IsSizeSetting(t) && !NumberTooLarge(t) then SizeInKb(t) else 100);
              var backupNode := Get(rotationNode, "BackupCount");
              var backupCount :=
                if IsDefined(backupNode) && backupNode.Scalar? then AsInt(backupNode, initial.backupCount)
                else initial.backupCount;
              Some(LogRotationConfig(rotation, backupCount))
  }

  /** A size trigger that does not parse falls back to 100 kB. */
  lemma SizeFallback(initial: LogRotationConfig)
    ensures RotationSetting(Mapping([Entry(Scalar("Type"), Scalar("Size")), Entry(Scalar("Trigger"), Scalar("big"))]), initial)
      == Some(LogRotationConfig(SizeRotation(100), initial.backupCount))
  {
    assert !IsSizeSetting("big") by { assert ToLower("big"[1]) == 'i'; }
  }

  /** An unknown date trigger means DAILY. */
  lemma DateFallback(initial: LogRotationConfig)
    ensures RotationSetting(Mapping([Entry(Scalar("Type"), Scalar("Date")), Entry(Scalar("Trigger"), Scalar("hourly"))]), initial)
      == Some(LogRotationConfig(DateRotation(DAILY), initial.backupCount))
  {
    var node := Mapping([Entry(Scalar("Type"), Scalar("Date")), Entry(Scalar("Trigger"), Scalar("hourly"))]);
    assert FindKey(node.entries, "Type") == Some(0);
    assert FindKey(node.entries, "Trigger") == Some(1);
    assert FindKey(node.entries, "BackupCount").None?;
    assert DurationOf("hourly").None? by {
      assert Lowered("hourly")[0] == 'h';
    }
  }

  /** A size trigger whose number does not fit in an `int` makes `stoi`
      throw, and with it the whole entry: no fallback to 100 kB. */
  lemma OversizedSizeTriggerThrows(initial: LogRotationConfig, n: nat)
    requires n > INT_MAX
    ensures RotationSetting(Mapping([Entry(Scalar("Type"), Scalar("Size")), Entry(Scalar("Trigger"), Scalar(Decimal(n) + "KB"))]), initial).None?
  {
    DecimalRoundTrip(n);
    var d := Decimal(n);
    var t := d + "KB";
    assert t[..|t| - 2] == d;
    assert t[|t| - 2] == 'K' && t[|t| - 1] == 'B';
    SizeSettingDigits(t);
    assert t[..|d|] == d;
    assert NumberTooLarge(t);
    var node := Mapping([Entry(Scalar("Type"), Scalar("Size")), Entry(Scalar("Trigger"), Scalar(t))]);
    assert FindKey(node.entries, "Type") == Some(0);
    assert FindKey(node.entries, "Trigger") == Some(1);
  }

  /** A `Type` that is not a scalar makes the whole reload throw. */
  lemma RotationTypeMustBeScalar(initial: LogRotationConfig)
    ensures RotationSetting(Mapping([Entry(Scalar("Type"), Sequence([])), Entry(Scalar("Trigger"), Scalar("1MB"))]), initial).None?
  {
  }

  /** A scalar setting read with `as<bool>`, or the initial value. */
  function BoolSetting(n: Node, initial: bool): bool
  {
    if IsDefined(n) && n.Scalar? then AsBool(n, initial) else initial
  }

  /** The configuration of one logger entry, or None where reading it
      throws: where the entry is a scalar and is subscripted, where its
      `LogLevel` key is missing and is asked whether it is a sequence (an
      entry that is null or a sequence has no keys at all), or where its
      rotation throws. */
  function LoggerSetting(value: Node, defaults: LoggerConfig): (r: Option<LoggerConfig>)
    ensures r.Some? <==>
      value.Mapping? && IsDefined(Get(value, "LogLevel")) && RotationSetting(Get(value, "LogRotation"), defaults.rotation).Some?
    ensures r.Some? ==> Some(r.value.level) == LevelSetting(Get(value, "LogLevel"), defaults.level)
    ensures r.Some? ==> Some(r.value.rotation) == RotationSetting(Get(value, "LogRotation"), defaults.rotation)
  {
    match Index(value, "LogLevel")
      case None => None
      case Some(levelNode) =>
        match LevelSetting(levelNode, defaults.level)
          case None => None
          case Some(level) =>
            match RotationSetting(Get(value, "LogRotation"), defaults.rotation)
              case None => None
              case Some(rotation) =>
                Some(LoggerConfig(
                  level,
                  rotation,
                  BoolSetting(Get(value, "PrintToConsole"), defaults.printToConsole),
                  BoolSetting(Get(value, "Append"), defaults.append)))
  }

  /** A logger entry whose only key is a null `LogLevel` keeps every
      default. */
  lemma NullLevelKeepsDefaults(defaults: LoggerConfig)
    ensures LoggerSetting(Mapping([Entry(Scalar("LogLevel"), Null)]), defaults) == Some(defaults)
  {
    var value := Mapping([Entry(Scalar("LogLevel"), Null)]);
    assert FindKey(value.entries, "LogLevel") == Some(0);
    assert FindKey(value.entries, "LogRotation").None?;
  }

  /** Entries the loop cannot read: a scalar entry (`mylog: yes`), a null
      one (`mylog:`), one without a `LogLevel` key (`mylog: {}` or
      `mylog: {Append: true}`) and one whose `LogRotation` is a scalar
      (`LogRotation: Size`) all throw. */
  lemma LoggerAccessThrows(defaults: LoggerConfig)
    ensures LoggerSetting(Scalar("yes"), defaults).None?
    ensures LoggerSetting(Null, defaults).None?
    ensures LoggerSetting(Mapping([]), defaults).None?
    ensures LoggerSetting(Mapping([Entry(Scalar("Append"), Scalar("true"))]), defaults).None?
    ensures LoggerSetting(Mapping([Entry(Scalar("LogLevel"), Scalar("Info")), Entry(Scalar("LogRotation"), Scalar("Size"))]), defaults).None?
  {
    var value := Mapping([Entry(Scalar("LogLevel"), Scalar("Info")), Entry(Scalar("LogRotation"), Scalar("Size"))]);
    assert FindKey(value.entries, "LogRotation") == Some(1);
  }

  /** Names that are refused as logger names. */
  predicate IsReservedLoggerName(name: string)
  {
    name == "" || name == "log-core"
  }

  /** The logger map after the loop of ParseConfigFile has visited
      `entries`, and whether reading an entry threw. Once an exception
      escapes, the map keeps what was emplaced before it. */
  function LoggerConfigsFrom(entries: seq<Entry>, defaults: LoggerConfig): (r: (map<string, LoggerConfig>, bool))
    ensures "log-core" in r.0
  {
    if |entries| == 0 then (map["log-core" := GetInternalLogConfig(defaults)], false)
    else
      var (m, threw) := LoggerConfigsFrom(entries[..|entries| - 1], defaults);
      var entry := entries[|entries| - 1];
      var name := AsString(entry.key, "");
      if threw || IsReservedLoggerName(name) then (m, threw)
      else match LoggerSetting(entry.value, defaults)
        case None => (m, true)
        case Some(c) => (Emplace(m, name, c), false)
  }

  /** The logger map ParseConfigFile leaves for a document root, and
      whether an exception escaped. The map is reset to the "log-core"
      entry before `root["Logger"]` is read, which throws on a scalar root;
      a null or sequence root has no loggers; for a mapping the loop over
      the `Logger` entries decides. */
  function LoggerConfigsOf(root: Node, defaults: LoggerConfig): (r: (map<string, LoggerConfig>, bool))
    ensures "log-core" in r.0
    ensures root.Scalar? || root.Undefined? ==> r == (map["log-core" := GetInternalLogConfig(defaults)], true)
    ensures root.Null? || root.Sequence? ==> r == (map["log-core" := GetInternalLogConfig(defaults)], false)
    ensures root.Mapping? ==> r == LoggerConfigsFrom(EntriesOf(Get(root, "Logger")), defaults)
  {
    match Index(root, "Logger")
      case None => (map["log-core" := GetInternalLogConfig(defaults)], true)
      case Some(loggers) => LoggerConfigsFrom(EntriesOf(loggers), defaults)
  }

  /** The "log-core" entry always holds the internal configuration and the
      empty name never becomes a logger, whatever the document says. */
  lemma {:induction false} InternalLoggerCannotBeOverridden(entries: seq<Entry>, defaults: LoggerConfig)
    ensures LoggerConfigsFrom(entries, defaults).0["log-core"] == GetInternalLogConfig(defaults)
    ensures "" !in LoggerConfigsFrom(entries, defaults).0
  {
    if |entries| > 0 {
      InternalLoggerCannotBeOverridden(entries[..|entries| - 1], defaults);
    }
  }

  /** For a duplicated logger name the first entry wins. */
  lemma {:induction false} FirstLoggerEntryWins(entries: seq<Entry>, defaults: LoggerConfig, name: string, c: LoggerConfig)
    requires name in LoggerConfigsFrom(entries, defaults).0
    requires LoggerConfigsFrom(entries, defaults).0[name] == c
    ensures forall more: seq<Entry> ::
      name in LoggerConfigsFrom(entries + more, defaults).0 && LoggerConfigsFrom(entries + more, defaults).0[name] == c
  {
    forall more: seq<Entry>
      ensures name in LoggerConfigsFrom(entries + more, defaults).0 && LoggerConfigsFrom(entries + more, defaults).0[name] == c
    {
      KeepsEarlierEntries(entries, more, defaults, name);
    }
  }

  /** A logger entry whose size trigger overflows `stoi` aborts the loop:
      the map keeps what earlier entries emplaced and the loop reports the
      exception. */
  lemma OversizedTriggerAbortsLoggers(entries: seq<Entry>, defaults: LoggerConfig, name: string, n: nat)
    requires n > INT_MAX && !IsReservedLoggerName(name)
    requires !LoggerConfigsFrom(entries, defaults).1
    ensures var rotation := Mapping([Entry(Scalar("Type"), Scalar("Size")), Entry(Scalar("Trigger"), Scalar(Decimal(n) + "KB"))]);
      var entry := Entry(Scalar(name), Mapping([Entry(Scalar("LogLevel"), Scalar("Info")), Entry(Scalar("LogRotation"), rotation)]));
      LoggerConfigsFrom(entries + [entry], defaults) == (LoggerConfigsFrom(entries, defaults).0, true)
  {
    var rotation := Mapping([Entry(Scalar("Type"), Scalar("Size")), Entry(Scalar("Trigger"), Scalar(Decimal(n) + "KB"))]);
    var value := Mapping([Entry(Scalar("LogLevel"), Scalar("Info")), Entry(Scalar("LogRotation"), rotation)]);
    var entry := Entry(Scalar(name), value);
    OversizedSizeTriggerThrows(defaults.rotation, n);
    assert FindKey(value.entries, "LogLevel") == Some(0);
    assert FindKey(value.entries, "LogRotation") == Some(1);
    assert LoggerSetting(value, defaults).None?;
    assert (entries + [entry])[..|entries + [entry]| - 1] == entries;
  }

  lemma {:induction false} KeepsEarlierEntries(entries: seq<Entry>, more: seq<Entry>, defaults: LoggerConfig, name: string)
    requires name in LoggerConfigsFrom(entries, defaults).0
    ensures name in LoggerConfigsFrom(entries + more, defaults).0
    ensures LoggerConfigsFrom(entries + more, defaults).0[name] == LoggerConfigsFrom(entries, defaults).0[name]
    decreases |more|
  {
    if |more| == 0 {
      assert entries + more == entries;
    } else {
      var init := more[..|more| - 1];
      assert (entries + more)[..|entries + more| - 1] == entries + init;
      KeepsEarlierEntries(entries, init, defaults, name);
      var (m, threw) := LoggerConfigsFrom(entries + init, defaults);
      var entry := (entries + more)[|entries + more| - 1];
      var key := AsString(entry.key, "");
      assert entry == more[|more| - 1];
      if threw || IsReservedLoggerName(key) {
        assert LoggerConfigsFrom(entries + more, defaults).0 == m;
      } else {
        match LoggerSetting(entry.value, defaults)
        case None =>
          assert LoggerConfigsFrom(entries + more, defaults).0 == m;
        case Some(c) =>
          assert LoggerConfigsFrom(entries + more, defaults).0 == Emplace(m, key, c);
      }
    }
  }

  /** The per-level map after the loop of ParseConfigFile has visited
      `entries`, and whether reading an entry threw. Each key that names a
      level (its text parsed into an empty mask) gets that entry's console
      flag, and the first entry for a level wins; subscripting the value of
      such an entry throws when it is a scalar, and the map then keeps what
      was emplaced before. */
  function LevelConfigsFrom(entries: seq<Entry>): (r: (map<Mask, LogLevelConfig>, bool))
  {
    if |entries| == 0 then (map[], false)
    else
      var (m, threw) := LevelConfigsFrom(entries[..|entries| - 1]);
      var entry := entries[|entries| - 1];
      if threw then (m, true)
      else match LevelByName(AsString(entry.key, ""))
        case None => (m, false)
        case Some(level) =>
          match Index(entry.value, "PrintToConsole")
            case None => (m, true)
            case Some(flag) => (Emplace(m, level, LogLevelConfig(BoolSetting(flag, false))), false)
  }

  /** One more entry after entries that did not throw: an entry naming a
      level adds that level's console flag unless the level is already
      there, or throws where its value cannot be subscripted; any other
      entry is skipped. */
  lemma LevelConfigsStep(entries: seq<Entry>, i: nat)
    requires i < |entries|
    requires !LevelConfigsFrom(entries[..i]).1
    ensures var named := LevelByName(AsString(entries[i].key, ""));
      var prev := LevelConfigsFrom(entries[..i]).0;
      var flag := Index(entries[i].value, "PrintToConsole");
      LevelConfigsFrom(entries[..i + 1]) ==
        if named.None? then (prev, false)
        else if flag.None? then (prev, true)
        else (Emplace(prev, named.value, LogLevelConfig(BoolSetting(flag.value, false))), false)
  {
    assert entries[..i + 1][..i] == entries[..i];
    assert entries[..i + 1][i] == entries[i];
  }

  /** A level entry whose value is a scalar (`Warning: yes`) ends the
      per-level loop with an exception and leaves the map as the earlier
      entries made it. */
  lemma ScalarLevelEntryThrows(entries: seq<Entry>, l: Mask)
    requires IsNamedLevel(l)
    requires !LevelConfigsFrom(entries).1
    ensures LevelConfigsFrom(entries + [Entry(Scalar(ConfigName(l)), Scalar("yes"))]) == (LevelConfigsFrom(entries).0, true)
  {
    LevelNamesRoundTrip(l);
    var more := entries + [Entry(Scalar(ConfigName(l)), Scalar("yes"))];
    assert more[..|more| - 1] == entries;
  }

  /** One more logger entry after entries that did not throw: a reserved
      name is skipped, a failing setting throws and any other is emplaced. */
  lemma LoggerConfigsStep(entries: seq<Entry>, defaults: LoggerConfig, i: nat)
    requires i < |entries|
    requires !LoggerConfigsFrom(entries[..i], defaults).1
    ensures var name := AsString(entries[i].key, "");
      var prev := LoggerConfigsFrom(entries[..i], defaults).0;
      var setting := LoggerSetting(entries[i].value, defaults);
      LoggerConfigsFrom(entries[..i + 1], defaults) ==
        if IsReservedLoggerName(name) then (prev, false)
        else if setting.None? then (prev, true)
        else (Emplace(prev, name, setting.value), false)
  {
    assert entries[..i + 1][..i] == entries[..i];
    assert entries[..i + 1][i] == entries[i];
  }

  /** Every key of the per-level map is a level some entry names. */
  lemma {:induction false} LevelConfigKeysAreNamed(entries: seq<Entry>, l: Mask)
    requires l in LevelConfigsFrom(entries).0
    ensures exists i :: 0 <= i < |entries| && LevelByName(AsString(entries[i].key, "")) == Some(l)
  {
    var init := entries[..|entries| - 1];
    if l in LevelConfigsFrom(init).0 {
      LevelConfigKeysAreNamed(init, l);
      var i :| 0 <= i < |init| && LevelByName(AsString(init[i].key, "")) == Some(l);
      assert entries[i] == init[i];
    } else {
      assert LevelByName(AsString(entries[|entries| - 1].key, "")) == Some(l);
    }
  }

  /** The global settings, and whether validating the time format threw;
      the record is reset to its defaults first, so a throw leaves the
      defaults in place. A time format the validator rejects is ignored. */
  function GlobalConfigFrom(root: Node): (r: (GlobalConfig, bool))
    ensures r.1 ==> r.0 == DefaultGlobalConfig()
    ensures !r.1 && !Get(root, "LogTimeFormat").Scalar? ==> r.0.logTimeFormat == DEFAULT_TIME_FORMAT
    ensures r.0.logsRootFolder == DEFAULT_LOGS_ROOT
  {
    var g := DefaultGlobalConfig();
    var formatNode := Get(root, "LogTimeFormat");
    var check := if IsDefined(formatNode) && formatNode.Scalar? then TimeFormatCheck(formatNode.text) else Returned(false);
    if check.Threw? then (g, true)
    else
      var g := if check == Returned(true) then g.(logTimeFormat := formatNode.text) else g;
      var g := g.(enableColors := BoolSetting(Get(root, "EnableColors"), g.enableColors));
      (g.(disableDebugInfo := BoolSetting(Get(root, "DisableDebugInfo"), g.disableDebugInfo)), false)
  }

  /** An invalid time format keeps "%x %X". */
  lemma InvalidTimeFormatKeepsDefault()
    ensures GlobalConfigFrom(Mapping([Entry(Scalar("LogTimeFormat"), Scalar("%q"))])).0.logTimeFormat == DEFAULT_TIME_FORMAT
  {
    TimeFormatExamples();
  }
}
