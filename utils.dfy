/** src/utils.cpp: level names and colours for output, path separator
    normalisation before a folder is created, and the once-only terminal
    colour set-up. */
module Utils {
  import opened LogLevels

  const UNKNOWN_LEVEL: string := "<unknown>"

  /** `GetLogLevelAsString`: a switch over single levels; NONE and every
      combination of flags fall through to "<unknown>". */
  function GetLogLevelAsString(l: Mask): (name: string)
    ensures name != UNKNOWN_LEVEL <==> IsNamedLevel(l)
    ensures l == DEBUG ==> name == "DEBUG"
    ensures l == INFO ==> name == "INFO"
    ensures l == WARNING ==> name == "WARNING"
    ensures l == ERROR ==> name == "ERROR"
    ensures l == FATAL ==> name == "FATAL"
    ensures l == VERBOSE ==> name == "VERBOSE"
  {
    if l == DEBUG then "DEBUG"
    else if l == INFO then "INFO"
    else if l == WARNING then "WARNING"
    else if l == ERROR then "ERROR"
    else if l == FATAL then "FATAL"
    else if l == VERBOSE then "VERBOSE"
    else UNKNOWN_LEVEL
  }

  /** Different named levels get different names, so a line's label
      identifies its level. */
  lemma LevelNamesIdentifyLevel(a: Mask, b: Mask)
    requires IsNamedLevel(a) && IsNamedLevel(b)
    requires GetLogLevelAsString(a) == GetLogLevelAsString(b)
    ensures a == b
  {
  }

  datatype Color = Green | RoyalBlue | Orange | Red | WhiteSmoke | White

  /** `GetLogLevelColor`: ERROR and FATAL share red; anything that is not a
      single named level is white. */
  function GetLogLevelColor(l: Mask): (c: Color)
    ensures c == Red <==> l == ERROR || l == FATAL
    ensures c == White <==> !IsNamedLevel(l)
    ensures l == DEBUG ==> c == Green
    ensures l == INFO ==> c == RoyalBlue
    ensures l == WARNING ==> c == Orange
    ensures l == VERBOSE ==> c == WhiteSmoke
  {
    if l == DEBUG then Green
    else if l == INFO then RoyalBlue
    else if l == WARNING then Orange
    else if l == ERROR then Red
    else if l == FATAL then Red
    else if l == VERBOSE then WhiteSmoke
    else White
  }

  /** The separator a platform's folder API expects, and the one it replaces. */
  function Separator(windows: bool): char { if windows then '\\' else '/' }
  function ForeignSeparator(windows: bool): char { if windows then '/' else '\\' }

  /** `CreateFolder`: `std::replace` on the by-value copy of the name turns
      every foreign separator into the native one; the result is the path
      handed to mkdir / CreateDirectoryA. */
  method CreateFolder(foldername: string, windows: bool) returns (created: string)
    ensures |created| == |foldername|
    ensures ForeignSeparator(windows) !in created
    ensures forall i :: 0 <= i < |foldername| ==>
      created[i] == (if foldername[i] == ForeignSeparator(windows) then Separator(windows) else foldername[i])
  {
    var from, to := ForeignSeparator(windows), Separator(windows);
    created := foldername;
    var i := 0;
    while i < |created|
      invariant 0 <= i <= |created| == |foldername|
      invariant forall k :: 0 <= k < i ==>
        created[k] == (if foldername[k] == from then to else foldername[k])
      invariant forall k :: i <= k < |created| ==> created[k] == foldername[k]
    {
      if created[i] == from {
        created := created[i := to];
      }
      i := i + 1;
    }
  }

  /** `EnsureTerminalColorSupport` with its function-local static flag. */
  class TerminalColorSupport {
    var enabled: bool

    constructor ()
      ensures !enabled
    {
      enabled := false;
    }

    /** Once the flag is set the call returns at once. On non-Windows the
        first call only sets it; on Windows it is set only when the console
        handle and both console-mode calls succeed (`consoleModeOk`). */
    method Ensure(windows: bool, consoleModeOk: bool)
      modifies this
      ensures old(enabled) ==> enabled
      ensures !old(enabled) ==> enabled == (!windows || consoleModeOk)
    {
      if enabled {
        return;
      }
      if windows && !consoleModeOk {
        return;
      }
      enabled := true;
    }
  }
}
