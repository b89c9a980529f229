/** src/CAmxManager.cpp: the oldest revision of the registry. It has no
    disable switch, returns the raw 0-based line and copies file and
    function names into caller strings. */
module CAmxManagerModule {
  import opened Common
  import opened AmxTypes

  class CAmxManager {
    /** `m_AvailableDebugInfo`, in its iteration order. */
    var available: seq<DebugEntry>
    /** `m_AmxDebugMap`. */
    var bound: map<AmxId, DebugInfo>

    /** Every bound AMX is bound to a loaded table. */
    predicate Valid()
      reads this
    {
      forall id :: id in bound ==> bound[id] in Tables(available)
    }

    /** The constructor: with no gamemode listed nothing is loaded (not even
        the filterscripts); otherwise the gamemode files and then the
        filterscript files are loaded. */
    constructor (gamemodeFiles: seq<Option<AmxFile>>, filterscriptFiles: seq<Option<AmxFile>>)
      ensures Valid()
      ensures bound == map[]
      ensures available ==
        if |gamemodeFiles| == 0 then [] else LoadedEntries(gamemodeFiles + filterscriptFiles)
    {
      available := [];
      bound := map[];
      new;
      if |gamemodeFiles| == 0 {
        return;
      }
      var files := gamemodeFiles + filterscriptFiles;
      var i := 0;
      while i < |files|
        invariant 0 <= i <= |files|
        invariant available == LoadedEntries(files[..i])
        invariant bound == map[]
      {
        assert files[..i + 1][..i] == files[..i];
        var _ := InitDebugData(files[i]);
        i := i + 1;
      }
      assert files[..|files|] == files;
    }

    /** InitDebugData: false for a file that cannot be opened and for one
        whose debug information does not load; a (header, table) pair is
        stored only when loading succeeds. */
    method InitDebugData(file: Option<AmxFile>) returns (ok: bool)
      requires Valid()
      modifies this
      ensures Valid()
      ensures file.None? ==> !ok
      ensures ok <==> file.Some? && file.value.load.Some?
      ensures ok ==> available == old(available) + [DebugEntry(file.value.header, file.value.load.value)]
      ensures !ok ==> available == old(available)
      ensures bound == old(bound)
    {
      if file.None? {
        return false;
      }
      if file.value.load.None? {
        return false;
      }
      available := available + [DebugEntry(file.value.header, file.value.load.value)];
      assert forall e :: e in old(available) ==> e in available;
      return true;
    }

    /** RegisterAmx: an already bound AMX keeps its binding; otherwise it is
        bound to the first table whose header equals its image header. */
    method RegisterAmx(amx: Amx)
      requires Valid()
      modifies this
      ensures Valid()
      ensures available == old(available)
      ensures amx.id in old(bound) ==> bound == old(bound)
      ensures amx.id !in old(bound) ==>
        bound == match FirstMatch(available, amx.base)
          case None => old(bound)
          case Some(i) => old(bound)[amx.id := available[i].info]
    {
      if amx.id in bound {
        return;
      }
      var r := FindFirstMatch(available, amx.base);
      if r.Some? {
        bound := bound[amx.id := available[r.value].info];
      }
    }

    /** EraseAmx: removes the binding if present. */
    method EraseAmx(amx: Amx)
      requires Valid()
      modifies this
      ensures Valid()
      ensures available == old(available)
      ensures bound == old(bound) - {amx.id}
    {
      bound := bound - {amx.id};
    }

    /** GetLastAmxLine: the lookup result with the raw 0-based line.
        `dbg_LookupLine` clears the line to 0 before it searches, so only an
        unbound AMX leaves it untouched. */
    method GetLastAmxLine(amx: Amx, line: int) returns (ok: bool, line': int)
      ensures ok <==> amx.id in bound && amx.cip in bound[amx.id].lineAt
      ensures ok ==> line' == bound[amx.id].lineAt[amx.cip]
      ensures !ok && amx.id in bound ==> line' == 0
      ensures amx.id !in bound ==> line' == line
    {
      if amx.id in bound {
        var info := bound[amx.id];
        if amx.cip in info.lineAt {
          return true, info.lineAt[amx.cip];
        }
        return false, 0;
      }
      return false, line;
    }

    /** GetLastAmxFile: on a successful lookup the name is assigned to the
        caller's string and true returned; otherwise the string is kept. */
    method GetLastAmxFile(amx: Amx, file: string) returns (ok: bool, file': string)
      ensures ok <==> amx.id in bound && amx.cip in bound[amx.id].fileAt
      ensures ok ==> file' == bound[amx.id].fileAt[amx.cip]
      ensures !ok ==> file' == file
    {
      if amx.id in bound {
        var info := bound[amx.id];
        if amx.cip in info.fileAt {
          return true, info.fileAt[amx.cip];
        }
      }
      return false, file;
    }

    /** GetLastAmxFunction: as GetLastAmxFile, with the function lookup. */
    method GetLastAmxFunction(amx: Amx, function': string) returns (ok: bool, function'': string)
      ensures ok <==> amx.id in bound && amx.cip in bound[amx.id].functionAt
      ensures ok ==> function'' == bound[amx.id].functionAt[amx.cip]
      ensures !ok ==> function'' == function'
    {
      if amx.id in bound {
        var info := bound[amx.id];
        if amx.cip in info.functionAt {
          return true, info.functionAt[amx.cip];
        }
      }
      return false, function';
    }
  }
}
