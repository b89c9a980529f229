/** src/CAmxDebugManager.cpp: the older debug manager. It is switched off by
    the server.cfg variable `logcore_debuginfo` and answers line, file and
    function queries for the current instruction of an AMX. */
module CAmxDebugManagerModule {
  import opened Common
  import opened AmxTypes

  /** The disable rule of the constructor: the variable exists, is not
      empty and its first character is '0'. */
  function DebugInfoDisabled(useDebugInfo: Option<string>): (d: bool)
    ensures d <==> useDebugInfo.Some? && StartsWith(useDebugInfo.value, "0")
  {
    useDebugInfo.Some? && |useDebugInfo.value| > 0 && useDebugInfo.value[0] == '0'
  }

  /** The rule looks at the first character only: "0" and "0ff" both
      disable, "1", "no" and an empty value do not. */
  lemma DisableRuleExamples()
    ensures DebugInfoDisabled(Some("0")) && DebugInfoDisabled(Some("0ff"))
    ensures !DebugInfoDisabled(Some("")) && !DebugInfoDisabled(Some("1"))
    ensures !DebugInfoDisabled(Some("no")) && !DebugInfoDisabled(None)
  {
    assert StartsWith("0ff", "0") by { assert "0ff"[..1] == "0"; }
    assert StartsWith("0", "0") by { assert "0"[..1] == "0"; }
    assert !StartsWith("1", "0") by { assert "1"[..1][0] == '1'; }
    assert !StartsWith("no", "0") by { assert "no"[..1][0] == 'n'; }
  }

  /** Addresses of the 32-bit target: `reinterpret_cast<cell>` of a pointer
      only compiles where a pointer is as wide as a `cell`. */
  const ADDRESS_RANGE: int := 0x1_0000_0000

  /** The data segment: `amx->data`, or `base + hdr.dat` when that is null. */
  function DataSegment(amx: Amx): int
  {
    if amx.dataPtr != 0 then amx.dataPtr else amx.baseAddr + amx.hdrDat
  }

  /** GetNativeParamsPtr: the data segment offset by the stack top `stk`.
      The sum is formed in `cell` and cast back to a pointer, so it is the
      32-bit address congruent to the sum: the sum itself whenever that is
      an address. */
  function GetNativeParamsPtr(amx: Amx): (p: int)
    ensures 0 <= p < ADDRESS_RANGE
    ensures (p - (DataSegment(amx) + amx.stk)) % ADDRESS_RANGE == 0
    ensures 0 <= DataSegment(amx) + amx.stk < ADDRESS_RANGE ==> p == DataSegment(amx) + amx.stk
  {
    (DataSegment(amx) + amx.stk) % ADDRESS_RANGE
  }

  /** The parameter pointer follows the stack: pushing `m` more cells moves
      it down by `m` cells, as long as the stack top stays in the address
      space. */
  lemma ParamsPtrFollowsStack(amx: Amx, m: nat)
    requires 0 <= DataSegment(amx) + amx.stk - m * CELL_SIZE
    requires DataSegment(amx) + amx.stk < ADDRESS_RANGE
    ensures GetNativeParamsPtr(amx.(stk := amx.stk - m * CELL_SIZE)) == GetNativeParamsPtr(amx) - m * CELL_SIZE
  {
    var pushed := amx.(stk := amx.stk - m * CELL_SIZE);
    assert DataSegment(pushed) == DataSegment(amx);
  }

  class CAmxDebugManager {
    /** `m_DisableDebugInfo`. */
    var disabled: bool
    /** `m_AvailableDebugInfo`, in its iteration order. */
    var available: seq<DebugEntry>
    /** `m_AmxDebugMap`. */
    var bound: map<AmxId, DebugInfo>

    /** Every bound AMX is bound to a loaded table. */
    predicate Valid()
      reads this
    {
      forall id :: id in bound ==> bound[id] in Tables(available)
    }

    /** The constructor: disabled by `logcore_debuginfo` (then nothing is
        loaded); with no gamemode listed nothing is loaded either; otherwise
        the gamemode files and then the filterscript files are loaded. */
    constructor (useDebugInfo: Option<string>, gamemodeFiles: seq<Option<AmxFile>>, filterscriptFiles: seq<Option<AmxFile>>)
      ensures Valid()
      ensures disabled == DebugInfoDisabled(useDebugInfo) && bound == map[]
      ensures available ==
        if disabled || |gamemodeFiles| == 0 then []
        else LoadedEntries(gamemodeFiles + filterscriptFiles)
    {
      disabled := DebugInfoDisabled(useDebugInfo);
      available := [];
      bound := map[];
      new;
      if disabled || |gamemodeFiles| == 0 {
        return;
      }
      var files := gamemodeFiles + filterscriptFiles;
      var i := 0;
      while i < |files|
        invariant 0 <= i <= |files|
        invariant available == LoadedEntries(files[..i])
        invariant Valid()
        invariant !disabled && bound == map[]
      {
        LoadedEntriesStep(files, i);
        var _ := InitDebugData(files[i]);
        i := i + 1;
      }
      assert files[..|files|] == files;
      assert available == LoadedEntries(files);
    }

    /** InitDebugData: false when the file cannot be opened or does not
        load; otherwise the (header, table) pair is stored. */
    method InitDebugData(file: Option<AmxFile>) returns (ok: bool)
      requires Valid()
      modifies this
      ensures Valid()
      ensures ok <==> file.Some? && file.value.load.Some?
      ensures available == old(available) + LoadedEntry(file)
      ensures disabled == old(disabled) && bound == old(bound)
    {
      if file.None? || file.value.load.None? {
        return false;
      }
      available := available + LoadedEntry(file);
      assert forall e :: e in old(available) ==> e in available;
      return true;
    }

    /** RegisterAmx: nothing when disabled or already bound; otherwise binds
        to the first table whose header equals the image header, if any. */
    method RegisterAmx(amx: Amx)
      requires Valid()
      modifies this
      ensures Valid()
      ensures disabled == old(disabled) && available == old(available)
      ensures old(disabled) || amx.id in old(bound) ==> bound == old(bound)
      ensures !old(disabled) && amx.id !in old(bound) ==>
        bound == match FirstMatch(available, amx.base)
          case None => old(bound)
          case Some(i) => old(bound)[amx.id := available[i].info]
    {
      if disabled {
        return;
      }
      if amx.id in bound {
        return;
      }
      var r := FindFirstMatch(available, amx.base);
      if r.Some? {
        bound := bound[amx.id := available[r.value].info];
      }
    }

    /** EraseAmx: removes the binding; a no-op when disabled. */
    method EraseAmx(amx: Amx)
      requires Valid()
      modifies this
      ensures Valid()
      ensures disabled == old(disabled) && available == old(available)
      ensures bound == if old(disabled) then old(bound) else old(bound) - {amx.id}
    {
      if disabled {
        return;
      }
      bound := bound - {amx.id};
    }

    /** GetLastAmxLine as written: `lookup == AMX_ERR_NONE && line++`.
        `dbg_LookupLine` clears `line` to 0 before it searches. The
        increment to a 1-based line happens only after a successful lookup,
        but the value tested is the 0-based line before it, so a lookup that
        lands on line 0 returns false with `line` set to 1. */
    method GetLastAmxLineAsWritten(amx: Amx, line: int) returns (ok: bool, line': int)
      ensures ok <==> !disabled && amx.id in bound && amx.cip in bound[amx.id].lineAt &&
                      bound[amx.id].lineAt[amx.cip] != 0
      ensures !disabled && amx.id in bound && amx.cip in bound[amx.id].lineAt ==>
        line' == bound[amx.id].lineAt[amx.cip] + 1
      ensures !disabled && amx.id in bound && amx.cip !in bound[amx.id].lineAt ==> line' == 0
      ensures disabled || amx.id !in bound ==> line' == line
    {
      if disabled {
        return false, line;
      }
      if amx.id in bound {
        var info := bound[amx.id];
        if amx.cip in info.lineAt {
          var looked := info.lineAt[amx.cip];
          ok := looked != 0;
          line' := looked + 1;
          return;
        }
        return false, 0;
      }
      return false, line;
    }

    /** GetLastAmxLine as intended: true exactly when the lookup succeeds,
        with the 1-based line; a failed lookup has cleared the line to 0. */
    method GetLastAmxLine(amx: Amx, line: int) returns (ok: bool, line': int)
      ensures ok <==> !disabled && amx.id in bound && amx.cip in bound[amx.id].lineAt
      ensures ok ==> line' == bound[amx.id].lineAt[amx.cip] + 1
      ensures !ok && !disabled && amx.id in bound ==> line' == 0
      ensures disabled || amx.id !in bound ==> line' == line
    {
      if disabled {
        return false, line;
      }
      if amx.id in bound {
        if amx.cip in bound[amx.id].lineAt {
          return true, bound[amx.id].lineAt[amx.cip] + 1;
        }
        return false, 0;
      }
      return false, line;
    }

    /** GetLastAmxFile: false when disabled or unbound, with `*file`
        untouched; otherwise whether the file lookup at `cip` succeeds.
        `dbg_LookupFile` sets `*file` to NULL (None) before it searches. */
    method GetLastAmxFile(amx: Amx, file: Option<string>) returns (ok: bool, file': Option<string>)
      ensures ok <==> !disabled && amx.id in bound && amx.cip in bound[amx.id].fileAt
      ensures ok ==> file' == Some(bound[amx.id].fileAt[amx.cip])
      ensures !ok && !disabled && amx.id in bound ==> file' == None
      ensures disabled || amx.id !in bound ==> file' == file
    {
      if disabled {
        return false, file;
      }
      if amx.id !in bound {
        return false, file;
      }
      var info := bound[amx.id];
      if amx.cip in info.fileAt {
        return true, Some(info.fileAt[amx.cip]);
      }
      return false, None;
    }

    /** GetLastAmxFunction: false when disabled or unbound, with `*function`
        untouched; otherwise whether the function lookup at `cip` succeeds.
        `dbg_LookupFunction` sets `*function` to NULL (None) before it
        searches. */
    method GetLastAmxFunction(amx: Amx, function': Option<string>) returns (ok: bool, function'': Option<string>)
      ensures ok <==> !disabled && amx.id in bound && amx.cip in bound[amx.id].functionAt
      ensures ok ==> function'' == Some(bound[amx.id].functionAt[amx.cip])
      ensures !ok && !disabled && amx.id in bound ==> function'' == None
      ensures disabled || amx.id !in bound ==> function'' == function'
    {
      if disabled {
        return false, function';
      }
      if amx.id !in bound {
        return false, function';
      }
      var info := bound[amx.id];
      if amx.cip in info.functionAt {
        return true, Some(info.functionAt[amx.cip]);
      }
      return false, None;
    }
  }
}
