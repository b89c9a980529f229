/** src/AmxDebugManager.cpp: binds live AMX instances to preloaded debug
    tables and resolves code addresses and call stacks through them. */
module AmxDebugManagerModule {
  import opened Common
  import opened AmxTypes

  /** Number of leading line-table entries whose address is at or below
      `address`: where the index-advancing loop of GetFunctionCall stops. */
  function LeadingCount(lines: seq<LineEntry>, address: nat): (n: nat)
    ensures n <= |lines|
    ensures forall k :: 0 <= k < n ==> lines[k].address <= address
    ensures n < |lines| ==> lines[n].address > address
  {
    if |lines| == 0 || lines[0].address > address then 0
    else 1 + LeadingCount(lines[1..], address)
  }

  /** The line table is ordered by address, as the compiler emits it. */
  predicate SortedByAddress(lines: seq<LineEntry>)
  {
    forall i, j :: 0 <= i < j < |lines| ==> lines[i].address <= lines[j].address
  }

  /** The line search: 1-based line of the last entry at or below `address`,
      failing when no entry is at or below it or when every entry is. */
  method SearchLine(lines: seq<LineEntry>, address: nat) returns (found: bool, line: int)
    ensures found <==> 0 < LeadingCount(lines, address) < |lines|
    ensures found ==> line == lines[LeadingCount(lines, address) - 1].line + 1
  {
    var index := 0;
    while index < |lines| && lines[index].address <= address
      invariant 0 <= index <= LeadingCount(lines, address)
    {
      index := index + 1;
    }
    if index >= |lines| {
      return false, 0;
    }
    index := index - 1;
    if index < 0 {
      return false, 0;
    }
    return true, lines[index].line + 1;
  }

  /** In a sorted table the entry the search uses is the one whose address
      range holds `address`: at or below it, with the next entry above it. */
  lemma SearchUsesEnclosingEntry(lines: seq<LineEntry>, address: nat)
    requires 0 < LeadingCount(lines, address) < |lines|
    ensures var k := LeadingCount(lines, address) - 1;
      lines[k].address <= address < lines[k + 1].address
  {
  }

  /** The final entry is never used: in a sorted table every address at or
      past its address makes the search fail. */
  lemma {:induction false} LastEntryUnreachable(lines: seq<LineEntry>, address: nat)
    requires SortedByAddress(lines)
    requires |lines| > 0 && address >= lines[|lines| - 1].address
    ensures LeadingCount(lines, address) == |lines|
    decreases |lines|
  {
    if |lines| > 1 {
      assert SortedByAddress(lines[1..]) by {
        forall i, j | 0 <= i < j < |lines| - 1
          ensures lines[1..][i].address <= lines[1..][j].address
        {
          assert lines[1..][i] == lines[i + 1] && lines[1..][j] == lines[j + 1];
        }
      }
      assert lines[1..][|lines| - 2] == lines[|lines| - 1];
      LastEntryUnreachable(lines[1..], address);
    }
    assert lines[0].address <= lines[|lines| - 1].address;
  }

  /** What GetFunctionCall yields for a bound table: the call at `address`
      when the line search and both lookups succeed. */
  function Resolve(info: DebugInfo, address: nat): Option<CallInfo>
  {
    var n := LeadingCount(info.lines, address);
    if 0 < n < |info.lines| && address in info.fileAt && address in info.functionAt then
      Some(CallInfo(info.lines[n - 1].line + 1, info.fileAt[address], info.functionAt[address]))
    else None
  }

  /** The record the frame walk pushes for a return address. */
  function FrameAt(info: DebugInfo, address: nat): CallInfo
  {
    match Resolve(info, address)
      case Some(c) => c
      case None => UNKNOWN_CALL
  }

  /** The frames the walk appends after the `cip` frame, starting from frame
      pointer `frm`, for at most `fuel` iterations: the return address is
      the cell after the saved frame pointer, 0 in either ends the walk. */
  function Frames(info: DebugInfo, mem: map<int, int>, frm: int, fuel: nat): (r: seq<CallInfo>)
    decreases fuel
  {
    if fuel == 0 then []
    else
      var ret := ReadCell(mem, frm + CELL_SIZE);
      if ret == 0 then []
      else
        var f := FrameAt(info, Ucell(ret));
        var next := ReadCell(mem, frm);
        if next == 0 then [f] else [f] + Frames(info, mem, next, fuel - 1)
  }

  /** One iteration of the walk: a non-zero return address contributes
      its frame, then the walk goes on from the saved frame pointer unless
      that is 0. */
  lemma FramesStep(info: DebugInfo, mem: map<int, int>, frm: int, fuel: nat)
    requires fuel > 0 && ReadCell(mem, frm + CELL_SIZE) != 0
    ensures var next := ReadCell(mem, frm);
      Frames(info, mem, frm, fuel) ==
        [FrameAt(info, Ucell(ReadCell(mem, frm + CELL_SIZE)))] + (if next == 0 then [] else Frames(info, mem, next, fuel - 1))
  {
  }

  /** Every frame is the resolved call at some return address or the
      unknown record, and there are at most `fuel` of them. */
  lemma {:induction false} FramesShape(info: DebugInfo, mem: map<int, int>, frm: int, fuel: nat)
    ensures |Frames(info, mem, frm, fuel)| <= fuel
    ensures forall i :: 0 <= i < |Frames(info, mem, frm, fuel)| ==>
      Frames(info, mem, frm, fuel)[i] == UNKNOWN_CALL ||
      exists a: nat :: Resolve(info, a) == Some(Frames(info, mem, frm, fuel)[i])
    decreases fuel
  {
    if fuel > 0 {
      var ret := ReadCell(mem, frm + CELL_SIZE);
      var next := ReadCell(mem, frm);
      if ret != 0 && next != 0 {
        FramesShape(info, mem, next, fuel - 1);
        var f := FrameAt(info, Ucell(ret));
        assert f == UNKNOWN_CALL || Resolve(info, Ucell(ret)) == Some(f);
      } else if ret != 0 {
        assert FrameAt(info, Ucell(ret)) == UNKNOWN_CALL || Resolve(info, Ucell(ret)) == Some(FrameAt(info, Ucell(ret)));
      }
    }
  }

  /** A frame whose saved frame pointer points at itself never ends the
      walk: every iteration the fuel allows pushes a frame, so the uncapped
      loop of the source does not terminate on such a stack. */
  lemma {:induction false} SelfLinkedFrameNeverStops(info: DebugInfo, mem: map<int, int>, frm: int, fuel: nat)
    requires frm != 0 && ReadCell(mem, frm) == frm && ReadCell(mem, frm + CELL_SIZE) != 0
    ensures |Frames(info, mem, frm, fuel)| == fuel
    decreases fuel
  {
    if fuel > 0 {
      SelfLinkedFrameNeverStops(info, mem, frm, fuel - 1);
    }
  }

  /** The HACK at the end of the walk: with more than one record, the line
      of the last one is decremented. */
  function DecrementLast(s: seq<CallInfo>): (r: seq<CallInfo>)
    ensures |r| == |s|
    ensures |s| > 1 ==> r[..|s| - 1] == s[..|s| - 1] && r[|s| - 1] == s[|s| - 1].(line := s[|s| - 1].line - 1)
    ensures |s| <= 1 ==> r == s
  {
    if |s| > 1 then s[..|s| - 1] + [s[|s| - 1].(line := s[|s| - 1].line - 1)] else s
  }

  class AmxDebugManager {
    /** `_disableDebugInfo`. */
    var disabled: bool
    /** `_availableDebugInfo`, in its iteration order. */
    var available: seq<DebugEntry>
    /** `_amxDebugMap`. */
    var bound: map<AmxId, DebugInfo>

    /** Every bound AMX is bound to a loaded table. */
    predicate Valid()
      reads this
    {
      forall id :: id in bound ==> bound[id] in Tables(available)
    }

    /** The constructor: with DisableDebugInfo set in the global config
        nothing is loaded; with no gamemode listed it returns before the
        filterscripts are scanned; otherwise every gamemode file and then
        every filterscript file goes through InitDebugData. */
    constructor (disableDebugInfo: bool, gamemodeFiles: seq<Option<AmxFile>>, filterscriptFiles: seq<Option<AmxFile>>)
      ensures Valid()
      ensures disabled == disableDebugInfo && bound == map[]
      ensures available ==
        if disableDebugInfo || |gamemodeFiles| == 0 then []
        else LoadedEntries(gamemodeFiles + filterscriptFiles)
    {
      disabled := disableDebugInfo;
      available := [];
      bound := map[];
      new;
      if disableDebugInfo || |gamemodeFiles| == 0 {
        return;
      }
      var files := gamemodeFiles + filterscriptFiles;
      var i := 0;
      while i < |files|
        invariant 0 <= i <= |files|
        invariant available == LoadedEntries(files[..i])
        invariant Valid()
        invariant disabled == disableDebugInfo && bound == map[]
      {
        LoadedEntriesStep(files, i);
        var _ := InitDebugData(files[i]);
        i := i + 1;
      }
      assert files[..|files|] == files;
    }

    /** InitDebugData: false when the file cannot be opened or its debug
        information does not load; otherwise the (header, table) pair is
        stored. */
    method InitDebugData(file: Option<AmxFile>) returns (ok: bool)
      requires Valid()
      modifies this
      ensures Valid()
      ensures ok <==> file.Some? && file.value.load.Some?
      ensures available == old(available) + LoadedEntry(file)
      ensures disabled == old(disabled) && bound == old(bound)
    {
      if file.None? || file.value.load.None? {
        return false;
      }
      available := available + LoadedEntry(file);
      assert forall e :: e in old(available) ==> e in available;
      return true;
    }

    /** RegisterAmx: nothing changes when disabled or when the AMX is already
        bound (a binding is never replaced); otherwise the AMX is bound to the
        first stored table whose header equals its image header, or stays
        unbound when there is none. */
    method RegisterAmx(amx: Amx)
      requires Valid()
      modifies this
      ensures Valid()
      ensures disabled == old(disabled) && available == old(available)
      ensures old(disabled) || amx.id in old(bound) ==> bound == old(bound)
      ensures !old(disabled) && amx.id !in old(bound) ==>
        bound == match FirstMatch(available, amx.base)
          case None => old(bound)
          case Some(i) => old(bound)[amx.id := available[i].info]
    {
      if disabled {
        return;
      }
      if amx.id in bound {
        return;
      }
      var r := FindFirstMatch(available, amx.base);
      if r.Some? {
        bound := bound[amx.id := available[r.value].info];
      }
    }

    /** EraseAmx: removes the binding when enabled; does nothing when disabled. */
    method EraseAmx(amx: Amx)
      requires Valid()
      modifies this
      ensures Valid()
      ensures disabled == old(disabled) && available == old(available)
      ensures bound == if old(disabled) then old(bound) else old(bound) - {amx.id}
    {
      if disabled {
        return;
      }
      bound := bound - {amx.id};
    }

    /** GetFunctionCall: false when disabled or unbound, and false when the
        line search fails, leaving `dest` alone in those cases. After the line
        step `dest.line` is already written, so a failed file or function
        lookup returns false with `dest` partly overwritten: the field whose
        lookup failed is cleared by the debug-info library (a NULL name,
        which a `CallInfo` string cannot hold, so its value is left open),
        and the fields not yet reached keep their old values. */
    method GetFunctionCall(amx: AmxId, address: nat, dest: CallInfo) returns (ok: bool, dest': CallInfo)
      ensures disabled || amx !in bound ==> !ok && dest' == dest
      ensures ok <==> !disabled && amx in bound && Resolve(bound[amx], address).Some?
      ensures ok ==> dest' == Resolve(bound[amx], address).value
      ensures !disabled && amx in bound ==>
        var info := bound[amx];
        var n := LeadingCount(info.lines, address);
        (!(0 < n < |info.lines|) ==> dest' == dest) &&
        (0 < n < |info.lines| ==> dest'.line == info.lines[n - 1].line + 1) &&
        (0 < n < |info.lines| && address !in info.fileAt ==> dest'.func == dest.func) &&
        (0 < n < |info.lines| && address in info.fileAt ==> dest'.file == info.fileAt[address])
    {
      dest' := dest;
      if disabled {
        return false, dest';
      }
      if amx !in bound {
        return false, dest';
      }
      var info := bound[amx];
      var found, line := SearchLine(info.lines, address);
      if !found {
        return false, dest';
      }
      dest' := dest'.(line := line);
      if address !in info.fileAt {
        return false, dest';
      }
      dest' := dest'.(file := info.fileAt[address]);
      if address !in info.functionAt {
        return false, dest';
      }
      dest' := dest'.(func := info.functionAt[address]);
      return true, dest';
    }

    /** GetFunctionCallTrace as written: the guard after the disable check
        returns false for every bound AMX, and for an unbound one the first
        GetFunctionCall fails, so the trace never succeeds and `dest` is
        never touched. */
    method GetFunctionCallTraceAsWritten(amx: Amx, mem: map<int, int>, dest: seq<CallInfo>)
      returns (ok: bool, dest': seq<CallInfo>)
      ensures !ok && dest' == dest
    {
      if disabled {
        return false, dest;
      }
      if amx.id in bound {
        return false, dest;
      }
      var found, _ := GetFunctionCall(amx.id, amx.cip, UNKNOWN_CALL);
      // only an unbound AMX gets here, so the first lookup always fails
      // and the frame walk that follows it in the source is never reached
      assert !found;
      return false, dest;
    }

    /** The `while (true)` loop of GetFunctionCallTrace: it reads the return
        address after the saved frame pointer, stops on 0, pushes the
        resolved call or the unknown record, follows the saved frame pointer
        and stops on 0. `scratch` is the reused `call_info` variable. */
    method WalkFrames(amx: AmxId, mem: map<int, int>, frm0: int, fuel: nat, scratch: CallInfo)
      returns (frames: seq<CallInfo>)
      requires !disabled && amx in bound
      ensures frames == Frames(bound[amx], mem, frm0, fuel)
    {
      var info := bound[amx];
      var callInfo := scratch;
      frames := [];
      var frm := frm0;
      var left := fuel;
      while left > 0
        invariant frames + Frames(info, mem, frm, left) == Frames(info, mem, frm0, fuel)
        decreases left
      {
        var ret := ReadCell(mem, frm + CELL_SIZE);
        if ret == 0 {
          break;
        }
        var got;
        got, callInfo := GetFunctionCall(amx, Ucell(ret), callInfo);
        var frame := if got then callInfo else UNKNOWN_CALL;
        assert frame == FrameAt(info, Ucell(ret));
        var next := ReadCell(mem, frm);
        ghost var rest := if next == 0 then [] else Frames(info, mem, next, left - 1);
        FramesStep(info, mem, frm, left);
        assert frames + [frame] + rest == frames + ([frame] + rest);
        frames := frames + [frame];
        if next == 0 {
          break;
        }
        frm := next;
        left := left - 1;
      }
    }

    /** GetFunctionCallTrace with the guard reading `== end()`: frame 0
        comes from `cip`, the frames from the frame-pointer chain are
        appended to the existing `dest`, and with more than one record the
        last line is decremented. The source loop has no cap; `fuel` bounds
        the number of iterations. */
    method GetFunctionCallTrace(amx: Amx, mem: map<int, int>, dest: seq<CallInfo>, fuel: nat)
      returns (ok: bool, dest': seq<CallInfo>)
      ensures ok <==> !disabled && amx.id in bound && Resolve(bound[amx.id], amx.cip).Some?
      ensures !ok ==> dest' == dest
      ensures ok ==> dest' == DecrementLast(
        dest + [Resolve(bound[amx.id], amx.cip).value] + Frames(bound[amx.id], mem, amx.frm, fuel))
    {
      if disabled {
        return false, dest;
      }
      if amx.id !in bound {
        return false, dest;
      }
      var info := bound[amx.id];
      var found, callInfo := GetFunctionCall(amx.id, amx.cip, UNKNOWN_CALL);
      if !found {
        return false, dest;
      }
      var frames := WalkFrames(amx.id, mem, amx.frm, fuel, callInfo);
      return true, DecrementLast(dest + [callInfo] + frames);
    }
  }

  /** A successful trace keeps every record that was already in `dest` and
      appends one more than the frames walked; with an empty `dest` the
      `cip` frame is left as resolved. */
  lemma TraceKeepsExistingRecords(dest: seq<CallInfo>, first: CallInfo, frames: seq<CallInfo>)
    ensures var r := DecrementLast(dest + [first] + frames);
      |r| == |dest| + 1 + |frames| &&
      r[..|dest|] == dest &&
      (dest == [] ==> r[0] == first)
  {
    var s := dest + [first] + frames;
    if |s| > 1 {
      assert s[..|s| - 1][..|dest|] == dest;
    }
  }

  /** Appending to a non-empty `dest` with no frame to walk decrements the
      line of the `cip` frame itself, not of an older call. */
  lemma HackHitsCipFrameWhenAppending(dest: seq<CallInfo>, first: CallInfo)
    requires |dest| > 0
    ensures DecrementLast(dest + [first] + [])[|dest|] == first.(line := first.line - 1)
  {
  }
}
