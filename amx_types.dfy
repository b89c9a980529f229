/** The pieces of the AMX virtual machine the debug managers see: the image
    header an instance is identified by, the debug table loaded from an .amx
    file, the data segment as a cell-addressed memory and the call record
    handed to loggers (samplog::AmxFuncCallInfo). */
module AmxTypes {
  import opened Common

  type byte = bv8

  /** sizeof(AMX_HEADER): the number of leading image bytes compared. */
  const HEADER_SIZE: nat := 56

  /** sizeof(cell): cells are 32-bit. */
  const CELL_SIZE: int := 4

  /** Number of values of a 32-bit unsigned cell (ucell). */
  const UCELL_RANGE: int := 0x1_0000_0000

  /** A header as read from an .amx file: exactly sizeof(AMX_HEADER) bytes. */
  type Header = h: seq<byte> | |h| == HEADER_SIZE witness seq(HEADER_SIZE, _ => 0)

  /** A loaded VM image; it always begins with its header. */
  type Image = s: seq<byte> | |s| >= HEADER_SIZE witness seq(HEADER_SIZE, _ => 0)

  /** Identity of a live AMX instance (the `AMX*` the registry is keyed by). */
  type AmxId = nat

  /** The fields of a live AMX the managers read. Pointers are integer
      addresses; `dataPtr == 0` is a null `amx->data`. */
  datatype Amx = Amx(
    id: AmxId,
    base: Image,
    baseAddr: int,
    hdrDat: int,
    dataPtr: int,
    cip: nat,
    frm: int,
    stk: int)

  /** One AMX_DBG_LINE: code address and 0-based source line. */
  datatype LineEntry = LineEntry(address: nat, line: int)

  /** A loaded AMX_DBG. `lines` is the line table (its length is the
      distance from `linetbl` to `symboltbl[0]`); the three maps stand for
      the foreign lookups dbg_LookupFile, dbg_LookupFunction and
      dbg_LookupLine, an address outside a map being their error return. */
  datatype DebugInfo = DebugInfo(
    lines: seq<LineEntry>,
    fileAt: map<nat, string>,
    functionAt: map<nat, string>,
    lineAt: map<nat, int>)

  /** An element of the available-debug-info container: header and table. */
  datatype DebugEntry = DebugEntry(header: Header, info: DebugInfo)

  /** What opening an .amx file and running dbg_LoadInfo on it gives: the
      header bytes read, and the table when loading succeeded. */
  datatype AmxFile = AmxFile(header: Header, load: Option<DebugInfo>)

  /** samplog::AmxFuncCallInfo. */
  datatype CallInfo = CallInfo(line: int, file: string, func: string)

  /** The record pushed for a frame whose address does not resolve. */
  const UNKNOWN_CALL: CallInfo := CallInfo(0, "<unknown>", "<unknown>")

  /** `memcmp(header, image, sizeof(AMX_HEADER)) == 0`. */
  predicate HeaderMatches(header: Header, image: Image)
  {
    image[..HEADER_SIZE] == header
  }

  /** Index of the first entry whose header matches the image, in the
      container's iteration order. */
  function FirstMatch(available: seq<DebugEntry>, image: Image): (r: Option<nat>)
    ensures r.Some? ==> r.value < |available| && HeaderMatches(available[r.value].header, image)
    ensures r.Some? ==> forall j :: 0 <= j < r.value ==> !HeaderMatches(available[j].header, image)
    ensures r.None? ==> forall j :: 0 <= j < |available| ==> !HeaderMatches(available[j].header, image)
  {
    if |available| == 0 then None
    else if HeaderMatches(available[0].header, image) then Some(0)
    else match FirstMatch(available[1..], image)
      case None => None
      case Some(k) => Some(k + 1)
  }

  /** The `for (auto &d : available) if (memcmp(...) == 0) { ...; break; }`
      scan shared by every revision's RegisterAmx. */
  method FindFirstMatch(available: seq<DebugEntry>, image: Image) returns (r: Option<nat>)
    ensures r == FirstMatch(available, image)
  {
    var i := 0;
    while i < |available|
      invariant 0 <= i <= |available|
      invariant forall j :: 0 <= j < i ==> !HeaderMatches(available[j].header, image)
    {
      if available[i].header == image[..HEADER_SIZE] {
        FirstMatchIsFirst(available, image, i);
        return Some(i);
      }
      i := i + 1;
    }
    FirstMatchIsFirst(available, image, |available|);
    return None;
  }

  /** FirstMatch is determined by where the first matching header sits. */
  lemma {:induction false} FirstMatchIsFirst(available: seq<DebugEntry>, image: Image, i: nat)
    requires i <= |available|
    requires forall j :: 0 <= j < i ==> !HeaderMatches(available[j].header, image)
    requires i < |available| ==> HeaderMatches(available[i].header, image)
    ensures FirstMatch(available, image) == if i < |available| then Some(i) else None
    decreases i
  {
    if i > 0 {
      FirstMatchIsFirst(available[1..], image, i - 1);
    }
  }

  /** The tables of the entries in a container. */
  function Tables(available: seq<DebugEntry>): (r: set<DebugInfo>)
    ensures forall i :: 0 <= i < |available| ==> available[i].info in r
  {
    set e | e in available :: e.info
  }

  /** What InitDebugData stores for one file: an entry when the file opened
      and its debug information loaded. */
  function LoadedEntry(file: Option<AmxFile>): (r: seq<DebugEntry>)
    ensures |r| == 1 <==> file.Some? && file.value.load.Some?
    ensures |r| == 1 ==> r[0] == DebugEntry(file.value.header, file.value.load.value)
    ensures |r| <= 1
  {
    match file
      case Some(AmxFile(h, Some(info))) => [DebugEntry(h, info)]
      case _ => []
  }

  /** The entries InitDebugData stores for a sequence of files, in order. */
  function LoadedEntries(files: seq<Option<AmxFile>>): (r: seq<DebugEntry>)
    ensures |r| <= |files|
  {
    if |files| == 0 then []
    else LoadedEntries(files[..|files| - 1]) + LoadedEntry(files[|files| - 1])
  }

  /** Loading one more file appends that file's entry, if any. */
  lemma LoadedEntriesStep(files: seq<Option<AmxFile>>, i: nat)
    requires i < |files|
    ensures LoadedEntries(files[..i + 1]) == LoadedEntries(files[..i]) + LoadedEntry(files[i])
  {
    assert files[..i + 1][..i] == files[..i];
  }

  /** When every file opens and loads, entry `i` is file `i`'s header and
      table: nothing is skipped and the order is kept. */
  lemma {:induction false} AllLoadedKeepsOrder(files: seq<Option<AmxFile>>, i: nat)
    requires forall j :: 0 <= j < |files| ==> files[j].Some? && files[j].value.load.Some?
    requires i < |files|
    ensures |LoadedEntries(files)| == |files|
    ensures LoadedEntries(files)[i] == DebugEntry(files[i].value.header, files[i].value.load.value)
  {
    var front := files[..|files| - 1];
    if |front| > 0 {
      AllLoadedKeepsOrder(front, if i < |front| then i else 0);
    }
  }

  /** Files that never open store nothing. */
  lemma {:induction false} NoneOpenedStoresNothing(files: seq<Option<AmxFile>>)
    requires forall j :: 0 <= j < |files| ==> files[j].None?
    ensures LoadedEntries(files) == []
  {
    if |files| > 0 {
      NoneOpenedStoresNothing(files[..|files| - 1]);
    }
  }

  /** A data-segment read; memory the model does not map reads as 0. */
  function ReadCell(mem: map<int, int>, addr: int): int
  {
    if addr in mem then mem[addr] else 0
  }

  /** A cell passed where a ucell is expected: two's complement reinterpretation. */
  function Ucell(v: int): (u: nat)
    ensures u < UCELL_RANGE
    ensures 0 <= v < UCELL_RANGE ==> u == v
    ensures -UCELL_RANGE <= v < 0 ==> u == v + UCELL_RANGE
  {
    v % UCELL_RANGE
  }
}
