/** src/Api.cpp: the exported entry points. A global reference counter
    tracks the API objects handed out; the first request initialises the
    log configuration and the log manager, and releasing the last object
    tears the singletons down in a fixed order. API objects are modelled as
    handles; the singletons' own work is recorded as events, in order. */
module ApiModule {
  import opened Common
  import opened Numerals
  import opened AmxTypes
  import opened AmxDebugManagerModule

  /** What the entry points do to the singletons. */
  datatype Event =
    | InitLogConfig
    | InitLogManager
    | LogInternalError(text: string)
    | DestroyLogRotation
    | DestroySampConfig
    | DestroyLogConfig
    | DestroyLogManager

  /** The only interface version there is. */
  const API_VERSION: int := 1

  /** The order in which the singletons go once the counter is back at 0. */
  const TEARDOWN: seq<Event> := [DestroyLogRotation, DestroySampConfig, DestroyLogConfig, DestroyLogManager]

  /** `"unknown api version '{:d}'"` for `version`. */
  function UnknownVersionText(version: int): (s: string)
    ensures StartsWith(s, "unknown api version '") && s[|s| - 1] == '\''
  {
    "unknown api version '" + SignedToBase(version, 10) + "'"
  }

  /** Different versions are reported with different texts. */
  lemma UnknownVersionTextInjective(u: int, v: int)
    requires UnknownVersionText(u) == UnknownVersionText(v)
    ensures u == v
  {
    var p := "unknown api version '";
    var su, sv := SignedToBase(u, 10), SignedToBase(v, 10);
    assert |su| == |UnknownVersionText(u)| - |p| - 1 == |sv|;
    assert su == UnknownVersionText(u)[|p|..|p| + |su|];
    assert sv == UnknownVersionText(v)[|p|..|p| + |sv|];
    SignedToBaseInjective(u, v, 10);
  }

  class ApiState {
    /** `RefCounter`. */
    var refCounter: nat
    /** The API objects handed out and not yet destroyed. */
    var live: set<nat>
    /** The handle the next `new Api` gets. */
    var nextHandle: nat
    /** What the entry points did to the singletons so far. */
    var events: seq<Event>

    /** The counter counts the live API objects. */
    predicate Valid()
      reads this
    {
      && refCounter == |live|
      && forall h :: h in live ==> h < nextHandle
    }

    /** The library as loaded: no API object, nothing initialised. */
    constructor ()
      ensures Valid() && refCounter == 0 && live == {} && events == []
    {
      refCounter := 0;
      live := {};
      nextHandle := 0;
      events := [];
    }

    /** samplog_GetApi: with the counter at 0 the configuration and the
        manager are initialised first, whatever the version. Version 1
        yields a new object and one more reference; any other version logs
        an error and yields null with the counter unchanged. */
    method GetApi(version: int) returns (api: Option<nat>)
      requires Valid()
      modifies this
      ensures Valid()
      ensures var init := if old(refCounter) == 0 then [InitLogConfig, InitLogManager] else [];
        if version == API_VERSION then
          && api == Some(old(nextHandle))
          && api.value !in old(live)
          && live == old(live) + {api.value}
          && refCounter == old(refCounter) + 1
          && events == old(events) + init
        else
          && api.None?
          && live == old(live) && refCounter == old(refCounter)
          && events == old(events) + init + [LogInternalError(UnknownVersionText(version))]
    {
      if refCounter == 0 {
        events := events + [InitLogConfig, InitLogManager];
      }
      if version != API_VERSION {
        events := events + [LogInternalError(UnknownVersionText(version))];
        return None;
      }
      var h := nextHandle;
      assert h !in live;
      nextHandle := nextHandle + 1;
      live := live + {h};
      refCounter := refCounter + 1;
      api := Some(h);
    }

    /** samplog_DestroyApi: null does nothing. Otherwise the object is
        deleted and the counter drops by one; when that was the last object
        the singletons are torn down, rotation first and manager last. */
    method DestroyApi(api: Option<nat>)
      requires Valid()
      requires api.Some? ==> api.value in live
      modifies this
      ensures Valid()
      ensures api.None? ==> live == old(live) && refCounter == old(refCounter) && events == old(events)
      ensures api.Some? ==>
        && live == old(live) - {api.value}
        && refCounter == old(refCounter) - 1
        && events == old(events) + (if live == {} then TEARDOWN else [])
      ensures nextHandle == old(nextHandle)
    {
      if api.None? {
        return;
      }
      assert live == (live - {api.value}) + {api.value};
      live := live - {api.value};
      refCounter := refCounter - 1;
      if refCounter == 0 {
        events := events + TEARDOWN;
      }
    }
  }

  /** Api::CreateLogger: null for every module name containing "log-core";
      otherwise a logger for the module. The result is the module name the
      new logger gets. */
  function CreateLogger(logModule: string): (r: Option<string>)
    ensures r.None? <==> Contains(logModule, "log-core")
    ensures r.Some? ==> r.value == logModule
  {
    if Contains(logModule, "log-core") then None else Some(logModule)
  }

  /** No plugin can obtain a logger under log-core's own module name, nor
      under any name inside which it appears. */
  lemma LogCoreIsReserved(prefix: string, suffix: string)
    ensures CreateLogger(prefix + "log-core" + suffix).None?
  {
    var s := prefix + "log-core" + suffix;
    assert s[|prefix|..|prefix| + 8] == "log-core";
    assert OccursAt(s, "log-core", |prefix|);
  }

  /** Api::GetLastAmxFunctionCall: the call at the current instruction. */
  method GetLastAmxFunctionCall(manager: AmxDebugManager, amx: Amx, dest: CallInfo) returns (ok: bool, dest': CallInfo)
    ensures ok <==> !manager.disabled && amx.id in manager.bound && Resolve(manager.bound[amx.id], amx.cip).Some?
    ensures ok ==> dest' == Resolve(manager.bound[amx.id], amx.cip).value
    ensures manager.disabled || amx.id !in manager.bound ==> dest' == dest
    ensures !manager.disabled && amx.id in manager.bound ==>
      var info := manager.bound[amx.id];
      var n := LeadingCount(info.lines, amx.cip);
      (!(0 < n < |info.lines|) ==> dest' == dest) &&
      (0 < n < |info.lines| ==> dest'.line == info.lines[n - 1].line + 1) &&
      (0 < n < |info.lines| && amx.cip !in info.fileAt ==> dest'.func == dest.func) &&
      (0 < n < |info.lines| && amx.cip in info.fileAt ==> dest'.file == info.fileAt[amx.cip])
  {
    ok, dest' := manager.GetFunctionCall(amx.id, amx.cip, dest);
  }

  /** Api::GetAmxFunctionCallTrace: false when the manager's trace fails,
      otherwise whether `dest` is non-empty. A successful trace always
      holds the frame of the current instruction, so the emptiness test
      never turns a success into a failure. */
  method GetAmxFunctionCallTrace(manager: AmxDebugManager, amx: Amx, mem: map<int, int>, dest: seq<CallInfo>, fuel: nat)
    returns (ok: bool, dest': seq<CallInfo>)
    ensures ok <==> !manager.disabled && amx.id in manager.bound && Resolve(manager.bound[amx.id], amx.cip).Some?
    ensures !ok ==> dest' == dest
    ensures ok ==> |dest'| > |dest| && dest'[..|dest|] == dest
    ensures ok ==> dest' == DecrementLast(
      dest + [Resolve(manager.bound[amx.id], amx.cip).value] + Frames(manager.bound[amx.id], mem, amx.frm, fuel))
  {
    var traced;
    traced, dest' := manager.GetFunctionCallTrace(amx, mem, dest, fuel);
    if !traced {
      return false, dest';
    }
    var info := manager.bound[amx.id];
    TraceKeepsExistingRecords(dest, Resolve(info, amx.cip).value, Frames(info, mem, amx.frm, fuel));
    ok := |dest'| != 0;
  }
}
