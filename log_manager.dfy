/** src/LogManager.cpp: the writer side of the message queue. Messages are
    queued at the back and taken from the front; each one is written as a
    line to `logs/<module>.log`, a WARNING or ERROR also to the aggregate
    file, and the folders a module name implies are created the first time
    the module is seen. Files are a map from path to content, created
    folders a list of the names handed to `CreateFolder`, and the timestamp
    is rendered by a parameter (the time-format string and the clock
    reading in, the text out). */
module LogManagerModule {
  import opened Common
  import opened LogLevels
  import Utils
  import opened AmxTypes
  import opened LogFormat
  import opened MessageModule

  /** `GetLogLevelAsString` of this file: its own switch, which agrees with
      the one in src/utils.cpp on every level. */
  function GetLogLevelAsString(level: Mask): (name: string)
    ensures name == Utils.GetLogLevelAsString(level)
    ensures name == Utils.UNKNOWN_LEVEL <==> !IsNamedLevel(level)
  {
    if level == DEBUG then "DEBUG"
    else if level == INFO then "INFO"
    else if level == WARNING then "WARNING"
    else if level == ERROR then "ERROR"
    else if level == FATAL then "FATAL"
    else if level == VERBOSE then "VERBOSE"
    else "<unknown>"
  }

  /** WriteCallInfoString: appends the call-chain suffix to `logString`,
      entry by entry, with " -> " before every entry but the first. */
  method WriteCallInfoString(callInfo: seq<CallInfo>, logString: string) returns (out: string)
    ensures out == logString + CallSuffix(callInfo)
  {
    out := logString;
    if |callInfo| == 0 {
      return;
    }
    out := out + " (";
    ghost var opening := out;
    var first := true;
    var i := 0;
    while i < |callInfo|
      invariant 0 <= i <= |callInfo|
      invariant first <==> i == 0
      invariant out == opening + ChainOf(callInfo, i)
    {
      var entry := CallEntry(callInfo[i]);
      ghost var sep := if first then "" else " -> ";
      assert opening + ChainOf(callInfo, i + 1) == out + sep + entry by {
        ChainStep(callInfo, i, opening);
      }
      if !first {
        out := out + " -> ";
      }
      out := out + entry;
      first := false;
      i := i + 1;
    }
    assert logString + CallSuffix(callInfo) == out + ")" by {
      ChainComplete(callInfo, logString);
    }
    out := out + ")";
  }

  /** The characters `find_first_of("[]()")` looks for. */
  const BRACKETS: set<char> := {'[', ']', '(', ')'}

  /** `find_first_of(chars)` with npos mapped to the length. */
  function FirstOf(s: string, chars: set<char>): (r: nat)
    ensures r <= |s|
    ensures r < |s| ==> s[r] in chars
    ensures forall i :: 0 <= i < r ==> s[i] !in chars
  {
    if |s| == 0 then 0
    else if s[0] in chars then 0
    else 1 + FirstOf(s[1..], chars)
  }

  /** `s` with every bracket removed and everything else kept in order. */
  function StripBrackets(s: string): (r: string)
    ensures |r| <= |s|
    ensures forall i :: 0 <= i < |r| ==> r[i] !in BRACKETS
    ensures (forall i :: 0 <= i < |s| ==> s[i] !in BRACKETS) ==> r == s
  {
    if |s| == 0 then ""
    else if s[|s| - 1] in BRACKETS then StripBrackets(s[..|s| - 1])
    else StripBrackets(s[..|s| - 1]) + [s[|s| - 1]]
  }

  /** Stripping distributes over concatenation. */
  lemma {:induction false} StripBracketsAppend(a: string, b: string)
    ensures StripBrackets(a + b) == StripBrackets(a) + StripBrackets(b)
    decreases |b|
  {
    if |b| == 0 {
      assert a + b == a;
    } else {
      assert (a + b)[..|a + b| - 1] == a + b[..|b| - 1];
      StripBracketsAppend(a, b[..|b| - 1]);
    }
  }

  /** Stripping twice is stripping once. */
  lemma StripBracketsIdempotent(s: string)
    ensures StripBrackets(StripBrackets(s)) == StripBrackets(s)
  {
  }

  /** The bracket removal of the constructor: `find_first_of` then
      `erase(pos, 1)` until no bracket is left. */
  method RemoveBrackets(s: string) returns (r: string)
    ensures r == StripBrackets(s)
  {
    r := s;
    var pos := FirstOf(r, BRACKETS);
    while pos < |r|
      invariant pos == FirstOf(r, BRACKETS)
      invariant StripBrackets(r) == StripBrackets(s)
      decreases |r|
    {
      var before, after := r[..pos], r[pos + 1..];
      assert r == before + [r[pos]] + after;
      StripBracketsAppend(before + [r[pos]], after);
      StripBracketsAppend(before, [r[pos]]);
      StripBracketsAppend(before, after);
      assert StripBrackets([r[pos]]) == "" by {
        assert [r[pos]][..0] == [];
      }
      r := before + after;
      pos := FirstOf(r, BRACKETS);
    }
  }

  /** The timestamp format: "{:%x %X}" unless server.cfg sets
      `logtimeformat`, whose value then goes inside "{:" and "}" with every
      bracket removed. */
  method DateTimeFormat(cfgTimeFormat: Option<string>) returns (f: string)
    ensures cfgTimeFormat.None? ==> f == "{:%x %X}"
    ensures cfgTimeFormat.Some? ==> f == "{:" + StripBrackets(cfgTimeFormat.value) + "}"
  {
    f := "{:%x %X}";
    if cfgTimeFormat.Some? {
      var stripped := RemoveBrackets(cfgTimeFormat.value);
      f := "{:" + stripped + "}";
    }
  }

  /** `f` is "logs/" followed by the part of `name` before one of its '/'. */
  predicate IsSlashFolder(name: string, f: string)
  {
    5 <= |f| && f[..5] == "logs/" && |f| - 5 < |name| && name[|f| - 5] == '/' && f[5..] == name[..|f| - 5]
  }

  lemma SlashFoldersExtend(name: string, k: nat, fs: seq<string>)
    requires k <= |name|
    requires forall i :: 0 <= i < |fs| ==> IsSlashFolder(name[..k], fs[i])
    ensures forall i :: 0 <= i < |fs| ==> IsSlashFolder(name, fs[i])
  {
    forall i | 0 <= i < |fs|
      ensures IsSlashFolder(name, fs[i])
    {
      var f := fs[i];
      assert name[..k][..|f| - 5] == name[..|f| - 5];
      assert name[..k][|f| - 5] == name[|f| - 5];
    }
  }

  /** The folders created for a module name: "logs/" followed by the part
      of the name before each '/', shortest first. */
  function FolderPrefixes(name: string): (r: seq<string>)
    ensures |r| == 0 <==> '/' !in name
    ensures forall i :: 0 <= i < |r| ==> IsSlashFolder(name, r[i])
  {
    if |name| == 0 then []
    else
      var init := name[..|name| - 1];
      var rest := FolderPrefixes(init);
      SlashFoldersExtend(name, |name| - 1, rest);
      assert forall c :: c in init ==> c in name;
      if name[|name| - 1] == '/' then
        assert IsSlashFolder(name, "logs/" + init);
        rest + ["logs/" + init]
      else rest
  }

  /** Every '/' of the name gives its folder. */
  lemma {:induction false} FolderPrefixesComplete(name: string, p: nat)
    requires p < |name| && name[p] == '/'
    ensures "logs/" + name[..p] in FolderPrefixes(name)
    decreases |name|
  {
    var init := name[..|name| - 1];
    if p < |name| - 1 {
      assert init[p] == '/';
      FolderPrefixesComplete(init, p);
      assert init[..p] == name[..p];
    }
  }

  /** The folders are created parent first: each is longer than the one
      before. */
  lemma {:induction false} FolderPrefixesShortestFirst(name: string, i: nat, j: nat)
    requires i < j < |FolderPrefixes(name)|
    ensures |FolderPrefixes(name)[i]| < |FolderPrefixes(name)[j]|
    decreases |name|
  {
    var init := name[..|name| - 1];
    var rest := FolderPrefixes(init);
    if j < |rest| {
      FolderPrefixesShortestFirst(init, i, j);
    } else {
      assert IsSlashFolder(init, rest[i]);
    }
  }

  /** A stretch without '/' adds no folders. */
  lemma {:induction false} NoSlashAddsNoFolders(name: string, pos: nat, k: nat)
    requires pos <= k <= |name|
    requires forall i :: pos <= i < k ==> name[i] != '/'
    ensures FolderPrefixes(name[..k]) == FolderPrefixes(name[..pos])
    decreases k
  {
    if k > pos {
      assert name[..k][..k - 1] == name[..k - 1];
      NoSlashAddsNoFolders(name, pos, k - 1);
    }
  }

  /** A '/' at `k` adds the folder of the part before it. */
  lemma SlashAddsFolder(name: string, k: nat)
    requires k < |name| && name[k] == '/'
    ensures FolderPrefixes(name[..k + 1]) == FolderPrefixes(name[..k]) + ["logs/" + name[..k]]
  {
    assert name[..k + 1][..k] == name[..k];
  }

  /** The folder loop of `Process`: `find('/', pos)`, create the prefix,
      step past the '/'. */
  method CreateModuleFolders(name: string) returns (created: seq<string>)
    ensures created == FolderPrefixes(name)
  {
    created := [];
    var pos := 0;
    var next := pos + IndexOf(name[pos..], '/');
    while next < |name|
      invariant 0 <= pos <= next <= |name|
      invariant next == pos + IndexOf(name[pos..], '/')
      invariant created == FolderPrefixes(name[..pos])
      decreases |name| - pos
    {
      NoSlashAddsNoFolders(name, pos, next);
      SlashAddsFolder(name, next);
      created := created + ["logs/" + name[..next]];
      pos := next + 1;
      next := pos + IndexOf(name[pos..], '/');
    }
    NoSlashAddsNoFolders(name, pos, |name|);
    assert name[..|name|] == name;
  }

  const WARNINGS_LOG: string := "logs/warnings.log"
  const ERRORS_LOG: string := "logs/errors.log"

  /** The module file: "logs/" + module + ".log". */
  function ModuleLogPath(logModule: string): (p: string)
    ensures StartsWith(p, "logs/") && |p| == |logModule| + 9
  {
    "logs/" + logModule + ".log"
  }

  /** Different modules write to different files. */
  lemma ModuleLogPathInjective(a: string, b: string)
    requires ModuleLogPath(a) == ModuleLogPath(b)
    ensures a == b
  {
    assert a == ModuleLogPath(a)[5..|a| + 5];
    assert b == ModuleLogPath(b)[5..|b| + 5];
  }

  /** The only modules whose file is an aggregate file. */
  lemma AggregatePathsAreModulePaths(logModule: string)
    ensures ModuleLogPath(logModule) == WARNINGS_LOG <==> logModule == "warnings"
    ensures ModuleLogPath(logModule) == ERRORS_LOG <==> logModule == "errors"
  {
    if ModuleLogPath(logModule) == WARNINGS_LOG {
      ModuleLogPathInjective(logModule, "warnings");
    }
    if ModuleLogPath(logModule) == ERRORS_LOG {
      ModuleLogPathInjective(logModule, "errors");
    }
  }

  /** The aggregate file a level goes to, by exact equality: WARNING and
      ERROR only, never FATAL and never a combination of flags. */
  function AggregateFile(level: Mask): (r: Option<string>)
    ensures r.Some? <==> level == WARNING || level == ERROR
    ensures r == Some(WARNINGS_LOG) <==> level == WARNING
    ensures r == Some(ERRORS_LOG) <==> level == ERROR
  {
    if level == WARNING then Some(WARNINGS_LOG)
    else if level == ERROR then Some(ERRORS_LOG)
    else None
  }

  function Content(files: map<string, string>, path: string): string
  {
    if path in files then files[path] else ""
  }

  /** Appending a line to a file, creating it when missing. */
  function AppendTo(files: map<string, string>, path: string, line: string): (r: map<string, string>)
    ensures Content(r, path) == Content(files, path) + line
    ensures forall p :: p != path ==> Content(r, p) == Content(files, p)
    ensures r.Keys == files.Keys + {path}
  {
    files[path := Content(files, path) + line]
  }

  /** What the writer keeps and touches: the modules seen so far, the
      folders created and the files. */
  datatype Sinks = Sinks(hashed: set<string>, folders: seq<string>, files: map<string, string>)

  /** The body of the `Process` loop for one record, with its timestamp
      already rendered. The record's type is not looked at. */
  function Write(st: Sinks, m: Message, ts: string): (r: Sinks)
    ensures r.hashed == st.hashed + {m.logModule}
    ensures m.logModule in st.hashed ==> r.folders == st.folders
  {
    Sinks(st.hashed + {m.logModule}, FoldersAfter(st.hashed, st.folders, m.logModule), FilesAfter(st.files, m, ts))
  }

  /** The folders after a record of `logModule`: its prefixes are created
      only when the module has not been seen before. */
  function FoldersAfter(hashed: set<string>, folders: seq<string>, logModule: string): seq<string>
  {
    if logModule in hashed then folders else folders + FolderPrefixes(logModule)
  }

  /** The files after a record: its module line, then its aggregate line. */
  function FilesAfter(files: map<string, string>, m: Message, ts: string): map<string, string>
  {
    var text := m.text + CallSuffix(m.callInfo);
    var files' := AppendTo(files, ModuleLogPath(m.logModule), ModuleLine(ts, m.level, text));
    var aggregate := AggregateFile(m.level);
    if aggregate.Some? then AppendTo(files', aggregate.value, AggregateLine(ts, m.logModule, text)) else files'
  }

  /** Rendering of a clock reading with a format string. */
  type Render = (string, int) -> string

  /** The records of `msgs` written in queue order. */
  function WriteAll(st: Sinks, msgs: seq<Message>, format: string, render: Render): Sinks
  {
    if |msgs| == 0 then st
    else
      var last := msgs[|msgs| - 1];
      Write(WriteAll(st, msgs[..|msgs| - 1], format, render), last, render(format, last.timestamp))
  }

  /** Writing the first i + 1 records is writing the first i, then record i. */
  lemma WriteAllStep(st: Sinks, msgs: seq<Message>, i: nat, format: string, render: Render)
    requires i < |msgs|
    ensures WriteAll(st, msgs[..i + 1], format, render) ==
      Write(WriteAll(st, msgs[..i], format, render), msgs[i], render(format, msgs[i].timestamp))
  {
    assert msgs[..i + 1][..i] == msgs[..i];
  }

  /** A record appends its module line to its module file and its
      aggregate line to its level's aggregate file, and touches nothing else. */
  lemma WriteContent(st: Sinks, m: Message, ts: string, path: string)
    ensures Content(Write(st, m, ts).files, path) ==
      Content(st.files, path)
      + (if path == ModuleLogPath(m.logModule) then ModuleLine(ts, m.level, m.text + CallSuffix(m.callInfo)) else "")
      + (if AggregateFile(m.level) == Some(path) then AggregateLine(ts, m.logModule, m.text + CallSuffix(m.callInfo)) else "")
  {
    var text := m.text + CallSuffix(m.callInfo);
    var files := AppendTo(st.files, ModuleLogPath(m.logModule), ModuleLine(ts, m.level, text));
    assert Write(st, m, ts).files == FilesAfter(st.files, m, ts);
    if AggregateFile(m.level) == Some(path) {
      assert FilesAfter(st.files, m, ts) == AppendTo(files, path, AggregateLine(ts, m.logModule, text));
    } else if AggregateFile(m.level).Some? {
      assert FilesAfter(st.files, m, ts) == AppendTo(files, AggregateFile(m.level).value, AggregateLine(ts, m.logModule, text));
    } else {
      assert FilesAfter(st.files, m, ts) == files;
    }
  }

  /** What one record adds to its module's file. */
  function ModuleContribution(m: Message, logModule: string, ts: string): string
  {
    if m.logModule == logModule then ModuleLine(ts, m.level, m.text + CallSuffix(m.callInfo)) else ""
  }

  /** What one record adds to the aggregate file of `level`. */
  function AggregateContribution(m: Message, level: Mask, ts: string): string
  {
    if m.level == level then AggregateLine(ts, m.logModule, m.text + CallSuffix(m.callInfo)) else ""
  }

  /** The lines a module's own file receives from `msgs`, in queue order. */
  function ModuleLines(msgs: seq<Message>, logModule: string, format: string, render: Render): string
  {
    if |msgs| == 0 then ""
    else
      var last := msgs[|msgs| - 1];
      ModuleLines(msgs[..|msgs| - 1], logModule, format, render) +
        ModuleContribution(last, logModule, render(format, last.timestamp))
  }

  /** The lines an aggregate file receives from `msgs`, in queue order. */
  function AggregateLines(msgs: seq<Message>, level: Mask, format: string, render: Render): string
  {
    if |msgs| == 0 then ""
    else
      var last := msgs[|msgs| - 1];
      AggregateLines(msgs[..|msgs| - 1], level, format, render) +
        AggregateContribution(last, level, render(format, last.timestamp))
  }

  /** One record's effect on a module file other than the aggregate files,
      whose content so far is `base` followed by the lines `before`. */
  lemma ModuleFileStep(st: Sinks, m: Message, ts: string, logModule: string, base: string, before: string)
    requires logModule != "warnings" && logModule != "errors"
    requires Content(st.files, ModuleLogPath(logModule)) == base + before
    ensures Content(Write(st, m, ts).files, ModuleLogPath(logModule)) ==
      Content(st.files, ModuleLogPath(logModule)) + ModuleContribution(m, logModule, ts)
    ensures Content(Write(st, m, ts).files, ModuleLogPath(logModule)) == base + (before + ModuleContribution(m, logModule, ts))
  {
    var path, line := ModuleLogPath(logModule), ModuleContribution(m, logModule, ts);
    assert Content(Write(st, m, ts).files, path) == Content(st.files, path) + line by {
      AggregatePathsAreModulePaths(logModule);
      WriteContent(st, m, ts, path);
      if ModuleLogPath(m.logModule) == path {
        ModuleLogPathInjective(m.logModule, logModule);
      }
      assert AggregateFile(m.level) != Some(path);
    }
    assert base + before + line == base + (before + line);
  }

  /** One record's effect on the aggregate file of `level`. */
  lemma AggregateFileStep(st: Sinks, m: Message, ts: string, level: Mask, path: string)
    requires AggregateFile(level) == Some(path)
    requires ModuleLogPath(m.logModule) != path
    ensures Content(Write(st, m, ts).files, path) == Content(st.files, path) + AggregateContribution(m, level, ts)
  {
    WriteContent(st, m, ts, path);
    assert AggregateFile(m.level) == Some(path) <==> m.level == level;
  }

  /** First in, first out: a module file (other than the two aggregate
      files) receives exactly the lines of that module's records, in the
      order they were queued. */
  lemma {:induction false} ModuleFileInQueueOrder(st: Sinks, msgs: seq<Message>, logModule: string, format: string, render: Render)
    requires logModule != "warnings" && logModule != "errors"
    ensures Content(WriteAll(st, msgs, format, render).files, ModuleLogPath(logModule)) ==
      Content(st.files, ModuleLogPath(logModule)) + ModuleLines(msgs, logModule, format, render)
    decreases |msgs|
  {
    if |msgs| > 0 {
      var init, last := msgs[..|msgs| - 1], msgs[|msgs| - 1];
      var mid, ts := WriteAll(st, init, format, render), render(format, last.timestamp);
      var path := ModuleLogPath(logModule);
      ModuleFileInQueueOrder(st, init, logModule, format, render);
      var before := ModuleLines(init, logModule, format, render);
      ModuleFileStep(mid, last, ts, logModule, Content(st.files, path), before);
      assert WriteAll(st, msgs, format, render) == Write(mid, last, ts);
      assert ModuleLines(msgs, logModule, format, render) == before + ModuleContribution(last, logModule, ts);
    }
  }

  /** The aggregate file of WARNING (or ERROR) receives exactly the lines of
      the records with that level, in queue order, as long as no module is
      itself named after that file. */
  lemma {:induction false} AggregateFileInQueueOrder(st: Sinks, msgs: seq<Message>, level: Mask, path: string, format: string, render: Render)
    requires AggregateFile(level) == Some(path)
    requires forall i :: 0 <= i < |msgs| ==> ModuleLogPath(msgs[i].logModule) != path
    ensures Content(WriteAll(st, msgs, format, render).files, path) ==
      Content(st.files, path) + AggregateLines(msgs, level, format, render)
    decreases |msgs|
  {
    if |msgs| > 0 {
      var init, last := msgs[..|msgs| - 1], msgs[|msgs| - 1];
      AggregateFileInQueueOrder(st, init, level, path, format, render);
      AggregateFileStep(WriteAll(st, init, format, render), last, render(format, last.timestamp), level, path);
    }
  }

  /** Any other file is never written: FATAL, VERBOSE, INFO, DEBUG and
      combined levels have no aggregate file, and a record only touches its
      module file and its level's aggregate file. */
  lemma WriteTouchesOnlyItsFiles(st: Sinks, m: Message, ts: string, path: string)
    requires path != ModuleLogPath(m.logModule)
    requires AggregateFile(m.level) != Some(path)
    ensures Content(Write(st, m, ts).files, path) == Content(st.files, path)
  {
    WriteContent(st, m, ts, path);
  }

  /** A module's folders are created once: a second record of the same
      module creates none. */
  lemma FoldersCreatedOncePerModule(st: Sinks, m1: Message, ts1: string, m2: Message, ts2: string)
    requires m1.logModule == m2.logModule
    ensures Write(Write(st, m1, ts1), m2, ts2).folders == Write(st, m1, ts1).folders
    ensures m1.logModule !in st.hashed ==> Write(st, m1, ts1).folders == st.folders + FolderPrefixes(m1.logModule)
  {
  }

  class LogManager {
    /** `m_LogMsgQueue`. */
    var queue: seq<Message>
    /** `hashed_modules` of the writer loop. */
    var hashedModules: set<string>
    /** Names handed to `CreateFolder`, in order. */
    var folders: seq<string>
    var files: map<string, string>
    /** `m_DateTimeFormat`. */
    var dateTimeFormat: string
    /** `m_ThreadRunning`. */
    var running: bool

    function State(): Sinks
      reads this
    {
      Sinks(hashedModules, folders, files)
    }

    /** The constructor: the timestamp format, the "logs" folder, and the
        two aggregate files opened for writing, which empties them. */
    constructor (cfgTimeFormat: Option<string>, existing: map<string, string>)
      ensures cfgTimeFormat.None? ==> dateTimeFormat == "{:%x %X}"
      ensures cfgTimeFormat.Some? ==> dateTimeFormat == "{:" + StripBrackets(cfgTimeFormat.value) + "}"
      ensures folders == ["logs"]
      ensures files == existing[WARNINGS_LOG := ""][ERRORS_LOG := ""]
      ensures queue == [] && hashedModules == {} && running
    {
      var f := DateTimeFormat(cfgTimeFormat);
      dateTimeFormat := f;
      folders := ["logs"];
      files := existing[WARNINGS_LOG := ""][ERRORS_LOG := ""];
      queue := [];
      hashedModules := {};
      running := true;
    }

    /** QueueLogMessage: the record goes to the back of the queue. */
    method QueueLogMessage(m: Message)
      modifies this
      ensures queue == old(queue) + [m]
      ensures State() == old(State()) && dateTimeFormat == old(dateTimeFormat) && running == old(running)
    {
      queue := queue + [m];
    }

    /** One pass of the inner `Process` loop: the front record is taken
        off the queue and written. */
    method ProcessOne(render: Render)
      requires |queue| > 0
      modifies this
      ensures queue == old(queue)[1..]
      ensures State() == Write(old(State()), old(queue)[0], render(dateTimeFormat, old(queue)[0].timestamp))
      ensures dateTimeFormat == old(dateTimeFormat) && running == old(running)
    {
      var m := queue[0];
      queue := queue[1..];
      RegisterModule(m.logModule);
      WriteLines(m, render(dateTimeFormat, m.timestamp));
    }

    /** The first-sighting step of `Process`: the module's folders are
        created and the module remembered. */
    method RegisterModule(logModule: string)
      modifies this
      ensures hashedModules == old(hashedModules) + {logModule}
      ensures folders == FoldersAfter(old(hashedModules), old(folders), logModule)
      ensures files == old(files) && queue == old(queue)
      ensures dateTimeFormat == old(dateTimeFormat) && running == old(running)
    {
      if logModule !in hashedModules {
        var created := CreateModuleFolders(logModule);
        folders := folders + created;
        hashedModules := hashedModules + {logModule};
      }
    }

    /** The writing step of `Process`: the module line, then the aggregate
        line for WARNING and ERROR. */
    method WriteLines(m: Message, ts: string)
      modifies this
      ensures files == FilesAfter(old(files), m, ts)
      ensures hashedModules == old(hashedModules) && folders == old(folders) && queue == old(queue)
      ensures dateTimeFormat == old(dateTimeFormat) && running == old(running)
    {
      var logString := WriteCallInfoString(m.callInfo, m.text);
      files := AppendTo(files, ModuleLogPath(m.logModule), ModuleLine(ts, m.level, logString));
      var aggregate := AggregateFile(m.level);
      if aggregate.Some? {
        files := AppendTo(files, aggregate.value, AggregateLine(ts, m.logModule, logString));
      }
    }

    /** The inner `while (!m_LogMsgQueue.empty())` loop: every queued record
        is written, front first. */
    method Drain(render: Render)
      modifies this
      ensures queue == []
      ensures State() == WriteAll(old(State()), old(queue), dateTimeFormat, render)
      ensures dateTimeFormat == old(dateTimeFormat) && running == old(running)
    {
      ghost var q0 := queue;
      ghost var i := 0;
      while |queue| > 0
        invariant 0 <= i <= |q0| && queue == q0[i..]
        invariant State() == WriteAll(old(State()), q0[..i], dateTimeFormat, render)
        invariant dateTimeFormat == old(dateTimeFormat) && running == old(running)
        decreases |queue|
      {
        assert q0[i] == queue[0];
        WriteAllStep(old(State()), q0, i, dateTimeFormat, render);
        ProcessOne(render);
        i := i + 1;
      }
      assert q0[..i] == q0;
    }

    /** Shutdown: the flag is cleared and the writer, woken once more,
        writes everything still queued before it looks at the flag. */
    method Shutdown(render: Render)
      modifies this
      ensures !running && queue == []
      ensures State() == WriteAll(old(State()), old(queue), dateTimeFormat, render)
    {
      running := false;
      Drain(render);
    }
  }
}
