/** The text layouts shared by src/LogManager.cpp and src/Logger.cpp: the
    call-chain suffix ` (file:line -> file:line)`, the module-file line, the
    aggregate-file line and the plain console line, plus the line the older
    g2log sink writes (src/CLogger.cpp). Timestamps arrive already rendered. */
module LogFormat {
  import opened Common
  import opened Numerals
  import opened LogLevels
  import opened Utils
  import opened AmxTypes

  /** One call-chain entry, `file:line`. */
  function CallEntry(ci: CallInfo): (s: string)
    ensures |s| > |ci.file| && s[..|ci.file| + 1] == ci.file + ":"
  {
    ci.file + ":" + SignedToBase(ci.line, 10)
  }

  /** The layout of an entry: the file name, then a ':' that is the last
      one, then the line in decimal, read back by its digits, with a '-' in
      front of a negative line. */
  lemma CallEntryLayout(ci: CallInfo)
    ensures var s := CallEntry(ci);
      |s| > |ci.file| + 1 && s[..|ci.file|] == ci.file &&
      s[|ci.file|] == ':' && (forall k :: |ci.file| < k < |s| ==> s[k] != ':')
    ensures var s := CallEntry(ci);
      ci.line >= 0 ==> AllDecimal(s[|ci.file| + 1..]) && DecimalValue(s[|ci.file| + 1..]) == ci.line
    ensures var s := CallEntry(ci);
      ci.line < 0 ==>
        s[|ci.file| + 1] == '-' && AllDecimal(s[|ci.file| + 2..]) && DecimalValue(s[|ci.file| + 2..]) == -ci.line
  {
    var text := SignedToBase(ci.line, 10);
    SignedDecimalText(ci.line);
    var entry := CallEntry(ci);
    assert entry[|ci.file| + 1..] == text;
    assert forall k :: |ci.file| < k < |entry| ==> entry[k] == text[k - |ci.file| - 1];
    assert ci.line < 0 ==> entry[|ci.file| + 2..] == text[1..];
  }

  /** A line rendered in decimal holds no ':' and reads back as the line. */
  lemma SignedDecimalText(v: int)
    ensures forall k :: 0 <= k < |SignedToBase(v, 10)| ==> SignedToBase(v, 10)[k] != ':'
    ensures v >= 0 ==> AllDecimal(SignedToBase(v, 10)) && DecimalValue(SignedToBase(v, 10)) == v
    ensures v < 0 ==> AllDecimal(SignedToBase(v, 10)[1..]) && DecimalValue(SignedToBase(v, 10)[1..]) == -v
  {
    var magnitude := if v < 0 then -v else v;
    var digits := Decimal(magnitude);
    DecimalRoundTrip(magnitude);
    Magnitude(v, 10);
    assert SignedToBase(v, 10) == if v < 0 then "-" + digits else digits;
  }

  /** An entry's file name cannot be a proper prefix of another's file
      name with the same entry text. */
  lemma FileIsBeforeLastColon(a: CallInfo, b: CallInfo)
    requires CallEntry(a) == CallEntry(b)
    ensures |a.file| >= |b.file|
  {
    CallEntryLayout(a);
    assert CallEntry(a)[|b.file|] == CallEntry(b)[..|b.file| + 1][|b.file|] == ':';
  }

  /** Frames at different positions give different entries: the file is
      what precedes the last ':' and the line is read back from the rest
      (the function name is not part of the entry). */
  lemma CallEntryInjective(a: CallInfo, b: CallInfo)
    requires CallEntry(a) == CallEntry(b)
    ensures a.file == b.file && a.line == b.line
  {
    var s := CallEntry(a);
    FileIsBeforeLastColon(a, b);
    FileIsBeforeLastColon(b, a);
    assert a.file == s[..|a.file|] == b.file;
    assert SignedToBase(a.line, 10) == s[|a.file| + 1..] == SignedToBase(b.line, 10);
    SignedToBaseInjective(a.line, b.line, 10);
  }

  /** The entries of a call chain, frame by frame. */
  function CallEntries(callInfo: seq<CallInfo>): (r: seq<string>)
    ensures |r| == |callInfo|
  {
    if |callInfo| == 0 then [] else CallEntries(callInfo[..|callInfo| - 1]) + [CallEntry(callInfo[|callInfo| - 1])]
  }

  /** Entry `i` is frame `i`'s `file:line`: one entry per frame, in order. */
  lemma {:induction false} CallEntriesAreFrames(callInfo: seq<CallInfo>, i: nat)
    requires i < |callInfo|
    ensures CallEntries(callInfo)[i] == CallEntry(callInfo[i])
  {
    var front := callInfo[..|callInfo| - 1];
    var entries := CallEntries(front);
    if i < |front| {
      CallEntriesAreFrames(front, i);
      assert front[i] == callInfo[i];
      assert CallEntries(callInfo)[i] == entries[i] by {
        assert CallEntries(callInfo) == entries + [CallEntry(callInfo[|callInfo| - 1])];
      }
    }
  }

  /** What `WriteCallInfoString` and `FormatLogMessage` append after the
      text: nothing without call information, otherwise the entries joined
      by " -> " inside " (" and ")". */
  function CallSuffix(callInfo: seq<CallInfo>): (s: string)
    ensures s == "" <==> |callInfo| == 0
    ensures |callInfo| > 0 ==> StartsWith(s, " (") && s[|s| - 1] == ')'
  {
    if |callInfo| == 0 then "" else " (" + Join(CallEntries(callInfo), " -> ") + ")"
  }

  /** A single frame gives ` (file:line)`. */
  lemma SingleFrameSuffix(ci: CallInfo)
    ensures CallSuffix([ci]) == " (" + ci.file + ":" + SignedToBase(ci.line, 10) + ")"
  {
    assert CallEntries([ci]) == [CallEntry(ci)];
  }

  /** One more frame inserts " -> file:line" before the closing parenthesis;
      this is what the writing loops rely on. */
  lemma CallSuffixSnoc(callInfo: seq<CallInfo>, ci: CallInfo)
    requires |callInfo| > 0
    ensures CallSuffix(callInfo + [ci]) ==
      " (" + (Join(CallEntries(callInfo), " -> ") + " -> " + CallEntry(ci)) + ")"
  {
    var xs := callInfo + [ci];
    assert xs[..|xs| - 1] == callInfo;
    assert CallEntries(xs) == CallEntries(callInfo) + [CallEntry(ci)];
    JoinSnoc(CallEntries(callInfo), CallEntry(ci), " -> ");
  }

  /** The chain text of the first `i` frames, as the writing loops have
      built it after `i` rounds. */
  function ChainOf(callInfo: seq<CallInfo>, i: nat): string
    requires i <= |callInfo|
  {
    if i == 0 then "" else Join(CallEntries(callInfo[..i]), " -> ")
  }

  /** One round of the writing loops: " -> " unless it is the first
      entry, then the entry. */
  lemma ChainStep(callInfo: seq<CallInfo>, i: nat, opening: string)
    requires i < |callInfo|
    ensures ChainOf(callInfo, i + 1) == ChainOf(callInfo, i) + (if i == 0 then "" else " -> ") + CallEntry(callInfo[i])
    ensures opening + ChainOf(callInfo, i + 1) == opening + ChainOf(callInfo, i) + (if i == 0 then "" else " -> ") + CallEntry(callInfo[i])
  {
    var sep, entry, chain := if i == 0 then "" else " -> ", CallEntry(callInfo[i]), ChainOf(callInfo, i);
    assert opening + (chain + sep + entry) == opening + chain + sep + entry;
    assert ChainOf(callInfo, i + 1) == ChainOf(callInfo, i) + sep + entry by {
      var pre, cur := callInfo[..i], callInfo[..i + 1];
      assert cur[..|cur| - 1] == pre && cur[|cur| - 1] == callInfo[i];
      var entries := CallEntries(pre);
      assert CallEntries(cur) == entries + [entry];
      if i > 0 {
        JoinSnoc(entries, entry, " -> ");
      } else {
        assert entries + [entry] == [entry];
      }
    }
  }

  /** After the last round the suffix is the chain inside " (" and ")". */
  lemma ChainComplete(callInfo: seq<CallInfo>, message: string)
    requires |callInfo| > 0
    ensures CallSuffix(callInfo) == " (" + ChainOf(callInfo, |callInfo|) + ")"
    ensures message + CallSuffix(callInfo) == message + " (" + ChainOf(callInfo, |callInfo|) + ")"
  {
    assert callInfo[..|callInfo|] == callInfo;
  }

  /** `"[" + a + "]"` followed by `rest`: every line is built from these. */
  function Field(a: string, rest: string): string
  {
    "[" + a + "]" + rest
  }

  /** `"[" ts "] [" LEVEL "] " text "\n"`: the module-file line of
      LogManager::Process and Logger::WriteLogString. */
  function ModuleLine(ts: string, level: Mask, text: string): string
  {
    Field(ts, " " + Field(GetLogLevelAsString(level), " " + text + "\n"))
  }

  /** `"[" ts "] [" module "] " text "\n"`: the aggregate-file line of
      LogManager::Process (the module takes the place of the level). */
  function AggregateLine(ts: string, logModule: string, text: string): string
  {
    Field(ts, " " + Field(logModule, " " + text + "\n"))
  }

  /** `"[ts] [module] [LEVEL] msg\n"`: the uncoloured console line of
      Logger::PrintLogString. */
  function ConsoleLine(ts: string, logModule: string, level: Mask, text: string): string
  {
    Field(ts, " " + Field(logModule, " " + Field(GetLogLevelAsString(level), " " + text + "\n")))
  }

  /** `"[ts] [level] message (file:line)\n"`: CLogSink::OnReceive. */
  function SinkLine(ts: string, levelName: string, text: string, file: string, line: int): string
  {
    Field(ts, " " + Field(levelName, " " + text + " (" + file + ":" + SignedToBase(line, 10) + ")\n"))
  }

  /** A field can be read back: it is everything up to the first ']'. */
  lemma FieldsSplit(a: string, x: string, b: string, y: string)
    requires ']' !in a && ']' !in b
    requires Field(a, x) == Field(b, y)
    ensures a == b && x == y
  {
    var s := Field(a, x);
    assert s[1..] == a + "]" + x;
    assert s[1..] == b + "]" + y;
    UpToPrefix(a, ']', x);
    UpToPrefix(b, ']', y);
    assert a == UpTo(s[1..], ']') == b;
    assert x == s[1..][|a| + 1..] == y;
  }

  /** The text between a leading blank and the final newline. */
  lemma TextSplit(t1: string, t2: string)
    requires " " + t1 + "\n" == " " + t2 + "\n"
    ensures t1 == t2
  {
    assert t1 == (" " + t1 + "\n")[1..|t1| + 1];
    assert t2 == (" " + t2 + "\n")[1..|t2| + 1];
  }

  /** A module-file line identifies its timestamp, level and text, for
      timestamps without ']' and named levels. */
  lemma ModuleLineInjective(ts1: string, l1: Mask, t1: string, ts2: string, l2: Mask, t2: string)
    requires ']' !in ts1 && ']' !in ts2
    requires IsNamedLevel(l1) && IsNamedLevel(l2)
    requires ModuleLine(ts1, l1, t1) == ModuleLine(ts2, l2, t2)
    ensures ts1 == ts2 && l1 == l2 && t1 == t2
  {
    var n1, n2 := GetLogLevelAsString(l1), GetLogLevelAsString(l2);
    var r1, r2 := Field(n1, " " + t1 + "\n"), Field(n2, " " + t2 + "\n");
    FieldsSplit(ts1, " " + r1, ts2, " " + r2);
    assert r1 == (" " + r1)[1..] == (" " + r2)[1..] == r2;
    FieldsSplit(n1, " " + t1 + "\n", n2, " " + t2 + "\n");
    LevelNamesIdentifyLevel(l1, l2);
    TextSplit(t1, t2);
  }

  /** An aggregate line identifies its timestamp, module and text, for
      timestamps and module names without ']'. */
  lemma AggregateLineInjective(ts1: string, m1: string, t1: string, ts2: string, m2: string, t2: string)
    requires ']' !in ts1 && ']' !in ts2 && ']' !in m1 && ']' !in m2
    requires AggregateLine(ts1, m1, t1) == AggregateLine(ts2, m2, t2)
    ensures ts1 == ts2 && m1 == m2 && t1 == t2
  {
    var r1, r2 := Field(m1, " " + t1 + "\n"), Field(m2, " " + t2 + "\n");
    FieldsSplit(ts1, " " + r1, ts2, " " + r2);
    assert r1 == (" " + r1)[1..] == (" " + r2)[1..] == r2;
    FieldsSplit(m1, " " + t1 + "\n", m2, " " + t2 + "\n");
    TextSplit(t1, t2);
  }
}
