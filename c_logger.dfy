/** src/CLogger.cpp: the older logger built on the bundled g2log worker. A
    `CLogSink` appends one line per received message to its file; a
    `CLogger` keeps a severity mask that can only grow and hands every
    message either to the fatal path or to the worker's `save`. The worker
    thread itself is not modelled: the two message lists are what the
    logger handed over, in order. */
module CLoggerModule {
  import opened LogLevels
  import G2 = G2LogLevels
  import opened LogFormat
  import Numerals

  /** The fields of a `g2::LogMessage` that the logger fills in. */
  datatype G2Message = G2Message(file: string, line: int, func: string, level: Mask, text: string)

  /** The sink line names the level: two messages logged with different
      levels, one of them named, never give the same line, whatever their
      texts and source positions. */
  lemma SinkLineShowsLevel(ts: string, a: Mask, b: Mask, t1: string, f1: string, l1: int, t2: string, f2: string, l2: int)
    requires ']' !in ts
    requires G2.GetLevelName(a) != "" && a != b
    ensures SinkLine(ts, G2.GetLevelName(a), t1, f1, l1) != SinkLine(ts, G2.GetLevelName(b), t2, f2, l2)
  {
    var na, nb := G2.GetLevelName(a), G2.GetLevelName(b);
    G2.LevelNamesDistinct(a, b);
    var ra := Field(na, " " + t1 + " (" + f1 + ":" + Numerals.SignedToBase(l1, 10) + ")\n");
    var rb := Field(nb, " " + t2 + " (" + f2 + ":" + Numerals.SignedToBase(l2, 10) + ")\n");
    if SinkLine(ts, na, t1, f1, l1) == SinkLine(ts, nb, t2, f2, l2) {
      FieldsSplit(ts, " " + ra, ts, " " + rb);
      assert ra == (" " + ra)[1..] == (" " + rb)[1..] == rb;
      FieldsSplit(na, " " + t1 + " (" + f1 + ":" + Numerals.SignedToBase(l1, 10) + ")\n",
                  nb, " " + t2 + " (" + f2 + ":" + Numerals.SignedToBase(l2, 10) + ")\n");
    }
  }

  class CLogSink {
    /** The file name the `ofstream` was opened with. */
    const path: string
    /** What the stream has written to the file. */
    var content: string

    /** The stream is opened for output, which empties the file. */
    constructor (filename: string)
      ensures path == filename && content == ""
    {
      path := filename;
      content := "";
    }

    /** OnReceive: `"[ts] [LEVEL] message (file:line)\n"` is appended; the
        timestamp arrives already rendered. */
    method OnReceive(ts: string, m: G2Message)
      modifies this
      ensures content == old(content) + SinkLine(ts, G2.GetLevelName(m.level), m.text, m.file, m.line)
    {
      content := content + SinkLine(ts, G2.GetLevelName(m.level), m.text, m.file, m.line);
    }
  }

  class CLogger {
    /** The sink added to the worker, writing `logs/<filename>.log`. */
    const sink: CLogSink
    /** `m_LogLevel`. */
    var logLevel: Mask
    /** Messages handed to `m_LogWorker->save`, in order. */
    var saved: seq<G2Message>
    /** Messages handed to `g2::internal::fatalCall` with SIGABRT. */
    var fatal: seq<G2Message>

    /** The constructor adds a sink for `"logs/" + filename + ".log"`. The
        atomic `m_LogLevel` is not initialised there, so its first value is
        a parameter. */
    constructor (filename: string, initialLevel: Mask)
      ensures fresh(sink) && sink.path == "logs/" + filename + ".log" && sink.content == ""
      ensures logLevel == initialLevel && saved == [] && fatal == []
    {
      sink := new CLogSink("logs/" + filename + ".log");
      logLevel := initialLevel;
      saved := [];
      fatal := [];
    }

    /** SetLogLevel: the level is OR-ed in whatever `enabled` says, so a
        level is never switched off; no other bit changes. */
    method SetLogLevel(level: Mask, enabled: bool)
      modifies this
      ensures G2.LogLevel(logLevel, level)
      ensures old(logLevel) <= logLevel
      ensures forall b :: b in logLevel ==> b in old(logLevel) || b in level
      ensures saved == old(saved) && fatal == old(fatal)
    {
      var current := logLevel;
      current := G2.SetLogLevel(current, level);
      G2.LogLevelIsSubset(current, logLevel);
      logLevel := current;
    }

    /** LogLevel: true exactly when every bit of `level` is set. */
    method LogLevel(level: Mask) returns (r: bool)
      ensures r <==> level <= logLevel
    {
      var current := logLevel;
      r := G2.LogLevel(current, level);
      G2.LogLevelIsSubset(current, level);
    }

    /** Log: the message is built from its arguments; a level carrying the
        FATAL bit goes to the fatal path, every other level to `save`. */
    method Log(msg: string, level: Mask, line: int, file: string, func: string)
      modifies this
      ensures var m := G2Message(file, line, func, level, msg);
        if 4 in level then fatal == old(fatal) + [m] && saved == old(saved)
        else saved == old(saved) + [m] && fatal == old(fatal)
      ensures logLevel == old(logLevel)
    {
      var message := G2Message(file, line, func, level, msg);
      G2.LogLevelIsSubset(level, FATAL);
      if G2.WasFatal(level) {
        fatal := fatal + [message];
      } else {
        saved := saved + [message];
      }
    }
  }
}
