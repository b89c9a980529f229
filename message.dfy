/** src/Message.hpp: the record LogManager queues. Every field is const in
    the source, so a record is a value here; the time point is an abstract
    clock reading. */
module MessageModule {
  import opened LogLevels
  import opened AmxTypes

  datatype MessageType = MESSAGE | ACTION_CLEAR

  datatype Message = Message(
    kind: MessageType,
    text: string,
    timestamp: int,
    callInfo: seq<CallInfo>,
    level: Mask,
    logModule: string)

  /** A default-constructed `time_point`: the clock's epoch. */
  const EPOCH: int := 0

  /** The message constructor: type MESSAGE, stamped with the clock reading
      `now`, carrying the given module, level, text and call information. */
  function NewMessage(logModule: string, level: Mask, msg: string, info: seq<CallInfo>, now: int): (m: Message)
    ensures m.kind == MESSAGE && m.timestamp == now
    ensures m.logModule == logModule && m.level == level && m.text == msg && m.callInfo == info
  {
    Message(MESSAGE, msg, now, info, level, logModule)
  }

  /** The action constructor: module and type only; the level is NONE, the
      text and call information are empty and the time point is the epoch. */
  function NewAction(logModule: string, action: MessageType): (m: Message)
    ensures m.kind == action && m.logModule == logModule
    ensures m.level == NONE && m.text == "" && m.callInfo == [] && m.timestamp == EPOCH
  {
    Message(action, "", EPOCH, [], NONE, logModule)
  }

  /** A record built by either constructor gives back what it was built
      from: two records are equal only if their arguments were. */
  lemma NewMessageDeterminesArguments(m1: string, l1: Mask, t1: string, i1: seq<CallInfo>, n1: int,
                                      m2: string, l2: Mask, t2: string, i2: seq<CallInfo>, n2: int)
    requires NewMessage(m1, l1, t1, i1, n1) == NewMessage(m2, l2, t2, i2, n2)
    ensures m1 == m2 && l1 == l2 && t1 == t2 && i1 == i2 && n1 == n2
  {
  }

  /** A message record and a clear action are never the same record, even
      for empty text at the epoch: they differ in their type. */
  lemma MessageIsNoAction(logModule: string, level: Mask, msg: string, info: seq<CallInfo>, now: int)
    ensures NewMessage(logModule, level, msg, info, now) != NewAction(logModule, ACTION_CLEAR)
  {
  }
}
