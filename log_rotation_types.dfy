/** src/LogRotationManager.hpp: the rotation kinds, the rotation periods and
    the per-logger rotation settings. The source keeps the kind in `Type`
    and the kind's parameter in the union `Value`; here the two are one
    tagged value, so a parameter exists exactly for the kind that reads it. */
module LogRotationTypes {

  /** `unsigned int`. */
  type uint32 = x: int | 0 <= x < 0x1_0000_0000

  /** `int`. */
  type int32 = x: int | -0x8000_0000 <= x < 0x8000_0000

  datatype LogRotationType = NONE | DATE | SIZE

  datatype LogRotationTimeType = DAILY | WEEKLY | MONTHLY

  /** `Type` together with the member of `Value` that goes with it:
      `FileSize` (in kilobytes) for SIZE, `Date` for DATE, nothing for NONE. */
  datatype Rotation =
    | NoRotation
    | DateRotation(date: LogRotationTimeType)
    | SizeRotation(fileSizeKb: uint32)

  /** LogRotationConfig. */
  datatype LogRotationConfig = LogRotationConfig(rotation: Rotation, backupCount: int32)

  /** The `Type` field of a configuration. */
  function TypeOf(r: Rotation): (t: LogRotationType)
    ensures t == NONE <==> r.NoRotation?
    ensures t == DATE <==> r.DateRotation?
    ensures t == SIZE <==> r.SizeRotation?
  {
    match r
      case NoRotation => NONE
      case DateRotation(_) => DATE
      case SizeRotation(_) => SIZE
  }

  /** The default member initialisers: no rotation, ten backups. */
  function DefaultRotationConfig(): (c: LogRotationConfig)
    ensures TypeOf(c.rotation) == NONE
    ensures c.backupCount == 10
  {
    LogRotationConfig(NoRotation, 10)
  }
}
