/**
 * The java.time values the inbox code stores and compares, at whole-second precision (nanoseconds
 * are not modelled). Calendar fields are not needed: a LocalDate is identified by its day count.
 */
module JavaTime {

  const SECONDS_PER_DAY: int := 86400

  /** java.time.LocalDate, as the number of days since 1970-01-01. */
  datatype LocalDate = LocalDate(epochDay: int)

  /** java.time.OffsetDateTime: an instant (seconds since the epoch) and its zone offset. */
  datatype OffsetDateTime = OffsetDateTime(epochSecond: int, offsetSeconds: int)

  /** java.time.LocalDateTime, as seconds since 1970-01-01T00:00 on the local clock. */
  datatype LocalDateTime = LocalDateTime(localSecond: int)

  /** The local date a local second falls on (floor division, as java.time computes it). */
  function DayOf(localSecond: int): (d: LocalDate)
    ensures d.epochDay * SECONDS_PER_DAY <= localSecond < (d.epochDay + 1) * SECONDS_PER_DAY
  {
    LocalDate(localSecond / SECONDS_PER_DAY)
  }

  /** OffsetDateTime.toLocalDate: the date on the clock of the value's own offset. */
  function OffsetDateTimeDate(t: OffsetDateTime): LocalDate
  {
    DayOf(t.epochSecond + t.offsetSeconds)
  }

  /** LocalDateTime.toLocalDate. */
  function LocalDateTimeDate(t: LocalDateTime): LocalDate
  {
    DayOf(t.localSecond)
  }

  /** Duration.between(from, to).getSeconds(): whole seconds from one instant to the other. */
  function SecondsBetween(from: OffsetDateTime, to: OffsetDateTime): int
  {
    to.epochSecond - from.epochSecond
  }
}
