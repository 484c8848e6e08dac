/**
 * The persistence adapter's read path: recipient rows (with their message) become inbox items,
 * and the items are wrapped in a paginated or an unpaginated PagedResult. The repository queries
 * are inputs: their rows, their total count, or their failure. The clock and the dd/MM/yyyy
 * formatter are parameters.
 */
module InboxPersistence {
  import opened Wrappers
  import opened JavaInts
  import opened JavaTime
  import opened Errors
  import opened Pagination
  import opened InboxItems
  import opened DetailDtos

  /** The Panache page the use case receives: an index and a size, both ints. */
  datatype Page = Page(index: Int32, size: Int32)

  /** The size of a Java list. */
  type ListSize = n: nat | n <= INT_MAX

  /** The message a recipient row joins to, with the fields mapToDomain reads (the attachment list by its size). */
  datatype MessageRow = MessageRow(
    idMessage: Option<Int64>,
    senderId: Option<Int32>,
    asunto: Option<string>,
    createAt: Option<OffsetDateTime>,
    attachmentCount: Option<ListSize>)

  /** A MessageRecipientEntity as the repository returns it: its read flag and its message. */
  datatype RecipientRow = RecipientRow(isRead: Option<string>, message: Option<MessageRow>)

  /** A list of rows, as a Java list: at most Integer.MAX_VALUE long. */
  type RowList = rows: seq<RecipientRow> | |rows| <= INT_MAX

  // ---------------------------------------------------------------------------------------------
  // getSenderName
  // ---------------------------------------------------------------------------------------------

  const SENDER_PREFIX: string := "User #"

  /** getSenderName: a placeholder, "User #" followed by the sender id as printed ("null" for none). */
  function GetSenderName(senderId: Option<Int32>): (name: string)
    ensures |name| > |SENDER_PREFIX| && name[..|SENDER_PREFIX|] == SENDER_PREFIX
    ensures senderId.None? ==> name == "User #null"
  {
    SENDER_PREFIX + (if senderId.Some? then IntToDecimal(senderId.value) else "null")
  }

  /** The placeholder names the sender: the text after "User #" parses back to the id. */
  lemma SenderNameNamesTheSender(senderId: Int32)
    ensures ParseInt(GetSenderName(Some(senderId))[|SENDER_PREFIX|..]) == Some(senderId)
  {
    assert GetSenderName(Some(senderId))[|SENDER_PREFIX|..] == IntToDecimal(senderId);
    ParseIntOfDecimal(senderId);
  }

  /** Different senders (a null one included) get different placeholder names. */
  lemma SenderNamesDistinct(a: Option<Int32>, b: Option<Int32>)
    requires a != b
    ensures GetSenderName(a) != GetSenderName(b)
  {
    var na, nb := GetSenderName(a), GetSenderName(b);
    assert na[|SENDER_PREFIX|..] == (if a.Some? then IntToDecimal(a.value) else "null");
    assert nb[|SENDER_PREFIX|..] == (if b.Some? then IntToDecimal(b.value) else "null");
    if a.Some? && b.Some? {
      if na == nb {
        IntToDecimalInjective(a.value, b.value);
      }
    } else if a.Some? {
      assert IntToDecimal(a.value)[0] == '-' || IsDigit(IntToDecimal(a.value)[0]) by {
        NonNegativeDecimalStartsWithDigit(a.value);
      }
    } else {
      assert IntToDecimal(b.value)[0] == '-' || IsDigit(IntToDecimal(b.value)[0]) by {
        NonNegativeDecimalStartsWithDigit(b.value);
      }
    }
  }

  /** Printed ints start with '-' or a digit. */
  lemma NonNegativeDecimalStartsWithDigit(i: int)
    ensures IntToDecimal(i)[0] == '-' || IsDigit(IntToDecimal(i)[0])
  {
    if i >= 0 {
      assert IntToDecimal(i) == NatToDecimal(i);
    }
  }

  // ---------------------------------------------------------------------------------------------
  // formatTimeReceived
  // ---------------------------------------------------------------------------------------------

  const UNKNOWN_TIME: string := "Desconocido"
  const SECONDS_PER_WEEK: int := 7 * SECONDS_PER_DAY
  const SECONDS_PER_MONTH: int := 30 * SECONDS_PER_DAY
  const SECONDS_PER_YEAR: int := 365 * SECONDS_PER_DAY

  /** The bucket an elapsed time falls into, with the count the text shows. */
  datatype Elapsed =
    | Seconds(n: int)
    | Minutes(n: int)
    | Hours(n: int)
    | Days(n: int)
    | Weeks(n: int)
    | Months(n: int)
    | OverAYear

  /**
   * The if/else chain of formatTimeReceived over the long divisions seconds/60, minutes/60,
   * hours/24, days/7 and days/30. Less than a minute (a future instant included) counts seconds;
   * each later bucket counts whole units of its own size.
   */
  function ClassifyElapsed(seconds: int): (e: Elapsed)
    ensures seconds < 60 ==> e == Seconds(seconds)
    ensures 60 <= seconds < 3600 ==> e == Minutes(seconds / 60) && 1 <= e.n <= 59
    ensures 3600 <= seconds < SECONDS_PER_DAY ==> e == Hours(seconds / 3600) && 1 <= e.n <= 23
    ensures SECONDS_PER_DAY <= seconds < SECONDS_PER_WEEK ==> e == Days(seconds / SECONDS_PER_DAY) && 1 <= e.n <= 6
    ensures SECONDS_PER_WEEK <= seconds < SECONDS_PER_MONTH ==> e == Weeks(seconds / SECONDS_PER_WEEK) && 1 <= e.n <= 4
    ensures SECONDS_PER_MONTH <= seconds < SECONDS_PER_YEAR ==> e == Months(seconds / SECONDS_PER_MONTH) && 1 <= e.n <= 12
    ensures seconds >= SECONDS_PER_YEAR ==> e == OverAYear
  {
    var minutes := Quot(seconds, 60);
    var hours := Quot(minutes, 60);
    var days := Quot(hours, 24);
    if seconds < 60 then Seconds(seconds)
    else
      ElapsedUnits(seconds);
      if minutes < 60 then Minutes(minutes)
      else if hours < 24 then Hours(hours)
      else if days < 7 then Days(days)
      else if days < 30 then Weeks(Quot(days, 7))
      else if days < 365 then Months(Quot(days, 30))
      else OverAYear
  }

  /** Dividing step by step truncates the same way as dividing once by the product. */
  lemma ElapsedUnits(seconds: int)
    requires seconds >= 60
    ensures Quot(seconds, 60) == seconds / 60
    ensures Quot(Quot(seconds, 60), 60) == seconds / 3600
    ensures Quot(Quot(Quot(seconds, 60), 60), 24) == seconds / SECONDS_PER_DAY
    ensures Quot(seconds / SECONDS_PER_DAY, 7) == seconds / SECONDS_PER_WEEK
    ensures Quot(seconds / SECONDS_PER_DAY, 30) == seconds / SECONDS_PER_MONTH
  {
    DivDiv(seconds, 60, 60);
    DivDiv(seconds, 3600, 24);
    DivDiv(seconds, SECONDS_PER_DAY, 7);
    DivDiv(seconds, SECONDS_PER_DAY, 30);
  }

  /** (a / b) / c == a / (b * c) for a non-negative a and positive b and c. */
  lemma DivDiv(a: nat, b: nat, c: nat)
    requires b > 0 && c > 0
    ensures a / b / c == a / (b * c)
  {
    var q, r := a / b, a % b;
    var q2, r2 := q / c, q % c;
    var bc := b * c;
    var bq2 := b * q2;
    var br2 := b * r2;
    assert b * (c * q2 + r2) == bc * q2 + br2 by {
      assert b * (c * q2) == (b * c) * q2;
    }
    assert a == bc * q2 + (br2 + r);
    MulSign(b, c - 1 - r2);
    assert b * (c - 1 - r2) == bc - b - br2;
    DivUnique(a, bc, q2, br2 + r);
  }

  /** The quotient is the one q with a == d * q + r and 0 <= r < d. */
  lemma DivUnique(a: int, d: int, q: int, r: int)
    requires d > 0 && 0 <= r < d && a == d * q + r
    ensures a / d == q
  {
    var q0, r0 := a / d, a % d;
    var k := q - q0;
    assert d * q - d * q0 == d * k;
    MulSign(d, k - 1);
    MulSign(d, k + 1);
    assert d * (k - 1) == d * k - d;
    assert d * (k + 1) == d * k + d;
  }

  /** "Hace N unit" with the plural suffix unless N is exactly 1. */
  function Ago(n: int, unit: string, plural: string): string
  {
    "Hace " + IntToDecimal(n) + " " + unit + (if n != 1 then plural else "")
  }

  /**
   * formatTimeReceived: "Desconocido" for no instant; otherwise the elapsed time until `now` in
   * its bucket, or the creation date formatted dd/MM/yyyy after a year.
   */
  function FormatTimeReceived(createdAt: Option<OffsetDateTime>, now: OffsetDateTime,
                              formatDate: OffsetDateTime -> string): (text: string)
    ensures createdAt.None? ==> text == UNKNOWN_TIME
    ensures createdAt.Some? && SecondsBetween(createdAt.value, now) < 60 ==>
      text == Ago(SecondsBetween(createdAt.value, now), "segundo", "s")
    ensures createdAt.Some? && 60 <= SecondsBetween(createdAt.value, now) < 3600 ==>
      text == Ago(SecondsBetween(createdAt.value, now) / 60, "minuto", "s")
    ensures createdAt.Some? && 3600 <= SecondsBetween(createdAt.value, now) < SECONDS_PER_DAY ==>
      text == Ago(SecondsBetween(createdAt.value, now) / 3600, "hora", "s")
    ensures createdAt.Some? && SECONDS_PER_DAY <= SecondsBetween(createdAt.value, now) < SECONDS_PER_WEEK ==>
      text == Ago(SecondsBetween(createdAt.value, now) / SECONDS_PER_DAY, "día", "s")
    ensures createdAt.Some? && SECONDS_PER_WEEK <= SecondsBetween(createdAt.value, now) < SECONDS_PER_MONTH ==>
      text == Ago(SecondsBetween(createdAt.value, now) / SECONDS_PER_WEEK, "semana", "s")
    ensures createdAt.Some? && SECONDS_PER_MONTH <= SecondsBetween(createdAt.value, now) < SECONDS_PER_YEAR ==>
      text == Ago(SecondsBetween(createdAt.value, now) / SECONDS_PER_MONTH, "mes", "es")
    ensures createdAt.Some? && SECONDS_PER_YEAR <= SecondsBetween(createdAt.value, now) ==>
      text == formatDate(createdAt.value)
  {
    if createdAt.None? then UNKNOWN_TIME
    else
      match ClassifyElapsed(SecondsBetween(createdAt.value, now))
      case Seconds(n) => Ago(n, "segundo", "s")
      case Minutes(n) => Ago(n, "minuto", "s")
      case Hours(n) => Ago(n, "hora", "s")
      case Days(n) => Ago(n, "día", "s")
      case Weeks(n) => Ago(n, "semana", "s")
      case Months(n) => Ago(n, "mes", "es")
      case OverAYear => formatDate(createdAt.value)
  }

  /** The plural rule: exactly a count of one drops the plural suffix. */
  lemma AgoPluralRule(n: int, unit: string, plural: string)
    requires plural != []
    ensures n == 1 <==> Ago(n, unit, plural) == "Hace 1 " + unit
    ensures n != 1 ==> |plural| <= |Ago(n, unit, plural)| && Ago(n, unit, plural)[|Ago(n, unit, plural)| - |plural|..] == plural
  {
    assert IntToDecimal(1) == "1" by { assert NatToDecimal(1) == "1"; }
    assert |Ago(n, unit, plural)| == 6 + |IntToDecimal(n)| + |unit| + (if n != 1 then |plural| else 0);
  }

  /** Within one bucket the text determines the count: the number ends at the first blank after "Hace ". */
  lemma AgoDeterminesCount(n1: int, n2: int, unit: string, plural: string)
    requires Ago(n1, unit, plural) == Ago(n2, unit, plural)
    ensures n1 == n2
  {
    var d1, d2 := IntToDecimal(n1), IntToDecimal(n2);
    var t := Ago(n1, unit, plural);
    BlankEndsNumber(d1, unit + (if n1 != 1 then plural else ""));
    BlankEndsNumber(d2, unit + (if n2 != 1 then plural else ""));
    assert t == "Hace " + d1 + " " + (unit + (if n1 != 1 then plural else ""));
    assert t == "Hace " + d2 + " " + (unit + (if n2 != 1 then plural else ""));
    assert |d1| == |d2|;
    NumberSlice(d1, unit + (if n1 != 1 then plural else ""));
    NumberSlice(d2, unit + (if n2 != 1 then plural else ""));
    IntToDecimalInjective(n1, n2);
  }

  /** The number of "Hace " + d + " " + rest sits at positions 5 up to 5 + |d|. */
  lemma NumberSlice(d: string, rest: string)
    ensures ("Hace " + d + " " + rest)[5..5 + |d|] == d
  {
    var t := "Hace " + d + " " + rest;
    assert forall i :: 0 <= i < |d| ==> t[5 + i] == d[i];
  }

  /** In "Hace " + a printed int + " " + rest, the first blank after "Hace " follows the number. */
  lemma BlankEndsNumber(d: string, rest: string)
    requires |d| >= 1 && (d[0] == '-' || IsDigit(d[0])) && forall k :: 1 <= k < |d| ==> IsDigit(d[k])
    ensures ("Hace " + d + " " + rest)[5 + |d|] == ' '
    ensures forall i :: 5 <= i < 5 + |d| ==> ("Hace " + d + " " + rest)[i] != ' '
  {
    var t := "Hace " + d + " " + rest;
    forall i | 5 <= i < 5 + |d| ensures t[i] != ' ' {
      assert t[i] == d[i - 5];
    }
  }

  /** Under a minute, seconds are counted, singular only for exactly one; a future instant counts negative seconds. */
  lemma SecondsExamples(at: int, offset: int, formatDate: OffsetDateTime -> string)
    ensures FormatTimeReceived(Some(OffsetDateTime(at, offset)), OffsetDateTime(at + 1, 0), formatDate) == "Hace 1 segundo"
    ensures FormatTimeReceived(Some(OffsetDateTime(at, offset)), OffsetDateTime(at - 5, 0), formatDate) == "Hace -5 segundos"
  {
    assert ClassifyElapsed(1) == Seconds(1);
    assert NatToDecimal(1) == "1";
    assert ClassifyElapsed(-5) == Seconds(-5);
    assert NatToDecimal(5) == "5";
  }

  /** Sixty seconds are one minute. */
  lemma MinuteExample(at: int, offset: int, formatDate: OffsetDateTime -> string)
    ensures FormatTimeReceived(Some(OffsetDateTime(at, offset)), OffsetDateTime(at + 60, 0), formatDate) == "Hace 1 minuto"
  {
    assert ClassifyElapsed(60) == Minutes(1);
    assert NatToDecimal(1) == "1";
  }

  /** Twenty-nine days are still four weeks, and 364 days twelve months. */
  lemma WeekAndMonthExamples(at: int, offset: int, formatDate: OffsetDateTime -> string)
    ensures FormatTimeReceived(Some(OffsetDateTime(at, offset)), OffsetDateTime(at + 29 * SECONDS_PER_DAY, 0), formatDate) == "Hace 4 semanas"
    ensures FormatTimeReceived(Some(OffsetDateTime(at, offset)), OffsetDateTime(at + 364 * SECONDS_PER_DAY, 0), formatDate) == "Hace 12 meses"
  {
    assert ClassifyElapsed(29 * SECONDS_PER_DAY) == Weeks(4);
    assert NatToDecimal(4) == "4";
    assert ClassifyElapsed(364 * SECONDS_PER_DAY) == Months(12);
    assert NatToDecimal(12) == NatToDecimal(1) + [DigitChar(2)] == "12";
  }

  // ---------------------------------------------------------------------------------------------
  // mapToDomain and findMessagesByUser
  // ---------------------------------------------------------------------------------------------

  /**
   * mapToDomain: the item of one recipient row. A row without its message, or a message without
   * an id, throws a NullPointerException. The id is narrowed with Long.intValue.
   */
  function MapToDomain(row: RecipientRow, now: OffsetDateTime, formatDate: OffsetDateTime -> string): (r: Result<MessageInboxItem, Error>)
    ensures r.Failure? <==> row.message.None? || row.message.value.idMessage.None?
    ensures r.Failure? ==> r.error == NullPointer
    ensures r.Success? ==> var m, item := row.message.value, r.value;
      && item.idMessage == Some(Wrap32(m.idMessage.value))
      && item.isRead == row.isRead && item.message == m.asunto
      && item.numAttachments == Some(if m.attachmentCount.Some? then m.attachmentCount.value else 0)
      && item.senderName == Some(GetSenderName(m.senderId))
      && item.createdAt == m.createAt
      && item.timeReceived == Some(FormatTimeReceived(m.createAt, now, formatDate))
  {
    if row.message.None? || row.message.value.idMessage.None? then Failure(NullPointer)
    else
      var m := row.message.value;
      var count: Int32 := if m.attachmentCount.Some? then m.attachmentCount.value else 0;
      Success(Build(NewItemBuilder().(
        idMessage := Some(Wrap32(m.idMessage.value)),
        isRead := row.isRead,
        message := m.asunto,
        numAttachments := Some(count),
        senderName := Some(GetSenderName(m.senderId)),
        createdAt := m.createAt,
        timeReceived := Some(FormatTimeReceived(m.createAt, now, formatDate)))))
  }

  /** The item answers isRead and hasAttachments as its row does. */
  lemma MappedItemKeepsFlags(row: RecipientRow, now: OffsetDateTime, formatDate: OffsetDateTime -> string)
    requires MapToDomain(row, now, formatDate).Success?
    ensures var item, m := MapToDomain(row, now, formatDate).value, row.message.value;
      && (IsRead(item) <==> IsReadFlag(row.isRead))
      && (HasAttachments(item) <==> m.attachmentCount.Some? && m.attachmentCount.value > 0)
  {
  }

  /** A message id beyond int range is narrowed: 2^32 + 5 shows as 5. */
  lemma IdIsNarrowed(now: OffsetDateTime, formatDate: OffsetDateTime -> string)
    ensures var row := RecipientRow(None, Some(MessageRow(Some(0x1_0000_0005), None, None, None, None)));
      MapToDomain(row, now, formatDate).Success? && MapToDomain(row, now, formatDate).value.idMessage == Some(5)
  {
  }

  /** stream().map(mapToDomain).toList(): the items in row order; the first failing row fails the whole list. */
  function MapAll(rows: seq<RecipientRow>, now: OffsetDateTime, formatDate: OffsetDateTime -> string): (r: Result<seq<MessageInboxItem>, Error>)
    ensures r.Success? <==> forall i :: 0 <= i < |rows| ==> MapToDomain(rows[i], now, formatDate).Success?
    ensures r.Success? ==> |r.value| == |rows|
    ensures r.Success? ==> forall i :: 0 <= i < |rows| ==> r.value[i] == MapToDomain(rows[i], now, formatDate).value
    ensures r.Failure? ==> r.error == NullPointer
  {
    if rows == [] then Success([])
    else
      var head := MapToDomain(rows[0], now, formatDate);
      if head.Failure? then Failure(head.error)
      else
        var tail := MapAll(rows[1..], now, formatDate);
        if tail.Failure? then
          tail
        else
          Success([head.value] + tail.value)
  }

  /**
   * findMessagesByUser. With a page: the page's rows and the user's total count, combined into
   * PagedResult(items, count, index, size); a failure of the rows query wins over one of the count.
   * Without a page: every row, as an unpaginated PagedResult.
   */
  function FindMessagesByUser(page: Option<Page>, rows: Result<RowList, Error>, totalCount: Result<Int64, Error>,
                              now: OffsetDateTime, formatDate: OffsetDateTime -> string): (r: Result<PagedResult<MessageInboxItem>, Error>)
    ensures rows.Failure? ==> r == Failure(rows.error)
    ensures rows.Success? && page.Some? && totalCount.Failure? ==> r == Failure(totalCount.error)
    ensures r.Success? ==> MapAll(rows.value, now, formatDate).Success? && r.value.data == MapAll(rows.value, now, formatDate).value
    ensures r.Success? && page.Some? ==> r.value == NewPagedResult(r.value.data, totalCount.value, page.value.index, page.value.size)
    ensures r.Success? && page.None? ==> r.value == NewUnpagedResult(r.value.data)
    ensures rows.Success? && (page.None? || totalCount.Success?) ==>
      (r.Success? <==> MapAll(rows.value, now, formatDate).Success?)
    ensures rows.Success? && (page.None? || totalCount.Success?) && MapAll(rows.value, now, formatDate).Failure? ==>
      r == Failure(NullPointer)
  {
    if rows.Failure? then Failure(rows.error)
    else if page.Some? && totalCount.Failure? then Failure(totalCount.error)
    else
      var items := MapAll(rows.value, now, formatDate);
      if items.Failure? then Failure(items.error)
      else if page.Some? then Success(NewPagedResult(items.value, totalCount.value, page.value.index, page.value.size))
      else Success(NewUnpagedResult(items.value))
  }

  /** Without a page the result is one page holding every row, whatever their number. */
  lemma UnpagedFindIsOnePage(rows: RowList, now: OffsetDateTime, formatDate: OffsetDateTime -> string)
    requires forall i :: 0 <= i < |rows| ==> MapToDomain(rows[i], now, formatDate).Success?
    ensures var r := FindMessagesByUser(None, Success(rows), Failure(NullPointer), now, formatDate);
      r.Success? && |r.value.data| == |rows| && r.value.totalPages == 1 && r.value.totalElements == |rows|
  {
  }

  /** getDetailMessageById: a null id throws on longValue(); every other id fails as not implemented. */
  function GetDetailMessageById(idMessage: Option<Int32>): (r: Result<MessageDetailsDto, Error>)
    ensures r.Failure?
    ensures idMessage.None? ==> r.error == NullPointer
    ensures idMessage.Some? ==> r.error == UnsupportedOperation("getDetailMessageById not implemented yet")
  {
    if idMessage.None? then Failure(NullPointer)
    else Failure(UnsupportedOperation("getDetailMessageById not implemented yet"))
  }
}
