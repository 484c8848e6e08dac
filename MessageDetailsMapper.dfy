/**
 * The hand-written conversions of the persistence mapper: the employee's given names and
 * surnames as the sender and receiver DTOs show them, and the date part of the two date-time
 * types. The generated entity-to-DTO mappings are not part of this model.
 */
module MessageDetailsMapper {
  import opened Wrappers
  import opened JavaStrings
  import opened JavaTime
  import opened DetailDtos

  /** What the name fields show when there is no employee record. */
  const SIN_INFORMACION: string := "Sin información"

  /** mapNombres: the employee's given names as stored (possibly null); the placeholder without an employee. */
  function MapNombres(empleado: Option<Empleado>): (r: Option<string>)
    ensures empleado.None? ==> r == Some(SIN_INFORMACION)
    ensures empleado.Some? ==> r == empleado.value.nombres
  {
    if empleado.None? then Some(SIN_INFORMACION) else empleado.value.nombres
  }

  /** The text a possibly-null surname contributes: "" for null. */
  function SurnameText(s: Option<string>): string
  {
    if s.Some? then s.value else ""
  }

  /**
   * mapApellidos: both surnames (null read as "") joined by one space and trimmed; the
   * placeholder without an employee. The result is never null and never starts or ends with a
   * blank.
   */
  function MapApellidos(empleado: Option<Empleado>): (r: Option<string>)
    ensures r.Some?
    ensures empleado.None? ==> r == Some(SIN_INFORMACION)
    ensures r.value != [] ==> !IsTrimmable(r.value[0]) && !IsTrimmable(r.value[|r.value| - 1])
    ensures empleado.Some? ==> |r.value| <= |SurnameText(empleado.value.primerApellido)| + 1 + |SurnameText(empleado.value.segundoApellido)|
    ensures empleado.Some? ==>
      exists u, v :: (AllTrimmable(u) && AllTrimmable(v)
        && SurnameText(empleado.value.primerApellido) + " " + SurnameText(empleado.value.segundoApellido) == u + r.value + v)
  {
    if empleado.None? then Some(SIN_INFORMACION)
    else
      var primer := SurnameText(empleado.value.primerApellido);
      var segundo := SurnameText(empleado.value.segundoApellido);
      TrimRemovesPadding(primer + " " + segundo);
      Some(Trim(primer + " " + segundo))
  }

  /**
   * The joined surnames determine the result: any text without a blank at either end that is
   * the joined surnames minus strippable padding is what mapApellidos returns.
   */
  lemma ApellidosAreJoinedSurnamesUnpadded(e: Empleado, u: string, m: string, v: string)
    requires AllTrimmable(u) && AllTrimmable(v)
    requires m == [] || (!IsTrimmable(m[0]) && !IsTrimmable(m[|m| - 1]))
    requires SurnameText(e.primerApellido) + " " + SurnameText(e.segundoApellido) == u + m + v
    ensures MapApellidos(Some(e)) == Some(m)
  {
    TrimOfPadded(u, m, v);
  }

  /** mapApellidos of an employee without surnames is "", not the placeholder. */
  lemma NoSurnamesGiveEmpty(e: Empleado)
    requires e.primerApellido.None? && e.segundoApellido.None?
    ensures MapApellidos(Some(e)) == Some("")
  {
    TrimOfPadded(" ", "", "");
    assert " " + "" + "" == "" + " " + "";
  }

  /** A single surname comes back trimmed, without the joining space. */
  lemma SingleSurnameTrimmed(e: Empleado)
    requires e.primerApellido.None? != e.segundoApellido.None?
    ensures e.primerApellido.Some? ==> MapApellidos(Some(e)) == Some(Trim(e.primerApellido.value))
    ensures e.segundoApellido.Some? ==> MapApellidos(Some(e)) == Some(Trim(e.segundoApellido.value))
  {
    if e.primerApellido.Some? {
      TrimIgnoresTrailingBlank(e.primerApellido.value);
      assert SurnameText(e.segundoApellido) == "";
    } else {
      TrimIgnoresLeadingBlank(e.segundoApellido.value);
      assert SurnameText(e.primerApellido) == "";
    }
  }

  /** A blank appended before trimming makes no difference. */
  lemma TrimIgnoresTrailingBlank(p: string)
    ensures Trim(p + " " + "") == Trim(p)
  {
    TrimIgnoresPadding("", p, " ");
    assert "" + p + " " == p + " " + "";
  }

  /** A blank prepended before trimming makes no difference. */
  lemma TrimIgnoresLeadingBlank(s: string)
    ensures Trim("" + " " + s) == Trim(s)
  {
    TrimIgnoresPadding(" ", s, "");
    assert " " + s + "" == "" + " " + s;
  }

  /** Two surnames without surrounding blanks come back joined by exactly one space. */
  lemma TwoSurnamesJoined(e: Empleado)
    requires e.primerApellido.Some? && e.segundoApellido.Some?
    requires Trim(e.primerApellido.value) == e.primerApellido.value != []
    requires Trim(e.segundoApellido.value) == e.segundoApellido.value != []
    ensures MapApellidos(Some(e)) == Some(e.primerApellido.value + " " + e.segundoApellido.value)
  {
    var p, s := e.primerApellido.value, e.segundoApellido.value;
    var joined := p + " " + s;
    assert joined[0] == p[0] && joined[|joined| - 1] == s[|s| - 1];
  }

  /** offsetDateTimeToLocalDate: null stays null; otherwise the date the value's own clock shows. */
  function OffsetDateTimeToLocalDate(t: Option<OffsetDateTime>): (d: Option<LocalDate>)
    ensures d.Some? <==> t.Some?
    ensures t.Some? ==> var local := t.value.epochSecond + t.value.offsetSeconds;
      d.value.epochDay * SECONDS_PER_DAY <= local < (d.value.epochDay + 1) * SECONDS_PER_DAY
  {
    if t.Some? then Some(OffsetDateTimeDate(t.value)) else None
  }

  /** localDateTimeToLocalDate: null stays null; otherwise the date the value falls on. */
  function LocalDateTimeToLocalDate(t: Option<LocalDateTime>): (d: Option<LocalDate>)
    ensures d.Some? <==> t.Some?
    ensures t.Some? ==>
      d.value.epochDay * SECONDS_PER_DAY <= t.value.localSecond < (d.value.epochDay + 1) * SECONDS_PER_DAY
  {
    if t.Some? then Some(LocalDateTimeDate(t.value)) else None
  }

  /** The same instant seen from two offsets can fall on different dates. */
  lemma OffsetDecidesTheDate()
    ensures OffsetDateTimeToLocalDate(Some(OffsetDateTime(0, 0))) == Some(LocalDate(0))
    ensures OffsetDateTimeToLocalDate(Some(OffsetDateTime(0, -3600))) == Some(LocalDate(-1))
  {
  }
}
