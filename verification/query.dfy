/** Query-string parameters as the handlers read them: `c.DefaultQuery`
    and the `strconv.Atoi` clamps on `limit` and `offset`. */
module Query {
  import opened Wrappers
  import Numbers

  /** `c.DefaultQuery(key, dflt)`: the value when the parameter is present,
      even when it is empty, otherwise the default. */
  function DefaultQuery(q: Option<string>, dflt: string): string {
    if q.Some? then q.value else dflt
  }

  /** A page size: the parsed value when it lies in `1..max`, otherwise
      `dflt`, for text that does not parse as well as for zero, negative or
      too large numbers. */
  function Limit(value: string, max: int, dflt: int): (r: int)
    requires 1 <= dflt <= max
    ensures 1 <= r <= max
    ensures r != dflt ==> Numbers.Atoi(value) == Some(r)
    ensures Numbers.Atoi(value).Some? && 1 <= Numbers.Atoi(value).value <= max ==> r == Numbers.Atoi(value).value
  {
    match Numbers.Atoi(value)
    case Some(n) => if n <= 0 || n > max then dflt else n
    case None => dflt
  }

  /** An offset: the parsed value unless it does not parse or is negative,
      in which case 0. */
  function Offset(value: string): (r: int)
    ensures r >= 0
    ensures r != 0 ==> Numbers.Atoi(value) == Some(r)
    ensures Numbers.Atoi(value).Some? && Numbers.Atoi(value).value >= 0 ==> r == Numbers.Atoi(value).value
  {
    match Numbers.Atoi(value)
    case Some(n) => if n < 0 then 0 else n
    case None => 0
  }

  /** Every page size in range survives being written out and read back;
      so does every clamped value, which makes the clamp idempotent. */
  lemma LimitRoundTrip(n: int, max: int, dflt: int)
    requires 1 <= dflt <= max <= Numbers.MaxInt && 1 <= n <= max
    ensures Limit(Numbers.IntToString(n), max, dflt) == n
  {
    Numbers.AtoiOfIntToString(n);
  }

  lemma LimitIdempotent(value: string, max: int, dflt: int)
    requires 1 <= dflt <= max <= Numbers.MaxInt
    ensures Limit(Numbers.IntToString(Limit(value, max, dflt)), max, dflt) == Limit(value, max, dflt)
  {
    LimitRoundTrip(Limit(value, max, dflt), max, dflt);
  }

  /** A number out of range falls back to the default, however it is
      spelled. */
  lemma LimitOutOfRange(n: int, max: int, dflt: int)
    requires 1 <= dflt <= max && (n <= 0 || n > max) && Numbers.MinInt <= n <= Numbers.MaxInt
    ensures Limit(Numbers.IntToString(n), max, dflt) == dflt
  {
    Numbers.AtoiOfIntToString(n);
  }

  lemma OffsetRoundTrip(n: int)
    requires 0 <= n <= Numbers.MaxInt
    ensures Offset(Numbers.IntToString(n)) == n
  {
    Numbers.AtoiOfIntToString(n);
  }
}
