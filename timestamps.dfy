/** The JSON readers that turn a Unix timestamp of unknown unit into a
    DateTimeOffset at UTC offset zero. An instant is its number of .NET
    ticks (100 ns) since 0001-01-01T00:00:00. */
module Timestamps {
  import opened Wrappers
  import opened Text

  const UnixEpochTicks: int := 621355968000000000
  /** DateTimeOffset.MaxValue in ticks; MinValue is 0. */
  const MaxTicks: int := 3155378975999999999
  const MinLong: int := -0x8000_0000_0000_0000
  const MaxLong: int := 0x7FFF_FFFF_FFFF_FFFF
  const TwoTo64: int := 0x1_0000_0000_0000_0000

  predicate InLongRange(x: int)
  {
    MinLong <= x <= MaxLong
  }

  /** Unchecked `long` arithmetic: the result reduced into the 64-bit
      two's-complement range. */
  function Wrap64(x: int): (r: int)
    ensures InLongRange(r)
    ensures InLongRange(x) ==> r == x
  {
    (x - MinLong) % TwoTo64 + MinLong
  }

  // ---------------------------------------------------------------- tokens

  /** The reader's current token. A number token carries its value when the
      literal is an integer, and None when it has a fraction or exponent. */
  datatype JsonToken =
    | StringToken(text: string)
    | NumberToken(integer: Option<int>)
    | OtherToken

  datatype ParseFailure = FormatFailure | OverflowFailure

  /** The white space Int64.Parse allows around a number. */
  predicate IsNumberWhite(c: char)
  {
    c == ' ' || '\t' <= c <= '\r'
  }

  function WhiteRun(s: string): (k: nat)
    ensures k <= |s|
    ensures forall j :: 0 <= j < k ==> IsNumberWhite(s[j])
    ensures k < |s| ==> !IsNumberWhite(s[k])
  {
    if s == [] || !IsNumberWhite(s[0]) then 0 else 1 + WhiteRun(s[1..])
  }

  function DigitRun(s: string): (k: nat)
    ensures k <= |s| && AllDigits(s[..k])
    ensures k < |s| ==> !IsDigit(s[k])
    ensures AllDigits(s) ==> k == |s|
  {
    if s == [] || !IsDigit(s[0]) then 0
    else
      var k := 1 + DigitRun(s[1..]);
      assert forall j :: 1 <= j < k ==> s[..k][j] == s[1..][..k - 1][j - 1];
      k
  }

  predicate AllNul(s: string)
  {
    forall j :: 0 <= j < |s| ==> s[j] == '\0'
  }

  /** Convert.ToInt64(string), that is Int64.Parse with NumberStyles.Integer:
      optional white space, an optional sign, at least one digit, optional
      white space, then only NUL characters. Junk is a FormatException even
      when the digits overflow; a value outside `long` is an
      OverflowException. */
  function ParseInt64(text: string): (r: Result<int, ParseFailure>)
    ensures r.Ok? ==> InLongRange(r.value)
  {
    ParseSigned(text[WhiteRun(text)..])
  }

  /** The part after the leading white space. */
  function ParseSigned(s: string): (r: Result<int, ParseFailure>)
    ensures r.Ok? ==> InLongRange(r.value)
  {
    if s != [] && s[0] == '-' then ParseUnsigned(s[1..], true)
    else if s != [] && s[0] == '+' then ParseUnsigned(s[1..], false)
    else ParseUnsigned(s, false)
  }

  /** The part after the sign. */
  function ParseUnsigned(body: string, negative: bool): (r: Result<int, ParseFailure>)
    ensures r.Ok? ==> InLongRange(r.value)
  {
    var k := DigitRun(body);
    var rest := body[k..];
    if k == 0 || !AllNul(rest[WhiteRun(rest)..]) then Err(FormatFailure)
    else
      var magnitude: int := DecimalValue(body[..k]);
      var value := if negative then -magnitude else magnitude;
      if InLongRange(value) then Ok(value) else Err(OverflowFailure)
  }

  predicate AllNumberWhite(s: string)
  {
    forall j :: 0 <= j < |s| ==> IsNumberWhite(s[j])
  }

  function Signed(digits: string, negative: bool): int
    requires AllDigits(digits)
  {
    var magnitude: int := DecimalValue(digits);
    if negative then -magnitude else magnitude
  }

  lemma UnsignedWellFormed(digits: string, trail: string, negative: bool)
    requires AllNumberWhite(trail)
    requires |digits| >= 1 && AllDigits(digits)
    ensures ParseUnsigned(digits + trail, negative) ==
      if InLongRange(Signed(digits, negative)) then Ok(Signed(digits, negative)) else Err(OverflowFailure)
  {
    var body := digits + trail;
    DigitRunOver(digits, trail);
    assert body[..|digits|] == digits;
    assert body[|digits|..] == trail;
    WhiteRunAll(trail);
    assert trail[|trail|..] == [];
  }

  lemma UnsignedJunk(digits: string, junk: string, negative: bool)
    requires AllDigits(digits)
    requires junk != [] && !IsNumberWhite(junk[0]) && !IsDigit(junk[0]) && junk[0] != '\0'
    ensures ParseUnsigned(digits + junk, negative) == Err(FormatFailure)
  {
    var body := digits + junk;
    if digits == [] {
      assert body == junk;
    } else {
      DigitRunOver(digits, junk);
      assert body[|digits|..] == junk;
      WhiteRunOver([], junk);
      assert [] + junk == junk;
      assert junk[0..][0] == junk[0];
    }
  }

  lemma SignShape(sign: string, body: string)
    requires sign == "" || sign == "-" || sign == "+"
    requires sign == "" ==> body != [] && IsDigit(body[0])
    ensures ParseSigned(sign + body) == ParseUnsigned(body, sign == "-")
  {
    if sign == "" {
      assert sign + body == body;
    } else {
      assert (sign + body)[0] == sign[0];
      assert (sign + body)[1..] == body;
    }
  }

  lemma SkipLead(lead: string, rest: string)
    requires AllNumberWhite(lead)
    requires rest != [] && !IsNumberWhite(rest[0])
    ensures ParseInt64(lead + rest) == ParseSigned(rest)
  {
    WhiteRunOver(lead, rest);
    assert (lead + rest)[|lead|..] == rest;
  }

  lemma Assoc(a: string, b: string, c: string)
    ensures a + b + c == a + (b + c)
  {
  }

  lemma Regroup(a: string, b: string, c: string, d: string)
    ensures a + b + c + d == a + (b + (c + d))
  {
  }

  /** The shape Int64.Parse accepts: white space, a sign, digits, white
      space. */
  lemma ParseWellFormed(lead: string, sign: string, digits: string, trail: string)
    requires AllNumberWhite(lead) && AllNumberWhite(trail)
    requires sign == "" || sign == "-" || sign == "+"
    requires |digits| >= 1 && AllDigits(digits)
    ensures ParseInt64(lead + sign + digits + trail) ==
      if InLongRange(Signed(digits, sign == "-")) then Ok(Signed(digits, sign == "-")) else Err(OverflowFailure)
  {
    var body := digits + trail;
    var rest := sign + body;
    assert rest[0] == (if sign == "" then digits[0] else sign[0]);
    SkipLead(lead, rest);
    Regroup(lead, sign, digits, trail);
    SignShape(sign, body);
    UnsignedWellFormed(digits, trail, sign == "-");
  }

  /** Rendering an integer and parsing it back gives the integer, with or
      without surrounding white space, when it fits in a long, and an
      overflow otherwise. */
  lemma ParseRendered(n: int, lead: string, trail: string)
    requires AllNumberWhite(lead) && AllNumberWhite(trail)
    ensures ParseInt64(lead + IntToString(n) + trail) == if InLongRange(n) then Ok(n) else Err(OverflowFailure)
  {
    var s := IntToString(n);
    if n < 0 {
      var d := s[1..];
      assert s == "-" + d;
      ParseWellFormed(lead, "-", d, trail);
      Assoc(lead, "-", d);
      assert Signed(d, true) == n;
    } else {
      ParseWellFormed(lead, "", s, trail);
      assert lead + "" == lead;
      assert Signed(s, false) == n;
    }
  }

  lemma {:induction false} WhiteRunOver(white: string, rest: string)
    requires AllNumberWhite(white)
    requires rest == [] || !IsNumberWhite(rest[0])
    ensures WhiteRun(white + rest) == |white|
  {
    if white != [] {
      assert (white + rest)[1..] == white[1..] + rest;
      WhiteRunOver(white[1..], rest);
    }
  }

  lemma WhiteRunAll(white: string)
    requires AllNumberWhite(white)
    ensures WhiteRun(white) == |white|
  {
    WhiteRunOver(white, []);
    assert white + [] == white;
  }

  lemma {:induction false} DigitRunOver(digits: string, rest: string)
    requires |digits| >= 1 && AllDigits(digits)
    requires rest == [] || !IsDigit(rest[0])
    ensures DigitRun(digits + rest) == |digits|
  {
    assert (digits + rest)[1..] == digits[1..] + rest;
    if |digits| > 1 {
      DigitRunOver(digits[1..], rest);
    } else {
      assert digits[1..] + rest == rest;
    }
  }

  datatype ReadError =
    | JsonError        // JsonException, including a caught FormatException
    | OverflowError    // OverflowException from parsing a string, not caught
    | OutOfRange       // ArgumentOutOfRangeException from the DateTimeOffset constructor

  /** The `long?` the readers switch on: a string token parsed as a decimal
      long, a number token read as a long, any other token null. A number
      that is not an integral `long` is a FormatException, caught and
      rethrown as a JsonException. */
  function TokenNumber(token: JsonToken): (r: Result<Option<int>, ReadError>)
    ensures r.Ok? && r.value.Some? ==> InLongRange(r.value.value)
    ensures r == Ok(None) <==> token.OtherToken?
  {
    match token
    case StringToken(text) =>
      (match ParseInt64(text)
       case Ok(n) => Ok(Some(n))
       case Err(FormatFailure) => Err(JsonError)
       case Err(OverflowFailure) => Err(OverflowError))
    case NumberToken(integer) =>
      if integer.Some? && InLongRange(integer.value) then Ok(Some(integer.value)) else Err(JsonError)
    case OtherToken => Ok(None)
  }

  /** Text with no digits, or with anything but white space and NUL after
      the digits, is a FormatException. */
  lemma ParseRejectsJunk(sign: string, digits: string, junk: string)
    requires sign == "" || sign == "-" || sign == "+"
    requires AllDigits(digits)
    requires junk != [] && !IsNumberWhite(junk[0]) && !IsDigit(junk[0]) && junk[0] != '\0'
    requires sign == "" && digits == [] ==> junk[0] != '-' && junk[0] != '+'
    ensures ParseInt64(sign + digits + junk) == Err(FormatFailure)
  {
    var rest := sign + (digits + junk);
    SignedJunk(sign, digits, junk);
    Assoc(sign, digits, junk);
    SkipLead("", rest);
    assert "" + rest == rest;
  }

  /** After the leading white space: the sign is read, then the junk fails
      the digits. */
  lemma SignedJunk(sign: string, digits: string, junk: string)
    requires sign == "" || sign == "-" || sign == "+"
    requires AllDigits(digits)
    requires junk != [] && !IsNumberWhite(junk[0]) && !IsDigit(junk[0]) && junk[0] != '\0'
    requires sign == "" && digits == [] ==> junk[0] != '-' && junk[0] != '+'
    ensures sign + (digits + junk) != [] && !IsNumberWhite((sign + (digits + junk))[0])
    ensures ParseSigned(sign + (digits + junk)) == Err(FormatFailure)
  {
    var body := digits + junk;
    var rest := sign + body;
    UnsignedJunk(digits, junk, sign == "-");
    assert body[0] == (if digits != [] then digits[0] else junk[0]);
    if sign == "" {
      assert rest == body;
      assert body[0] != '-' && body[0] != '+';
      assert ParseSigned(rest) == ParseUnsigned(body, false);
    } else {
      assert rest[0] == sign[0] && rest[1..] == body;
      assert ParseSigned(rest) == ParseUnsigned(rest[1..], sign == "-");
    }
  }

  /** A string token holding a rendered long reads like the number token. */
  lemma StringMatchesNumber(n: int)
    requires InLongRange(n)
    ensures TokenNumber(StringToken(IntToString(n))) == TokenNumber(NumberToken(Some(n)))
  {
    ParseRendered(n, "", "");
    assert "" + IntToString(n) + "" == IntToString(n);
  }

  // ----------------------------------------------------------------- units

  /** Ticks per unit for DateTimeOffsetReader: microseconds from 10^14 up,
      milliseconds from 10^11 up, seconds below (negatives included). */
  function AutoRangeFactor(n: int): int
  {
    if n >= 100_000_000_000_000 then 10
    else if n >= 100_000_000_000 then 10_000
    else 10_000_000
  }

  /** Ticks per unit for the two string readers: microseconds from 10^15
      up, milliseconds below; there is no seconds band. */
  function MillisOrMicrosFactor(n: int): int
  {
    if n >= 1_000_000_000_000_000 then 10 else 10_000
  }

  /** new DateTimeOffset(ticks, TimeSpan.Zero). */
  function MakeInstant(ticks: int): (r: Result<int, ReadError>)
    ensures r.Ok? <==> 0 <= ticks <= MaxTicks
    ensures r.Ok? ==> r.value == ticks
    ensures r.Err? ==> r.error == OutOfRange
  {
    if 0 <= ticks <= MaxTicks then Ok(ticks) else Err(OutOfRange)
  }

  /** `n` units of `factor` ticks after the Unix epoch, computed exactly:
      the instant, or out of range. */
  function Instant(n: int, factor: int): (r: Result<int, ReadError>)
    ensures r.Ok? ==> r.value - UnixEpochTicks == n * factor
    ensures r.Err? ==> n * factor + UnixEpochTicks < 0 || n * factor + UnixEpochTicks > MaxTicks
  {
    MakeInstant(n * factor + UnixEpochTicks)
  }

  /** The same in unchecked `long` arithmetic, as the readers compute it: the
      product wraps, then the sum wraps. */
  function InstantAsWritten(n: int, factor: int): Result<int, ReadError>
  {
    MakeInstant(Wrap64(Wrap64(n * factor) + UnixEpochTicks))
  }

  /** Without overflow in the product, the wrapping arithmetic gives the
      exact answer: a wrapped sum is negative and so out of range too. */
  lemma AsWrittenExactWithoutOverflow(n: int, factor: int)
    requires InLongRange(n * factor)
    ensures InstantAsWritten(n, factor) == Instant(n, factor)
  {
    var p := n * factor;
    var sum := p + UnixEpochTicks;
    if !InLongRange(sum) {
      assert sum > MaxLong;
      assert Wrap64(sum) == sum - TwoTo64;
    }
  }

  function Present(r: Result<int, ReadError>): (o: Result<Option<int>, ReadError>)
    ensures o.Ok? <==> r.Ok?
    ensures r.Ok? ==> o.value == Some(r.value)
    ensures r.Err? ==> o.error == r.error
  {
    match r
    case Ok(t) => Ok(Some(t))
    case Err(e) => Err(e)
  }

  // --------------------------------------------------------------- readers

  /** DateTimeOffsetReader.Read, with the tick arithmetic exact: 0 is no
      value, any other long is auto-ranged, a token that is neither a string
      nor a number is a JsonException. */
  function ReadAutoRanged(token: JsonToken): Result<Option<int>, ReadError>
  {
    match TokenNumber(token)
    case Err(e) => Err(e)
    case Ok(None) => Err(JsonError)
    case Ok(Some(n)) => if n == 0 then Ok(None) else Present(Instant(n, AutoRangeFactor(n)))
  }

  /** DateTimeOffsetReader.Read as written, with wrapping arithmetic. */
  function ReadAutoRangedAsWritten(token: JsonToken): Result<Option<int>, ReadError>
  {
    match TokenNumber(token)
    case Err(e) => Err(e)
    case Ok(None) => Err(JsonError)
    case Ok(Some(n)) => if n == 0 then Ok(None) else Present(InstantAsWritten(n, AutoRangeFactor(n)))
  }

  /** StringToDateTimeOffsetReader.Read, exact: 0 is no value. */
  function ReadMillisOrMicros(token: JsonToken): Result<Option<int>, ReadError>
  {
    match TokenNumber(token)
    case Err(e) => Err(e)
    case Ok(None) => Err(JsonError)
    case Ok(Some(n)) => if n == 0 then Ok(None) else Present(Instant(n, MillisOrMicrosFactor(n)))
  }

  /** StringToDateTimeOffsetReader.Read as written. */
  function ReadMillisOrMicrosAsWritten(token: JsonToken): Result<Option<int>, ReadError>
  {
    match TokenNumber(token)
    case Err(e) => Err(e)
    case Ok(None) => Err(JsonError)
    case Ok(Some(n)) => if n == 0 then Ok(None) else Present(InstantAsWritten(n, MillisOrMicrosFactor(n)))
  }

  /** StringToDateTimeOffsetConverter.Read, exact: the value is required, so
      0 and a missing number are JsonExceptions. */
  function ConvertMillisOrMicros(token: JsonToken): Result<int, ReadError>
  {
    match TokenNumber(token)
    case Err(e) => Err(e)
    case Ok(None) => Err(JsonError)
    case Ok(Some(n)) => if n == 0 then Err(JsonError) else Instant(n, MillisOrMicrosFactor(n))
  }

  /** StringToDateTimeOffsetConverter.Read as written. */
  function ConvertMillisOrMicrosAsWritten(token: JsonToken): Result<int, ReadError>
  {
    match TokenNumber(token)
    case Err(e) => Err(e)
    case Ok(None) => Err(JsonError)
    case Ok(Some(n)) => if n == 0 then Err(JsonError) else InstantAsWritten(n, MillisOrMicrosFactor(n))
  }

  // ------------------------------------------------------------ properties

  /** A zero timestamp is no value for the two readers and an error for the
      converter; a token that is neither a string nor a number is an error
      for all three. */
  lemma ZeroAndOtherTokens(token: JsonToken)
    ensures TokenNumber(token) == Ok(Some(0)) ==>
      ReadAutoRanged(token) == Ok(None) && ReadMillisOrMicros(token) == Ok(None)
      && ConvertMillisOrMicros(token) == Err(JsonError)
    ensures token.OtherToken? ==>
      ReadAutoRanged(token) == Err(JsonError) && ReadMillisOrMicros(token) == Err(JsonError)
      && ConvertMillisOrMicros(token) == Err(JsonError)
  {
  }

  /** Every instant the exact readers produce is exactly the timestamp's
      number of units after the Unix epoch. */
  lemma ReadIsExact(token: JsonToken, n: int)
    requires TokenNumber(token) == Ok(Some(n))
    ensures ReadAutoRanged(token).Ok? && ReadAutoRanged(token).value.Some? ==>
      ReadAutoRanged(token).value.value == UnixEpochTicks + n * AutoRangeFactor(n)
    ensures ReadMillisOrMicros(token).Ok? && ReadMillisOrMicros(token).value.Some? ==>
      ReadMillisOrMicros(token).value.value == UnixEpochTicks + n * MillisOrMicrosFactor(n)
    ensures ConvertMillisOrMicros(token).Ok? ==>
      ConvertMillisOrMicros(token).value == UnixEpochTicks + n * MillisOrMicrosFactor(n)
  {
  }

  /** The reader and the converter agree on every non-zero timestamp. */
  lemma ReaderAndConverterAgree(token: JsonToken)
    requires TokenNumber(token).Ok? && TokenNumber(token) != Ok(Some(0))
    ensures ConvertMillisOrMicros(token).Ok? ==> ReadMillisOrMicros(token) == Ok(Some(ConvertMillisOrMicros(token).value))
    ensures ConvertMillisOrMicros(token).Err? ==> ReadMillisOrMicros(token) == Err(ConvertMillisOrMicros(token).error)
  {
  }

  /** A long sent as a JSON string reads the same as the JSON number. */
  lemma StringTokensReadLikeNumbers(n: int)
    requires InLongRange(n)
    ensures ReadAutoRanged(StringToken(IntToString(n))) == ReadAutoRanged(NumberToken(Some(n)))
    ensures ReadMillisOrMicros(StringToken(IntToString(n))) == ReadMillisOrMicros(NumberToken(Some(n)))
    ensures ConvertMillisOrMicros(StringToken(IntToString(n))) == ConvertMillisOrMicros(NumberToken(Some(n)))
  {
    StringMatchesNumber(n);
  }

  /** The same instant written in seconds, milliseconds or microseconds
      reads the same, for every second from 1973 to 5138. */
  lemma UnitsAgree(s: int)
    requires 100_000_000 <= s < 100_000_000_000
    ensures ReadAutoRanged(NumberToken(Some(s))) == ReadAutoRanged(NumberToken(Some(s * 1000)))
    ensures ReadAutoRanged(NumberToken(Some(s))) == ReadAutoRanged(NumberToken(Some(s * 1_000_000)))
    ensures ReadAutoRanged(NumberToken(Some(s))) == Ok(Some(UnixEpochTicks + s * 10_000_000))
  {
  }

  /** The string readers agree on milliseconds and microseconds for every
      millisecond from 2001-09-09 to the end of year 9999. */
  lemma MillisAndMicrosAgree(m: int)
    requires 1_000_000_000_000 <= m <= 253_402_300_799_999
    ensures ReadMillisOrMicros(NumberToken(Some(m))) == ReadMillisOrMicros(NumberToken(Some(m * 1000)))
    ensures ReadMillisOrMicros(NumberToken(Some(m))) == Ok(Some(UnixEpochTicks + m * 10_000))
  {
  }

  /** The string readers have no seconds band: any positive count below
      10^15 is taken as milliseconds. */
  lemma NoSecondsBand(n: int)
    requires 1 <= n <= 253_402_300_799_999
    ensures ReadMillisOrMicros(NumberToken(Some(n))) == Ok(Some(UnixEpochTicks + n * 10_000))
    ensures ConvertMillisOrMicros(NumberToken(Some(n))) == Ok(UnixEpochTicks + n * 10_000)
  {
  }

  // -------------------------------------------------------- calendar dates

  predicate IsLeapYear(year: int)
  {
    year % 4 == 0 && (year % 100 != 0 || year % 400 == 0)
  }

  /** The DateTimeOffset(year, month, day, hour, minute, second,
      millisecond, microsecond, TimeSpan.Zero) constructor: proleptic
      Gregorian days since 0001-01-01, then the time of day, in ticks. */
  function CivilTicks(year: int, month: int, day: int, hour: int, minute: int, second: int,
                      millisecond: int, microsecond: int): int
    requires 1 <= year <= 9999 && 1 <= month <= 12 && 1 <= day <= 31
  {
    var p := year - 1;
    var daysBeforeMonth := [0, 31, 59, 90, 120, 151, 181, 212, 243, 273, 304, 334][month - 1]
      + (if IsLeapYear(year) && month > 2 then 1 else 0);
    var days := p * 365 + p / 4 - p / 100 + p / 400 + daysBeforeMonth + day - 1;
    ((((days * 24 + hour) * 60 + minute) * 60 + second) * 1000 + millisecond) * 10_000 + microsecond * 10
  }

  /** The Unix epoch constant is 1970-01-01T00:00:00Z. */
  lemma EpochIsUnixEpoch()
    ensures CivilTicks(1970, 1, 1, 0, 0, 0, 0, 0) == UnixEpochTicks
  {
  }

  /** The three readings of 2025-10-28T21:50:28.815123Z in the reader's
      tests, at increasing precision. */
  lemma AutoRangeTestVectors()
    ensures ReadAutoRanged(NumberToken(Some(1761688228))) == Ok(Some(CivilTicks(2025, 10, 28, 21, 50, 28, 0, 0)))
    ensures ReadAutoRanged(NumberToken(Some(1761688228815))) == Ok(Some(CivilTicks(2025, 10, 28, 21, 50, 28, 815, 0)))
    ensures ReadAutoRanged(NumberToken(Some(1761688228815123))) == Ok(Some(CivilTicks(2025, 10, 28, 21, 50, 28, 815, 123)))
  {
  }

  // --------------------------------------------------------------- finding

  /** An absurd microsecond timestamp wraps to four ticks after the epoch in
      the code as written, where the exact readers report it out of range. */
  lemma WrapCounterexample()
    ensures ReadAutoRangedAsWritten(NumberToken(Some(1844674407370955162))) == Ok(Some(UnixEpochTicks + 4))
    ensures ReadMillisOrMicrosAsWritten(NumberToken(Some(1844674407370955162))) == Ok(Some(UnixEpochTicks + 4))
    ensures ConvertMillisOrMicrosAsWritten(NumberToken(Some(1844674407370955162))) == Ok(UnixEpochTicks + 4)
    ensures ReadAutoRanged(NumberToken(Some(1844674407370955162))) == Err(OutOfRange)
    ensures ReadMillisOrMicros(NumberToken(Some(1844674407370955162))) == Err(OutOfRange)
    ensures ConvertMillisOrMicros(NumberToken(Some(1844674407370955162))) == Err(OutOfRange)
  {
    assert Wrap64(18446744073709551620) == 4;
    assert Wrap64(4 + UnixEpochTicks) == 4 + UnixEpochTicks;
  }

  /** Wherever the unit conversion does not overflow a long, the code as
      written reads what the exact readers read. */
  lemma AsWrittenAgreesWithoutOverflow(token: JsonToken)
    ensures (forall n :: TokenNumber(token) == Ok(Some(n)) ==> InLongRange(n * AutoRangeFactor(n))) ==>
      ReadAutoRangedAsWritten(token) == ReadAutoRanged(token)
    ensures (forall n :: TokenNumber(token) == Ok(Some(n)) ==> InLongRange(n * MillisOrMicrosFactor(n))) ==>
      ReadMillisOrMicrosAsWritten(token) == ReadMillisOrMicros(token)
        && ConvertMillisOrMicrosAsWritten(token) == ConvertMillisOrMicros(token)
  {
    match TokenNumber(token)
    case Ok(Some(n)) =>
      if InLongRange(n * AutoRangeFactor(n)) {
        AsWrittenExactWithoutOverflow(n, AutoRangeFactor(n));
      }
      if InLongRange(n * MillisOrMicrosFactor(n)) {
        AsWrittenExactWithoutOverflow(n, MillisOrMicrosFactor(n));
      }
    case _ =>
  }

  /** In particular every timestamp whose magnitude is below 9.2 * 10^11
      reads the same both ways. */
  lemma SmallTimestampsUnaffected(n: int)
    requires -922_337_203_685 <= n <= 922_337_203_685
    ensures ReadAutoRangedAsWritten(NumberToken(Some(n))) == ReadAutoRanged(NumberToken(Some(n)))
    ensures ReadMillisOrMicrosAsWritten(NumberToken(Some(n))) == ReadMillisOrMicros(NumberToken(Some(n)))
    ensures ConvertMillisOrMicrosAsWritten(NumberToken(Some(n))) == ConvertMillisOrMicros(NumberToken(Some(n)))
  {
    AsWrittenAgreesWithoutOverflow(NumberToken(Some(n)));
  }
}
