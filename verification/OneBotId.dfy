/** Exact 64-bit identifiers as decimal strings. */
module OneBotId {
  import opened Prelude
  import opened Decimal

  const UINT64_MAX: string := "18446744073709551615"
  const INT64_MIN_ABSOLUTE: string := "9223372036854775808"
  const UINT64_LIMIT: nat := 0xffff_ffff_ffff_ffff
  const INT64_MIN_MAGNITUDE: nat := 0x8000_0000_0000_0000
  const MAX_RAW_DIGITS: nat := 128
  const MAX_SAFE_INTEGER: nat := 0x1f_ffff_ffff_ffff

  /** A JavaScript value: numbers are integers, negative zero, or anything else a number can be. */
  datatype Input =
    | Text(text: string)
    | Integer(value: int)
    | NegativeZero
    | OtherNumber
    | BigInt(value: int)
    | OtherType

  predicate IsSafe(n: int) {
    Absolute(n) <= MAX_SAFE_INTEGER
  }

  function Absolute(n: int): nat {
    if n < 0 then -n else n
  }

  function SignedNumeral(n: int): string {
    if n < 0 then "-" + Numeral(-n) else Numeral(n)
  }

  // ----- the program -----

  predicate WithinUnsigned64Bit(value: string) {
    |value| < |UINT64_MAX| || (|value| == |UINT64_MAX| && !Less(UINT64_MAX, value))
  }

  /** The digits of an input, or nothing where its type or form is refused. */
  function Digits(value: Input): Option<string> {
    match value
    case Text(text) =>
      if text == "" || |text| > MAX_RAW_DIGITS || !AllDigits(text) then None else Some(text)
    case Integer(n) => if !IsSafe(n) || n < 0 then None else Some(Numeral(n))
    case BigInt(n) => if n < 0 then None else Some(Numeral(n))
    case _ => None
  }

  function NormalizeOneBotId(value: Input, allowZero: bool): Option<string> {
    var digits := Digits(value);
    if digits.None? then None
    else
      var canonical := StripZeros(digits.value);
      if canonical == "0" && !allowZero then None
      else if WithinUnsigned64Bit(canonical) then Some(canonical) else None
  }

  predicate IsOneBotId(value: Input, allowZero: bool) {
    value.Text? && NormalizeOneBotId(value, allowZero) == Some(value.text)
  }

  predicate SignedDecimal(text: string) {
    if text != "" && text[0] == '-' then text[1..] != "" && AllDigits(text[1..]) else text != "" && AllDigits(text)
  }

  function SignedDigits(value: Input): Option<string> {
    match value
    case Text(text) => if |text| > MAX_RAW_DIGITS || !SignedDecimal(text) then None else Some(text)
    case Integer(n) => if !IsSafe(n) then None else Some(SignedNumeral(n))
    case BigInt(n) => Some(SignedNumeral(n))
    case _ => None
  }

  predicate BeyondSigned64Bit(digits: string) {
    |digits| > |INT64_MIN_ABSOLUTE| || (|digits| == |INT64_MIN_ABSOLUTE| && Less(INT64_MIN_ABSOLUTE, digits))
  }

  function HandleFromDigits(negative: bool, digits: string): Option<string> {
    if digits == "0" then None
    else if !negative then (if WithinUnsigned64Bit(digits) then Some(digits) else None)
    else if BeyondSigned64Bit(digits) then None
    else Some("-" + digits)
  }

  function NormalizeOneBotMessageId(value: Input): Option<string> {
    var raw := SignedDigits(value);
    if raw.None? then None
    else
      var negative := raw.value != "" && raw.value[0] == '-';
      HandleFromDigits(negative, StripZeros(if negative then raw.value[1..] else raw.value))
  }

  // ----- what it computes -----

  /** The number an input denotes exactly. */
  function Meaning(value: Input): Option<int> {
    match value
    case Text(text) =>
      if |text| > MAX_RAW_DIGITS || !SignedDecimal(text) then None
      else if text[0] == '-' then Some(0 - Value(text[1..]))
      else Some(Value(text))
    case Integer(n) => if IsSafe(n) then Some(n) else None
    case BigInt(n) => Some(n)
    case _ => None
  }

  predicate HasMinus(value: Input) {
    value.Text? && value.text != "" && value.text[0] == '-'
  }

  lemma FourDigits(s: string)
    requires AllDigits(s) && |s| == 4
    ensures Value(s) == 1000 * DigitValue(s[0]) + 100 * DigitValue(s[1]) + 10 * DigitValue(s[2]) + DigitValue(s[3])
  {
    var three, two, one := s[..3], s[..2], s[..1];
    assert three[..2] == two && two[..1] == one && one[..0] == [];
    assert Value(one) == DigitValue(s[0]);
    assert Value(two) == 10 * DigitValue(s[0]) + DigitValue(s[1]);
  }

  lemma AppendFour(s: string, four: string, v: nat)
    requires AllDigits(s) && Value(s) == v && AllDigits(four) && |four| == 4
    ensures AllDigits(s + four) && Value(s + four) == 10000 * v + Value(four)
  {
    ConcatValue(s, four);
    assert Pow10(2) == 100;
    assert Pow10(4) == 10000;
  }

  lemma UnsignedLimitIsExact()
    ensures Canonical(UINT64_MAX) && Value(UINT64_MAX) == UINT64_LIMIT
  {
    var a, b, c, d, e := "1844", "6744", "0737", "0955", "1615";
    FourDigits(a);
    FourDigits(b);
    FourDigits(c);
    FourDigits(d);
    FourDigits(e);
    AppendFour(a, b, 1844);
    AppendFour(a + b, c, 18446744);
    AppendFour(a + b + c, d, 184467440737);
    AppendFour(a + b + c + d, e, 1844674407370955);
    assert UINT64_MAX == a + b + c + d + e;
  }

  lemma SignedLimitIsExact()
    ensures Canonical(INT64_MIN_ABSOLUTE) && Value(INT64_MIN_ABSOLUTE) == INT64_MIN_MAGNITUDE
  {
    var a, b, c, d, e := "0922", "3372", "0368", "5477", "5808";
    FourDigits(a);
    FourDigits(b);
    FourDigits(c);
    FourDigits(d);
    FourDigits(e);
    AppendFour(a, b, 922);
    AppendFour(a + b, c, 9223372);
    AppendFour(a + b + c, d, 92233720368);
    AppendFour(a + b + c + d, e, 922337203685477);
    LeadingZero(INT64_MIN_ABSOLUTE, a + b + c + d + e);
  }

  lemma LeadingZero(s: string, padded: string)
    requires AllDigits(s) && padded == "0" + s
    ensures AllDigits(padded) && Value(padded) == Value(s)
  {
    ConcatValue("0", s);
    assert Value("0") == 0;
  }

  lemma {:induction false} ConcatValue(a: string, b: string)
    requires AllDigits(a) && AllDigits(b)
    ensures AllDigits(a + b) && Value(a + b) == Value(a) * Pow10(|b|) + Value(b)
    decreases |b|
  {
    if b == [] {
      assert a + b == a;
    } else {
      var front := b[..|b| - 1];
      ConcatValue(a, front);
      assert (a + b)[..|a + b| - 1] == a + front;
      TenTimes(Value(a), Pow10(|front|), Value(front));
    }
  }

  lemma WithinIsBounded(canonical: string)
    requires Canonical(canonical)
    ensures WithinUnsigned64Bit(canonical) <==> Value(canonical) <= UINT64_LIMIT
  {
    UnsignedLimitIsExact();
    ShorterIsSmaller(UINT64_MAX, canonical);
  }

  lemma ZeroNumeral(s: string)
    requires Canonical(s)
    ensures s == "0" <==> Value(s) == 0
  {
    CanonicalIsNumeral(s);
    assert Numeral(0) == "0";
  }

  /**
   An account identifier is accepted exactly when it denotes a number from 1 (or 0 where allowed) to 2^64 - 1 without a
   sign, and the result is that number's one numeral.
   */
  lemma IdentifiersAreExact(value: Input, allowZero: bool)
    ensures NormalizeOneBotId(value, allowZero)
         == match Meaning(value)
            case Some(n) =>
              if !HasMinus(value) && (if allowZero then 0 else 1) <= n <= UINT64_LIMIT then Some(Numeral(n)) else None
            case None => None
  {
    DigitsRead(value);
    if Digits(value).Some? {
      NumeralsAreExact(Digits(value).value);
    }
  }

  /** The digits of an input are those of the number it denotes, if that has no sign. */
  lemma DigitsRead(value: Input)
    ensures match Digits(value)
            case Some(digits) =>
              digits != "" && AllDigits(digits) && !HasMinus(value) && Meaning(value) == Some(Value(digits))
            case None => match Meaning(value)
                         case Some(n) => HasMinus(value) || n < 0
                         case None => true
  {
    match value
    case Integer(n) => if n >= 0 { NumeralIsExact(n); }
    case BigInt(n) => if n >= 0 { NumeralIsExact(n); }
    case _ =>
  }

  lemma NumeralsAreExact(digits: string)
    requires digits != "" && AllDigits(digits)
    ensures var n, canonical := Value(digits), StripZeros(digits);
            && canonical == Numeral(n) && (canonical == "0" <==> n == 0)
            && (WithinUnsigned64Bit(canonical) <==> n <= UINT64_LIMIT)
  {
    StripZerosIsCanonical(digits);
    StrippedIsNumeral(digits);
    ZeroNumeral(StripZeros(digits));
    WithinIsBounded(StripZeros(digits));
  }

  lemma SignedRead(value: Input)
    requires SignedDigits(value).Some?
    ensures var raw := SignedDigits(value).value;
            && Meaning(value).Some? && raw != []
            && (raw[0] == '-' ==> raw[1..] != [] && AllDigits(raw[1..]) && Meaning(value).value == -(Value(raw[1..]) as int))
            && (raw[0] != '-' ==> AllDigits(raw) && Meaning(value).value == Value(raw))
  {
    match value {
      case Integer(n) => NumeralIsExact(Absolute(n));
      case BigInt(n) => NumeralIsExact(Absolute(n));
      case _ =>
    }
  }

  lemma BeyondIsBounded(digits: string)
    requires Canonical(digits)
    ensures BeyondSigned64Bit(digits) <==> Value(digits) > INT64_MIN_MAGNITUDE
  {
    SignedLimitIsExact();
    ShorterIsSmaller(INT64_MIN_ABSOLUTE, digits);
  }

  lemma HandlesAreExact(negative: bool, digits: string)
    requires digits != "" && AllDigits(digits)
    ensures var n := if negative then -(Value(digits) as int) else Value(digits);
            HandleFromDigits(negative, StripZeros(digits))
            == if n != 0 && -(INT64_MIN_MAGNITUDE as int) <= n <= UINT64_LIMIT then Some(SignedNumeral(n)) else None
  {
    StripZerosIsCanonical(digits);
    StrippedIsNumeral(digits);
    ZeroNumeral(StripZeros(digits));
    if negative {
      BeyondIsBounded(StripZeros(digits));
    } else {
      WithinIsBounded(StripZeros(digits));
    }
  }

  /** A message handle is accepted exactly when it is not zero and lies between -2^63 and 2^64 - 1. */
  lemma MessageIdentifiersAreExact(value: Input)
    ensures NormalizeOneBotMessageId(value)
         == match Meaning(value)
            case Some(n) =>
              if n != 0 && -(INT64_MIN_MAGNITUDE as int) <= n <= UINT64_LIMIT then Some(SignedNumeral(n)) else None
            case None => None
  {
    if SignedDigits(value).Some? {
      SignedRead(value);
      var raw := SignedDigits(value).value;
      HandlesAreExact(raw[0] == '-', if raw[0] == '-' then raw[1..] else raw);
    }
  }

  /** Normalizing twice is normalizing once, and two inputs share a result exactly when they denote one number. */
  lemma NormalFormIsUnique(x: Input, y: Input, allowZero: bool)
    requires NormalizeOneBotId(x, allowZero).Some? && NormalizeOneBotId(y, allowZero).Some?
    ensures NormalizeOneBotId(x, allowZero) == NormalizeOneBotId(y, allowZero) <==> Meaning(x) == Meaning(y)
    ensures NormalizeOneBotId(Text(NormalizeOneBotId(x, allowZero).value), allowZero) == NormalizeOneBotId(x, allowZero)
  {
    IdentifiersAreExact(x, allowZero);
    IdentifiersAreExact(y, allowZero);
    NumeralIsExact(Meaning(x).value);
    NumeralIsExact(Meaning(y).value);
    var text := NormalizeOneBotId(x, allowZero).value;
    CanonicalWithinLimitIsShort(text);
    IdentifiersAreExact(Text(text), allowZero);
  }

  lemma CanonicalWithinLimitIsShort(s: string)
    requires Canonical(s) && Value(s) <= UINT64_LIMIT
    ensures |s| <= 20
  {
    WithinIsBounded(s);
  }

  // ----- the database's checks -----

  /** The check on identifier columns. */
  predicate TextIdCheck(s: string) {
    && s != "" && s != "0"
    && AllDigits(s)
    && (|s| == 1 || s[..1] != "0")
    && (|s| < 20 || (|s| == 20 && !Less(UINT64_MAX, s)))
  }

  /** The search for rows that break it. */
  predicate InvalidIdentifier(s: string) {
    || s == "" || s == "0"
    || !AllDigits(s)
    || (|s| > 1 && s[..1] == "0")
    || |s| > 20
    || (|s| == 20 && Less(UINT64_MAX, s))
  }

  /** The program, the column check and the search agree on every text. */
  lemma ChecksAgree(s: string)
    ensures IsOneBotId(Text(s), false) <==> TextIdCheck(s)
    ensures TextIdCheck(s) <==> !InvalidIdentifier(s)
    ensures TextIdCheck(s) <==> Canonical(s) && 1 <= Value(s) <= UINT64_LIMIT
  {
    if s != "" && AllDigits(s) {
      StrippedIsNumeral(s);
      NumeralIsExact(Value(s));
      if Canonical(s) {
        CanonicalIsNumeral(s);
        WithinIsBounded(s);
        ZeroNumeral(s);
      } else {
        assert StripZeros(s) != s;
      }
    }
    assert |s| >= 1 ==> (s[..1] == "0" <==> s[0] == '0');
  }
}
