/** The hand-written decimal printer and parser of 64-bit IDs. */
module Int64Texts {
  import opened Results
  import opened Int64s
  import opened Decimals
  import opened Snowflakes

  datatype ParseError = EmptyString | InvalidCharacter

  /** What is printed: decimal text, except that the minimum, whose negation is itself, loses its digits. */
  function Printed(n: int): string {
    if n == MIN_INT64 then "-" else if n < 0 then "-" + Itoa(-n) else Itoa(n)
  }

  function DigitValue(c: char): int {
    c as int - '0' as int
  }

  /** The digits read so far, in wrapping 64-bit arithmetic. */
  function Value(digits: string): int {
    if digits == [] then 0 else
      Wrap(Wrap(Value(digits[..|digits| - 1]) * 10) + DigitValue(digits[|digits| - 1]))
  }

  function Body(s: string): string {
    if s != [] && s[0] == '-' then s[1..] else s
  }

  function Parsed(s: string): Result<int, ParseError> {
    if s == [] then Err(EmptyString)
    else if exists i :: 0 <= i < |Body(s)| && !IsDigit(Body(s)[i]) then Err(InvalidCharacter)
    else Ok(if s[0] == '-' then Wrap(-Value(Body(s))) else Value(Body(s)))
  }

  function Pow10(k: nat): (r: nat)
    ensures r > 0
  {
    if k == 0 then 1 else 10 * Pow10(k - 1)
  }

  lemma NineteenDigits()
    ensures Pow10(19) > TWO_63
  {
    assert Pow10(5) == 100000;
    assert Pow10(10) == 10000000000;
    assert Pow10(15) == 1000000000000000;
  }

  /** The digits still to be written, in front of those already in the buffer. */
  function Pending(n: int): string {
    if n <= 0 then "" else Itoa(n)
  }

  lemma LastDigit(n: int)
    requires n > 0
    ensures Pending(n) == Pending(n / 10) + [Digit(n % 10)]
  {
  }

  lemma OnePlaceLess(n: int, k: nat)
    requires 0 < n < Pow10(k)
    ensures k > 0 && n / 10 < Pow10(k - 1)
  {
  }

  /** One turn of the digit loop. */
  lemma DigitWritten(m: int, written: string, n: int)
    requires m > 0 && Pending(m) + written == Pending(n)
    ensures Pending(m / 10) + ([Digit(m % 10)] + written) == Pending(n)
  {
    LastDigit(m);
    hide Pending, Digit;
  }

  /** The digit loop: fills the buffer from its end and never leaves it. */
  method WriteDigits(buf: array<char>, n: int) returns (i: nat)
    requires buf.Length == 20 && n < TWO_63
    modifies buf
    ensures 0 < i <= 20
    ensures buf[i..] == Pending(n)
  {
    i := buf.Length;
    var m := n;
    NineteenDigits();
    assert buf[20..] == [] && Pending(n) + [] == Pending(n);
    hide Pending, Pow10, Itoa, Digit;
    while m > 0
      invariant 0 < i <= 20
      invariant m > 0 ==> m < Pow10(i - 1)
      invariant Pending(m) + buf[i..] == Pending(n)
    {
      DigitWritten(m, buf[i..], n);
      OnePlaceLess(m, i - 1);
      ghost var written := buf[i..];
      i := i - 1;
      buf[i] := Digit(m % 10);
      m := m / 10;
      assert buf[i..] == [buf[i]] + written;
    }
    NothingPending(m);
    assert [] + buf[i..] == buf[i..];
  }

  lemma NothingPending(m: int)
    requires m <= 0
    ensures Pending(m) == ""
  {
  }

  /** The sign, and the digits of the magnitude in 64-bit arithmetic. */
  lemma PrintedParts(n: int)
    requires IsInt64(n)
    ensures n == 0 ==> Printed(n) == "0"
    ensures n > 0 ==> Printed(n) == Pending(n)
    ensures n < 0 ==> Printed(n) == "-" + Pending(Wrap(-n)) && Wrap(-n) < TWO_63
  {
    assert Itoa(0) == "0";
    WrapHigh(TWO_63);
    hide Wrap, Itoa;
  }

  method Int64ToString(n: int) returns (s: string)
    requires IsInt64(n)
    ensures s == Printed(n)
  {
    hide Wrap, Printed, Pending, Itoa;
    PrintedParts(n);
    if n == 0 {
      return "0";
    }
    var buf := new char[20];
    var neg := n < 0;
    var m := n;
    if neg {
      m := Wrap(-n);
    }
    var i := WriteDigits(buf, m);
    if neg {
      ghost var digits := buf[i..];
      i := i - 1;
      buf[i] := '-';
      assert buf[i..] == "-" + digits;
    }
    s := buf[i..];
  }

  function Start(s: string): nat {
    if s != [] && s[0] == '-' then 1 else 0
  }

  /** The scan got to position `i`, read digits only, and `n` is their value. */
  ghost predicate ReadTo(s: string, i: nat, n: int) {
    && Start(s) <= i <= |s| && n == Value(s[Start(s)..i])
    && forall j :: Start(s) <= j < i ==> IsDigit(s[j])
  }

  lemma ReadNothing(s: string)
    requires s != []
    ensures Start(s) == (if s[0] == '-' then 1 else 0) && ReadTo(s, Start(s), 0)
  {
    assert s[Start(s)..Start(s)] == [];
  }

  lemma ReadDigit(s: string, i: nat, n: int)
    requires i < |s| && ReadTo(s, i, n)
    ensures if '0' <= s[i] <= '9' then ReadTo(s, i + 1, Wrap(Wrap(n * 10) + (s[i] as int - '0' as int)))
            else Parsed(s) == Err(InvalidCharacter)
  {
    hide Wrap;
    assert s[Start(s)..i + 1][..i - Start(s)] == s[Start(s)..i];
    assert Body(s)[i - Start(s)] == s[i];
  }

  lemma ReadAll(s: string, n: int)
    requires s != [] && ReadTo(s, |s|, n)
    ensures Parsed(s) == Ok(if s[0] == '-' then Wrap(-n) else n)
  {
    hide Wrap, Value;
    assert Body(s) == s[Start(s)..|s|];
    assert forall j :: 0 <= j < |Body(s)| ==> Body(s)[j] == s[Start(s) + j];
  }

  method StringToInt64(s: string) returns (r: Result<int, ParseError>)
    ensures r == Parsed(s)
  {
    if |s| == 0 {
      return Err(EmptyString);
    }
    hide *;
    var n := 0;
    var neg := false;
    var start := 0;
    if s[0] == '-' {
      neg := true;
      start := 1;
    }
    ReadNothing(s);
    for i := start to |s|
      invariant ReadTo(s, i, n)
    {
      ReadDigit(s, i, n);
      if s[i] < '0' || s[i] > '9' {
        return Err(InvalidCharacter);
      }
      n := Wrap(Wrap(n * 10) + (s[i] as int - '0' as int));
    }
    ReadAll(s, n);
    if neg {
      n := Wrap(-n);
    }
    return Ok(n);
  }

  /** Reading printed digits never leaves the 64-bit range. */
  lemma {:induction false} ValueOfItoa(n: nat)
    requires n < TWO_63
    ensures Value(Itoa(n)) == n
    decreases n
  {
    hide Wrap;
    if n < 10 {
      assert Itoa(n)[..0] == [];
      assert Value(Itoa(n)) == Wrap(Wrap(0) + n);
    } else {
      ValueOfItoa(n / 10);
      assert Itoa(n)[..|Itoa(n)| - 1] == Itoa(n / 10);
    }
  }

  function Meaning(s: string): int {
    if s != [] && s[0] == '-' then -Decimal(Body(s)) else Decimal(Body(s))
  }

  lemma WrapDigit(x: int, d: int)
    ensures Wrap(Wrap(Wrap(x) * 10) + d) == Wrap(x * 10 + d)
  {
    var j := WrapTurns(x);
    var k := WrapTurns(Wrap(x) * 10);
    hide Wrap;
    assert Wrap(Wrap(x) * 10) + d == x * 10 + d + TWO_64 * (10 * j + k);
    WrapShift(x * 10 + d, 10 * j + k);
  }

  lemma {:induction false} ValueIsWrapped(digits: string)
    ensures Value(digits) == Wrap(Decimal(digits))
  {
    if digits != [] {
      var front := digits[..|digits| - 1];
      ValueIsWrapped(front);
      hide Wrap;
      WrapDigit(Decimal(front), DigitValue(digits[|digits| - 1]));
    }
  }

  lemma WrapNegated(x: int)
    ensures Wrap(-Wrap(x)) == Wrap(-x)
  {
    var k := WrapTurns(x);
    hide Wrap;
    assert -Wrap(x) == -x + TWO_64 * -k;
    WrapShift(-x, -k);
  }

  lemma WrapFits(x: int)
    ensures Wrap(x) == x <==> IsInt64(x)
  {
  }

  /** The two errors: no text at all, and a character other than a digit after an optional minus sign. */
  lemma ErrorsIff(s: string)
    ensures Parsed(s) == Err(EmptyString) <==> s == ""
    ensures Parsed(s) == Err(InvalidCharacter) <==>
              s != "" && exists i :: (if s[0] == '-' then 1 else 0) <= i < |s| && !('0' <= s[i] <= '9')
  {
    hide Wrap, Value;
    if s != "" {
      var start := if s[0] == '-' then 1 else 0;
      assert forall i :: 0 <= i < |Body(s)| ==> Body(s)[i] == s[start + i];
      if i :| start <= i < |s| && !('0' <= s[i] <= '9') {
        assert !IsDigit(Body(s)[i - start]);
      }
    }
  }

  /** A text of digits, with or without a minus sign, is read as what it means exactly if that fits in
      64 bits; otherwise it wraps, without an error. */
  lemma ReadsIffFits(s: string)
    requires s != [] && forall i :: 0 <= i < |Body(s)| ==> IsDigit(Body(s)[i])
    ensures Parsed(s) == Ok(Wrap(Meaning(s)))
    ensures Parsed(s) == Ok(Meaning(s)) <==> IsInt64(Meaning(s))
  {
    hide Wrap, Value, Decimal, IsDigit;
    ValueIsWrapped(Body(s));
    WrapNegated(Decimal(Body(s)));
    WrapFits(Meaning(s));
  }

  lemma Digits(n: nat)
    ensures Body(Itoa(n)) == Itoa(n) && Itoa(n)[0] != '-'
  {
    assert IsDigit(Itoa(n)[0]);
  }

  /** Printing and parsing round-trip on every 64-bit value but the minimum. */
  lemma RoundTripIff(n: int)
    requires IsInt64(n)
    ensures Parsed(Printed(n)) == Ok(n) <==> n != MIN_INT64
  {
    hide Itoa, Value;
    if n == MIN_INT64 {
      assert Body("-") == "";
      assert Parsed("-") == Ok(Wrap(-Value("")));
      EmptyValue();
    } else if n < 0 {
      ValueOfItoa(-n);
      assert Body("-" + Itoa(-n)) == Itoa(-n);
    } else {
      ValueOfItoa(n);
      Digits(n);
    }
  }

  lemma EmptyValue()
    ensures Value("") == 0
  {
  }

  /** So an ID printed by `GenerateString` is recovered by `ParseString` in all its parts, before 2^41. */
  lemma IdTextRoundTrip(id: ID)
    requires ValidParts(id) && id.timestamp < TWO_41
    ensures Parsed(Printed(Pack(id))).Ok? && Parse(Parsed(Printed(Pack(id))).value) == id
  {
    ParsePack(id);
    PackedRange(id);
    hide Pack, Parse, Parsed, Printed;
    RoundTripIff(Pack(id));
  }
}
