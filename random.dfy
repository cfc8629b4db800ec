/**
 * The id generators: random strings of letters and digits, optionally led
 * by a prefix read off the current time. `Math.random()` enters as the
 * sequence of draws `Math.floor(Math.random() * 62)`, and the date as the
 * text of its `toJSON()`.
 */
module RandomIds {
  import opened Wrappers
  import opened Strings

  /** One draw `Math.floor(Math.random() * 62)`. */
  type Draw = d: int | 0 <= d < 62

  const ShortLengthError := "Length must be at least 12"

  /** JavaScript's `%` by a positive divisor, which truncates toward zero. */
  function Rem(a: int, b: int): int
    requires b > 0
  {
    if a >= 0 then a % b else -((-a) % b)
  }

  /** `String(n)` for an integer. */
  function IntToString(n: int): string
  {
    if n >= 0 then NatToString(n) else "-" + NatToString(-n)
  }

  /** `toLowerCase` on one character, as far as the letters `A`–`Z` go. */
  function LowerCase(ch: char): char
  {
    if 'A' <= ch <= 'Z' then (ch as int + 32) as char else ch
  }

  predicate IsAlphaNumeric(ch: char)
  {
    '0' <= ch <= '9' || 'A' <= ch <= 'Z' || 'a' <= ch <= 'z'
  }

  /** `toAlphaNumericString(value)`. */
  function AlphaNumeric(value: int): (s: string)
    ensures value >= 0 ==> |s| == 1 && IsAlphaNumeric(s[0])
  {
    var which := Rem(value, 62);
    if which < 10 then IntToString(which)
    else if which < 36 then [(which + 55) as char]
    else [LowerCase((which + 29) as char)]
  }

  /** The index of a letter or digit in `0-9A-Za-z`. */
  function AlphaValue(ch: char): (v: int)
    requires IsAlphaNumeric(ch)
    ensures 0 <= v < 62
  {
    if ch <= '9' then ch as int - '0' as int
    else if ch <= 'Z' then ch as int - 'A' as int + 10
    else ch as int - 'a' as int + 36
  }

  /** Digits for 0–9, `A`–`Z` for 10–35, `a`–`z` for 36–61, all by one code-unit step. */
  lemma AlphaNumericRanges(value: int)
    requires value >= 0
    ensures var w, ch := value % 62, AlphaNumeric(value)[0];
      && (w < 10 ==> ch as int == '0' as int + w)
      && (10 <= w < 36 ==> ch as int == 'A' as int + (w - 10))
      && (36 <= w ==> ch as int == 'a' as int + (w - 36))
  {
    var w := value % 62;
    if w < 10 {
      assert AlphaNumeric(value) == NatToString(w) == [DigitChar(w)];
    }
  }

  /** The character of `value` gives back `value % 62`: the map is injective on 0..61. */
  lemma AlphaValueInverse(value: int)
    requires value >= 0
    ensures AlphaValue(AlphaNumeric(value)[0]) == value % 62
  {
    AlphaNumericRanges(value);
  }

  lemma AlphaNumericInjective(a: int, b: int)
    requires 0 <= a < 62 && 0 <= b < 62 && a != b
    ensures AlphaNumeric(a) != AlphaNumeric(b)
  {
    AlphaValueInverse(a);
    AlphaValueInverse(b);
  }

  /** The map has period 62. */
  lemma AlphaNumericPeriod(value: int)
    requires value >= 0
    ensures AlphaNumeric(value + 62) == AlphaNumeric(value)
  {
    assert (value + 62) % 62 == value % 62;
  }

  /** The characters of the first `n` draws. */
  function Drawn(draw: nat -> Draw, n: nat): (s: string)
    ensures |s| == n
    ensures forall i :: 0 <= i < n ==> s[i] == AlphaNumeric(draw(i))[0] && IsAlphaNumeric(s[i])
  {
    seq(n, i requires 0 <= i < n => AlphaNumeric(draw(i))[0])
  }

  /** `createRandomAlphaNumericString(length)`: `length` characters drawn one by one (none for a length of 0 or less). */
  method RandomAlphaNumeric(length: Option<int>, draw: nat -> Draw) returns (s: string)
    ensures var n := if length.Some? then length.value else 12;
      s == Drawn(draw, if n > 0 then n else 0)
  {
    var n := if length.Some? then length.value else 12;
    s := "";
    while |s| < n
      invariant |s| <= if n > 0 then n else 0
      invariant s == Drawn(draw, |s|)
      decreases n - |s|
    {
      s := s + AlphaNumeric(draw(|s|));
    }
  }

  /** Keeps the digits: `.replace(/[^0-9]+/g, '')`. */
  function DigitsOf(s: string): (d: string)
    ensures |d| <= |s|
    ensures forall k :: 0 <= k < |d| ==> IsDigit(d[k])
  {
    if |s| == 0 then ""
    else if IsDigit(s[0]) then [s[0]] + DigitsOf(s[1..])
    else DigitsOf(s[1..])
  }

  /** `nowStr`: the `toJSON()` text without its first two characters, digits only. */
  function NowDigits(json: string): (d: string)
    ensures forall k :: 0 <= k < |d| ==> IsDigit(d[k])
  {
    if |json| < 2 then "" else DigitsOf(json[2..])
  }

  /** The time prefix from position `i` on: one character per two digits, the last digit alone when their number is odd. */
  function TimePrefix(digits: string, i: nat): (s: string)
    requires forall k :: 0 <= k < |digits| ==> IsDigit(digits[k])
    decreases |digits| - i
  {
    if i >= |digits| then ""
    else
      var j := if i + 2 <= |digits| then i + 2 else |digits|;
      AlphaNumeric(DigitsValue(digits[i..j])) + TimePrefix(digits, j)
  }

  lemma {:induction false} TimePrefixShape(digits: string, i: nat)
    requires forall k :: 0 <= k < |digits| ==> IsDigit(digits[k])
    requires i <= |digits|
    ensures |TimePrefix(digits, i)| == (|digits| - i + 1) / 2
    ensures forall k :: 0 <= k < |TimePrefix(digits, i)| ==> IsAlphaNumeric(TimePrefix(digits, i)[k])
    decreases |digits| - i
  {
    if i < |digits| {
      var j := if i + 2 <= |digits| then i + 2 else |digits|;
      TimePrefixShape(digits, j);
    }
  }

  /** A `toJSON()` text has fifteen digits after its first two characters, so the prefix has eight. */
  lemma JsonPrefixLength(json: string)
    requires |NowDigits(json)| == 15
    ensures |TimePrefix(NowDigits(json), 0)| == 8
  {
    TimePrefixShape(NowDigits(json), 0);
  }

  /** What `createRandomTimePrefixedId` returns, with the draws numbered from 0 after the prefix. */
  function TimePrefixedId(length: Option<int>, json: string, draw: nat -> Draw): Result<string>
  {
    var n := if length.Some? then length.value else 16;
    if n < 16 then Err(ShortLengthError)
    else
      var prefix := TimePrefix(NowDigits(json), 0);
      Ok(prefix + Drawn(draw, if |prefix| < n then n - |prefix| else 0))
  }

  /** `createRandomTimePrefixedId(length, date)`. */
  method RandomTimePrefixedId(length: Option<int>, json: string, draw: nat -> Draw) returns (r: Result<string>)
    ensures r == TimePrefixedId(length, json, draw)
  {
    var n := if length.Some? then length.value else 16;
    if n < 16 {
      return Err(ShortLengthError);
    }
    var prefix := PrefixOf(NowDigits(json));
    var s := FillUp(prefix, n, draw);
    return Ok(s);
  }

  /** The loop over `nowStr`, two digits at a time. */
  method PrefixOf(now: string) returns (s: string)
    requires forall k :: 0 <= k < |now| ==> IsDigit(now[k])
    ensures s == TimePrefix(now, 0)
  {
    s := "";
    var i := 0;
    while i < |now|
      invariant 0 <= i <= |now|
      invariant s + TimePrefix(now, i) == TimePrefix(now, 0)
      decreases |now| - i
    {
      var j := if i + 2 <= |now| then i + 2 else |now|;
      var piece := AlphaNumeric(DigitsValue(now[i..j]));
      TimePrefixStep(now, i, j);
      Append3(s, piece, TimePrefix(now, j));
      s := s + piece;
      i := j;
    }
  }

  /** One step of the time prefix: the next one or two digits, then the rest. */
  lemma TimePrefixStep(now: string, i: nat, j: nat)
    requires forall k :: 0 <= k < |now| ==> IsDigit(now[k])
    requires i < |now| && j == if i + 2 <= |now| then i + 2 else |now|
    ensures TimePrefix(now, i) == AlphaNumeric(DigitsValue(now[i..j])) + TimePrefix(now, j)
  {
  }

  lemma Append3(a: string, b: string, c: string)
    ensures (a + b) + c == a + (b + c)
  {
  }

  /** The loop that draws characters until the string has `n` of them. */
  method FillUp(prefix: string, n: int, draw: nat -> Draw) returns (s: string)
    ensures s == prefix + Drawn(draw, if |prefix| < n then n - |prefix| else 0)
  {
    s := prefix;
    var k := 0;
    while |s| < n
      invariant |prefix| <= |s| && s == prefix + Drawn(draw, k) && k == |s| - |prefix|
      invariant |s| <= if |prefix| < n then n else |prefix|
      decreases n - |s|
    {
      assert Drawn(draw, k + 1) == Drawn(draw, k) + AlphaNumeric(draw(k));
      s := s + AlphaNumeric(draw(k));
      k := k + 1;
    }
    assert k == if |prefix| < n then n - |prefix| else 0;
  }


  /**
   * The id has exactly the requested length whenever the prefix is shorter,
   * and only letters and digits; a length under 16 throws, although the
   * message says 12.
   */
  lemma TimePrefixedIdShape(length: Option<int>, json: string, draw: nat -> Draw)
    ensures var n := if length.Some? then length.value else 16;
      TimePrefixedId(length, json, draw).Err? <==> n < 16
    ensures TimePrefixedId(length, json, draw).Err? ==> TimePrefixedId(length, json, draw).msg == ShortLengthError
    ensures var n := if length.Some? then length.value else 16;
      var r := TimePrefixedId(length, json, draw);
      r.Ok? ==> && (|TimePrefix(NowDigits(json), 0)| < n ==> |r.value| == n)
                && (forall k :: 0 <= k < |r.value| ==> IsAlphaNumeric(r.value[k]))
  {
    TimePrefixShape(NowDigits(json), 0);
  }
}
