/** The `assert_eq` command: split the argument text on whitespace, demand two
    tokens, parse each as an `i32` the way `str::parse::<i32>` does, and compare. */
module AssertEq {
  import opened Text

  /** The kinds of `ParseIntError`. */
  datatype IntErrorKind = Empty | InvalidDigit | PosOverflow | NegOverflow

  predicate IsDigit(c: char) {
    '0' <= c <= '9'
  }

  function DigitValue(c: char): (d: nat)
    requires IsDigit(c)
    ensures d < 10
  {
    c as int - '0' as int
  }

  /** One step of the digit loop: multiply by ten and add (or, for a negative
      number, subtract) the digit, each checked against the `i32` range. */
  function Step(acc: int, c: char, negative: bool): (r: Result<int, IntErrorKind>)
    ensures r.Ok? ==> InI32(r.value)
  {
    if !IsDigit(c) then Err(InvalidDigit)
    else
      var overflow := if negative then NegOverflow else PosOverflow;
      var scaled := acc * 10;
      if !InI32(scaled) then Err(overflow)
      else
        var next := if negative then scaled - DigitValue(c) else scaled + DigitValue(c);
        if !InI32(next) then Err(overflow) else Ok(next)
  }

  /** The digit loop, left to right; the first failing character decides the error. */
  function Accumulate(acc: int, digits: string, negative: bool): (r: Result<int, IntErrorKind>)
    requires InI32(acc)
    ensures r.Ok? ==> InI32(r.value)
    ensures r.Err? ==> r.error != Empty
    decreases |digits|
  {
    if digits == [] then Ok(acc)
    else match Step(acc, digits[0], negative)
      case Err(e) => Err(e)
      case Ok(next) => Accumulate(next, digits[1..], negative)
  }

  /** `str::parse::<i32>`: an optional sign, then at least one decimal digit. */
  function ParseI32(s: string): (r: Result<int, IntErrorKind>)
    ensures r.Ok? ==> InI32(r.value)
    ensures s == [] <==> r == Err(Empty)
  {
    if s == [] then Err(Empty)
    else if (s[0] == '+' || s[0] == '-') && |s| == 1 then Err(InvalidDigit)
    else if s[0] == '+' then Accumulate(0, s[1..], false)
    else if s[0] == '-' then Accumulate(0, s[1..], true)
    else Accumulate(0, s, false)
  }

  /** Running the loop over a longer string is running it over the prefix and then
      taking one more step. */
  lemma {:induction false} AccumulateSnoc(acc: int, digits: string, c: char, negative: bool)
    requires InI32(acc)
    ensures Accumulate(acc, digits + [c], negative) ==
      match Accumulate(acc, digits, negative)
      case Err(e) => Err(e)
      case Ok(v) => Step(v, c, negative)
    decreases |digits|
  {
    if digits == [] {
      assert digits + [c] == [c];
      assert [c][1..] == [];
    } else {
      assert (digits + [c])[0] == digits[0];
      assert (digits + [c])[1..] == digits[1..] + [c];
      match Step(acc, digits[0], negative)
      case Err(_) =>
      case Ok(next) => AccumulateSnoc(next, digits[1..], c, negative);
    }
  }

  /** The digits of a natural number within the range accumulate back to it,
      with the sign given. */
  lemma {:induction false} AccumulateDecimal(n: nat, negative: bool)
    requires if negative then n <= -I32Min else n <= I32Max
    ensures Accumulate(0, NatToString(n), negative) == Ok((if negative then -1 else 1) * n)
  {
    var d := n % 10;
    if n < 10 {
      assert NatToString(n) == [DigitChar(n)];
      assert DigitValue(DigitChar(n)) == n;
    } else {
      AccumulateDecimal(n / 10, negative);
      AccumulateSnoc(0, NatToString(n / 10), DigitChar(d), negative);
      assert DigitValue(DigitChar(d)) == d;
    }
  }

  /** Round trip: every `i32`, printed in decimal, parses back to itself. */
  lemma ParseFormatted(v: int)
    requires InI32(v)
    ensures ParseI32(IntToString(v)) == Ok(v)
  {
    if v < 0 {
      AccumulateDecimal(-v, true);
      var s := IntToString(v);
      assert s[1..] == NatToString(-v);
      assert |s| > 1;
    } else {
      AccumulateDecimal(v, false);
      var s := NatToString(v);
      assert IsDigit(s[0]);
    }
  }

  /** The loop succeeds only on digits. */
  lemma {:induction false} AccumulateOnlyDigits(acc: int, digits: string, negative: bool)
    requires InI32(acc)
    ensures Accumulate(acc, digits, negative).Ok? ==> forall k :: 0 <= k < |digits| ==> IsDigit(digits[k])
    decreases |digits|
  {
    if digits != [] && Accumulate(acc, digits, negative).Ok? {
      AccumulateOnlyDigits(Step(acc, digits[0], negative).value, digits[1..], negative);
      forall k | 1 <= k < |digits| ensures IsDigit(digits[k]) {
        assert digits[k] == digits[1..][k - 1];
      }
    }
  }

  /** Only an optional sign followed by at least one digit parses: any other
      character, a lone sign or the empty string is an error. */
  lemma ParseOnlyDecimal(s: string)
    ensures ParseI32(s).Ok? ==>
      && (IsDigit(s[0]) || (|s| > 1 && (s[0] == '+' || s[0] == '-')))
      && forall k :: 0 < k < |s| ==> IsDigit(s[k])
  {
    if s != [] {
      if s[0] == '+' || s[0] == '-' {
        AccumulateOnlyDigits(0, s[1..], s[0] == '-');
        if ParseI32(s).Ok? {
          forall k | 0 < k < |s| ensures IsDigit(s[k]) {
            assert s[k] == s[1..][k - 1];
          }
        }
      } else {
        AccumulateOnlyDigits(0, s, false);
      }
    }
  }

  /** What `execute` does: it returns, having printed some lines, or it panics. */
  datatype Outcome = Returned(printed: seq<string>) | Panicked(message: string)

  function KindName(e: IntErrorKind): string {
    match e
    case Empty => "Empty"
    case InvalidDigit => "InvalidDigit"
    case PosOverflow => "PosOverflow"
    case NegOverflow => "NegOverflow"
  }

  /** The panic message of `expect("failed to parse to i32")` on a parse error. */
  function ParseFailure(e: IntErrorKind): string {
    "failed to parse to i32: ParseIntError { kind: " + KindName(e) + " }"
  }

  /** The panic message of `assert_eq` for two different values. */
  function MismatchMessage(left: int, right: int): string {
    "assertion left == right failed: \nleft: " + IntToString(left) + " \nright: " + IntToString(right)
  }

  /** `assert_eq`: `true` for equal values; different values panic with both
      values in the message, so it never returns `false`. */
  function AssertEqual(left: int, right: int): (r: Result<bool, string>)
    ensures r.Ok? <==> left == right
    ensures r.Ok? ==> r.value
    ensures r.Err? ==> r.error == MismatchMessage(left, right)
  {
    if left == right then Ok(true) else Err(MismatchMessage(left, right))
  }

  /** The line `execute` prints for a token count other than two. */
  function ArityMessage(count: nat): string {
    "assert_eq takes 2 arguments but " + NatToString(count) + " arguments was supplied"
  }

  /** `execute`: a wrong token count is reported and returns; with two tokens it
      never prints, and either returns quietly for two equal `i32` values or
      panics: on the first token that does not parse, else on the mismatch. */
  function Execute(args: string): (r: Outcome)
    ensures r.Panicked? ==> |SplitWhitespace(args)| == 2
    ensures r == Returned([]) <==>
      var values := SplitWhitespace(args);
      |values| == 2 && ParseI32(values[0]).Ok? && ParseI32(values[0]) == ParseI32(values[1])
    ensures var values := SplitWhitespace(args);
      |values| != 2 ==> r == Returned([ArityMessage(|values|)])
    ensures var values := SplitWhitespace(args);
      |values| == 2 ==> r.Panicked? || r == Returned([])
    ensures var values := SplitWhitespace(args);
      |values| == 2 && ParseI32(values[0]).Err? ==>
        r == Panicked(ParseFailure(ParseI32(values[0]).error))
    ensures var values := SplitWhitespace(args);
      |values| == 2 && ParseI32(values[0]).Ok? && ParseI32(values[1]).Err? ==>
        r == Panicked(ParseFailure(ParseI32(values[1]).error))
    ensures var values := SplitWhitespace(args);
      |values| == 2 && ParseI32(values[0]).Ok? && ParseI32(values[1]).Ok?
        && ParseI32(values[0]).value != ParseI32(values[1]).value ==>
        r == Panicked(MismatchMessage(ParseI32(values[0]).value, ParseI32(values[1]).value))
  {
    var values := SplitWhitespace(args);
    if |values| != 2 then
      Returned([ArityMessage(|values|)])
    else match ParseI32(values[0])
      case Err(e) => Panicked(ParseFailure(e))
      case Ok(left) =>
        match ParseI32(values[1])
        case Err(e) => Panicked(ParseFailure(e))
        case Ok(right) =>
          match AssertEqual(left, right)
          case Ok(_) => Returned([])
          case Err(message) => Panicked(message)
  }

  /** Extra whitespace between, before or after the arguments changes nothing. */
  lemma ExecuteExtraWhitespace(a: string, w: char, b: string)
    requires IsWhitespace(w)
    requires a == [] || b == [] || IsWhitespace(a[|a| - 1]) || IsWhitespace(b[0])
    ensures Execute(a + [w] + b) == Execute(a + b)
  {
    SplitWhitespaceExtraSpace(a, w, b);
  }

  lemma IntToStringIsWord(v: int)
    ensures IntToString(v) != [] && NoWhitespace(IntToString(v))
  {
    var s := IntToString(v);
    forall k | 0 <= k < |s| ensures !IsWhitespace(s[k]) {
      assert s[k] == '-' || '0' <= s[k] <= '9';
    }
  }

  /** `assert_eq x y` with two `i32` values in decimal returns quietly when they are
      equal and panics with both values otherwise. */
  lemma ExecuteFormatted(x: int, y: int)
    requires InI32(x) && InI32(y)
    ensures Execute(IntToString(x) + " " + IntToString(y)) ==
      if x == y then Returned([]) else Panicked(MismatchMessage(x, y))
  {
    var words := [IntToString(x), IntToString(y)];
    IntToStringIsWord(x);
    IntToStringIsWord(y);
    assert JoinWords(words[1..]) == IntToString(y);
    assert JoinWords(words) == IntToString(x) + " " + IntToString(y);
    SplitJoinWords(words);
    ParseFormatted(x);
    ParseFormatted(y);
  }
}
