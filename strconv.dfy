/**
 * Base-10 conversion between `uint64` and text: `strconv.ParseUint(s, 10, 64)`
 * and the `%d` verb of `fmt.Sprintf`.
 */
module Strconv {
  import opened GoTypes
  import opened Wrappers

  predicate IsDigit(c: char)
  {
    '0' <= c <= '9'
  }

  predicate AllDigits(s: string)
  {
    forall i :: 0 <= i < |s| ==> IsDigit(s[i])
  }

  /** The number a digit string denotes, most significant digit first. */
  function DecimalValue(s: string): nat
    requires AllDigits(s)
  {
    if s == [] then 0 else 10 * DecimalValue(s[..|s| - 1]) + (s[|s| - 1] - '0') as int
  }

  /** The two ways `strconv.ParseUint` fails: a bad character or an empty input, and overflow. */
  datatype NumError = ErrSyntax | ErrRange

  /** Go's overflow guard for base 10: a value at or above it cannot take one more digit. */
  const CUTOFF: nat := (TWO_TO_THE_64 - 1) / 10 + 1

  /**
   * The digit loop of `strconv.ParseUint(s, 10, 64)` from index `i` with `n`
   * accumulated so far: a non-digit is a syntax error; `n >= CUTOFF`, or a
   * `n * 10 + d` that wraps below `n` in 64 bits, is a range error.  The
   * first error met decides.
   */
  function ParseDigits(s: string, i: nat, n: uint64): Result<uint64, NumError>
    requires i <= |s|
    decreases |s| - i
  {
    if i == |s| then Success(n)
    else if !IsDigit(s[i]) then Failure(ErrSyntax)
    else if n >= CUTOFF then Failure(ErrRange)
    else
      var n1 := (n * 10 + (s[i] - '0') as int) % TWO_TO_THE_64;
      if n1 < n then Failure(ErrRange) else ParseDigits(s, i + 1, n1)
  }

  /**
   * `strconv.ParseUint(s, 10, 64)`: the empty string is a syntax error,
   * otherwise the digit loop runs from 0.  No sign, no prefix and no
   * underscore is accepted in base 10.
   */
  function ParseUint(s: string): (r: Result<uint64, NumError>)
    ensures r.Success? <==> s != [] && AllDigits(s) && DecimalValue(s) < TWO_TO_THE_64
    ensures r.Success? ==> r.value == DecimalValue(s)
    ensures s != [] && AllDigits(s) && DecimalValue(s) >= TWO_TO_THE_64 ==> r == Failure(ErrRange)
  {
    if s == [] then Failure(ErrSyntax)
    else
      assert s[..0] == [];
      ParseDigitsSpec(s, 0, 0);
      ParseDigits(s, 0, 0)
  }

  /**
   * From a digit prefix whose value is `n`, the loop succeeds exactly when
   * the whole string is digits and its value fits in 64 bits, yields that
   * value, and fails on an all-digit string only by overflow.
   */
  lemma {:induction false} ParseDigitsSpec(s: string, i: nat, n: uint64)
    requires i <= |s| && AllDigits(s[..i]) && n == DecimalValue(s[..i])
    ensures var r := ParseDigits(s, i, n);
      (r.Success? <==> AllDigits(s) && DecimalValue(s) < TWO_TO_THE_64) &&
      (r.Success? ==> r.value == DecimalValue(s)) &&
      (AllDigits(s) && r.Failure? ==> r.error == ErrRange)
    decreases |s| - i
  {
    if i == |s| {
      assert s[..i] == s;
    } else if IsDigit(s[i]) {
      var next := s[..i + 1];
      assert next[..i] == s[..i];
      var d := (s[i] - '0') as int;
      var exact := n * 10 + d;
      assert AllDigits(next) && DecimalValue(next) == exact;
      if n < CUTOFF {
        WrapStep(n, d);
      }
      if n >= CUTOFF || exact >= TWO_TO_THE_64 {
        if AllDigits(s) {
          DecimalValuePrefix(s, i + 1);
        }
      } else {
        ParseDigitsSpec(s, i + 1, exact);
      }
    }
  }

  /**
   * Below the cutoff one more digit wraps at most once, and it wraps exactly
   * when the exact value reaches 2^64, in which case the result drops below
   * `n`: Go's `n1 < n` test detects overflow and nothing else.
   */
  lemma WrapStep(n: nat, d: nat)
    requires n < CUTOFF && d < 10
    ensures n * 10 + d < TWO_TO_THE_64 ==> (n * 10 + d) % TWO_TO_THE_64 == n * 10 + d >= n
    ensures n * 10 + d >= TWO_TO_THE_64 ==> (n * 10 + d) % TWO_TO_THE_64 == n * 10 + d - TWO_TO_THE_64 < n
  {
    var x := n * 10 + d;
    if x >= TWO_TO_THE_64 {
      assert x - TWO_TO_THE_64 < TWO_TO_THE_64;
    }
  }

  /** Leading zeros are accepted; a sign, a base prefix and the empty string are syntax errors. */
  lemma ParseUintExamples()
    ensures ParseUint("007") == Success(7)
    ensures ParseUint("") == Failure(ErrSyntax) && ParseUint("+1") == Failure(ErrSyntax)
    ensures ParseUint("0x1") == Failure(ErrSyntax)
  {}

  /** Appending digits never lowers the value: a prefix denotes at most the whole. */
  lemma {:induction false} DecimalValuePrefix(s: string, i: nat)
    requires AllDigits(s) && i <= |s|
    ensures AllDigits(s[..i]) && DecimalValue(s[..i]) <= DecimalValue(s)
    decreases |s|
  {
    if i == |s| {
      assert s[..i] == s;
    } else {
      var init := s[..|s| - 1];
      assert init[..i] == s[..i];
      DecimalValuePrefix(init, i);
    }
  }

  function DigitChar(d: nat): (c: char)
    requires d < 10
    ensures IsDigit(c) && (c - '0') as int == d
  {
    ('0' as int + d) as char
  }

  /**
   * `fmt.Sprintf("%d", n)`: the shortest decimal spelling of `n`, which has
   * no leading zero unless it is "0" itself.
   */
  function FormatUint(n: nat): string
  {
    if n < 10 then [DigitChar(n)] else FormatUint(n / 10) + [DigitChar(n % 10)]
  }

  /** The spelling is a non-empty digit string that denotes `n`, with no leading zero unless it is "0". */
  lemma {:induction false} FormatUintSpec(n: nat)
    ensures var s := FormatUint(n);
      s != [] && AllDigits(s) && DecimalValue(s) == n && (s[0] == '0' ==> s == "0")
  {
    if n >= 10 {
      FormatUintSpec(n / 10);
      var s := FormatUint(n);
      assert s[..|s| - 1] == FormatUint(n / 10);
    }
  }

  /** Parsing what `%d` prints gives the number back. */
  lemma ParseFormatRoundTrip(n: uint64)
    ensures ParseUint(FormatUint(n)) == Success(n)
  {
    FormatUintSpec(n);
  }

  /** Formatting a parsed value gives the input back when it has no leading zero. */
  lemma {:induction false} FormatParseRoundTrip(s: string)
    requires ParseUint(s).Success?
    requires s[0] != '0' || s == "0"
    ensures FormatUint(ParseUint(s).value) == s
  {
    CanonicalDigits(s);
  }

  lemma {:induction false} CanonicalDigits(s: string)
    requires s != [] && AllDigits(s)
    requires s[0] != '0' || s == "0"
    ensures FormatUint(DecimalValue(s)) == s
  {
    var n := DecimalValue(s);
    var init, last := s[..|s| - 1], s[|s| - 1];
    if init == [] {
      assert s == [last];
      assert DecimalValue(s[..|s| - 1]) == 0;
    } else {
      CanonicalDigits(init);
      assert DecimalValue(init) >= 1 by { LeadingDigitPositive(init); }
      assert n / 10 == DecimalValue(init) && n % 10 == (last - '0') as int;
      assert s == init + [last];
    }
  }

  /** A digit string not starting with 0 denotes at least 1. */
  lemma {:induction false} LeadingDigitPositive(s: string)
    requires s != [] && AllDigits(s) && s[0] != '0'
    ensures DecimalValue(s) >= 1
  {
    if |s| > 1 {
      LeadingDigitPositive(s[..|s| - 1]);
    }
  }
}
