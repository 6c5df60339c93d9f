/** Values shared by every part of the front end: the `Result<T, String>` that all
    parsers and the evaluator return, the parser shape itself, and the decimal
    rendering that Rust's `{}` gives integers inside error messages. */
module Results {

  datatype Option<+T> = None | Some(value: T)

  /** `Result<T, String>`: every failure in the source is a formatted message. */
  datatype Result<+T> = Ok(value: T) | Err(msg: string)

  /** A parser takes the input and either fails or yields an output and the rest of the input. */
  type Parser<!I, O> = seq<I> -> Result<(O, seq<I>)>

  /** `rest` is what is left of `data` after a prefix has been consumed. */
  ghost predicate IsSuffix<T>(rest: seq<T>, data: seq<T>) {
    |rest| <= |data| && rest == data[|data| - |rest|..]
  }

  /** Every success of `p` consumes at least one element. */
  ghost predicate Progressing<I(!new), O>(p: Parser<I, O>) {
    forall d :: p(d).Ok? ==> |p(d).value.1| < |d|
  }

  /** No success of `p` hands back more input than it was given. */
  ghost predicate NonGrowing<I(!new), O>(p: Parser<I, O>) {
    forall d :: p(d).Ok? ==> |p(d).value.1| <= |d|
  }

  predicate IsDigit(c: char) {
    '0' <= c <= '9'
  }

  predicate AllDigits(s: string) {
    forall i :: 0 <= i < |s| ==> IsDigit(s[i])
  }

  function DigitChar(d: nat): (c: char)
    requires d < 10
    ensures IsDigit(c) && c as int - '0' as int == d
  {
    ('0' as int + d) as char
  }

  /** Decimal digits of `n`, most significant first, without leading zeros. */
  function NatToString(n: nat): (s: string)
    ensures |s| > 0 && AllDigits(s)
    ensures |s| > 1 ==> s[0] != '0'
  {
    if n < 10 then [DigitChar(n)]
    else NatToString(n / 10) + [DigitChar(n % 10)]
  }

  /** Rust's `{}` for a signed integer. */
  function IntToString(i: int): (s: string)
    ensures |s| > 0
    ensures i < 0 <==> s[0] == '-'
  {
    if i < 0 then "-" + NatToString(-i) else NatToString(i)
  }

  /** The value of a run of decimal digits, read left to right. */
  function DigitsValue(s: string): (n: nat)
    requires AllDigits(s)
  {
    if |s| == 0 then 0
    else DigitsValue(s[..|s| - 1]) * 10 + (s[|s| - 1] as int - '0' as int)
  }

  /** Reading back the digits printed for `n` gives `n`. */
  lemma {:induction false} DigitsRoundTrip(n: nat)
    ensures DigitsValue(NatToString(n)) == n
  {
    var s := NatToString(n);
    if n >= 10 {
      DigitsRoundTrip(n / 10);
      assert s[..|s| - 1] == NatToString(n / 10);
    }
  }

  /** Distinct numbers print differently, so the count in a message identifies it. */
  lemma NatToStringInjective(m: nat, n: nat)
    requires NatToString(m) == NatToString(n)
    ensures m == n
  {
    DigitsRoundTrip(m);
    DigitsRoundTrip(n);
  }
}
