/** Shared vocabulary of the engine model: optional values, the error
    outcomes the Rust code produces with `bail!` (and the panics its
    `unwrap()` calls produce), 64-bit integer bounds, and the string
    helpers the engine uses to render SQL text and to parse request
    parameters. */
module Common {

  datatype Option<+T> = None | Some(value: T)

  /** The engine's error kinds, one per `bail!` message family of the
      source, plus `Panic` for a failed `unwrap()`. */
  datatype Error =
    | EmptyIdentifier
    | InvalidChar(c: char)
    | TextTooLong
    | ControlChar
    | EmptyPath
    | UnsupportedSchema(version: string)
    | InvalidInput
    | InvalidDataType
    | InvalidData
    | MissingField(name: string)
    | NoId
    | Unsupported(what: string)
    | ModelNotFound(model: string)
    | FieldNotFound(field: string)
    | StorageError
    | AppYamlTooLarge
    | Panic(what: string)

  datatype Result<+T> = Ok(value: T) | Err(error: Error)

  /** A result without a value: `anyhow::Result<()>`. */
  datatype Outcome = Pass | Fail(error: Error)

  /** Runs `second` only when `first` passed: the `?` operator between two checks. */
  function Then(first: Outcome, second: Outcome): Outcome
  {
    if first.Fail? then first else second
  }

  // ---------------------------------------------------------------- integers

  const I64_MIN: int := -0x8000_0000_0000_0000
  const I64_MAX: int := 0x7fff_ffff_ffff_ffff

  predicate InI64(x: int)
  {
    I64_MIN <= x <= I64_MAX
  }

  lemma AppendAssoc<T>(a: seq<T>, b: seq<T>, c: seq<T>)
    ensures a + b + c == a + (b + c)
  {
  }

  // ---------------------------------------------------------------- strings

  predicate StartsWith(s: string, prefix: string)
  {
    |prefix| <= |s| && s[..|prefix|] == prefix
  }

  predicate EndsWith(s: string, suffix: string)
  {
    |suffix| <= |s| && s[|s| - |suffix|..] == suffix
  }

  /** A concatenation starts with its first part and ends with any
      ending of its middle part followed by its last part. */
  lemma ConcatEnds(a: string, mid: string, z: string, q: string)
    requires EndsWith(mid, q)
    ensures StartsWith(a + mid + z, a) && EndsWith(a + mid + z, q + z)
  {
    var s := a + mid + z;
    assert s[..|a|] == a;
    assert s[|s| - |q + z|..] == mid[|mid| - |q|..] + z;
  }

  /** `xs.join(sep)`. */
  function Join(xs: seq<string>, sep: string): string
  {
    if |xs| == 0 then ""
    else if |xs| == 1 then xs[0]
    else xs[0] + sep + Join(xs[1..], sep)
  }

  /** A join with one more part in front. */
  lemma JoinCons(x: string, xs: seq<string>, sep: string)
    requires |xs| > 0
    ensures Join([x] + xs, sep) == x + sep + Join(xs, sep)
  {
    assert ([x] + xs)[1..] == xs;
  }

  /** Appending one more part at the end of a join, as a loop that builds
      the text with `+=` does. */
  lemma {:induction false} JoinSnoc(xs: seq<string>, x: string, sep: string)
    requires |xs| > 0
    ensures Join(xs + [x], sep) == Join(xs, sep) + sep + x
  {
    if |xs| == 1 {
      assert xs + [x] == [xs[0], x];
      assert ([xs[0], x])[1..] == [x];
    } else {
      assert (xs + [x])[1..] == xs[1..] + [x];
      JoinSnoc(xs[1..], x, sep);
    }
  }

  /** The index of the first `c` in `s`, or `|s|` when there is none. */
  function IndexOf(s: string, c: char): (i: nat)
    ensures i <= |s|
    ensures i < |s| ==> s[i] == c
    ensures forall j | 0 <= j < i :: s[j] != c
  {
    if |s| == 0 then 0
    else if s[0] == c then 0
    else 1 + IndexOf(s[1..], c)
  }

  lemma {:induction false} IndexOfAfter(a: string, b: string, c: char)
    requires c !in a
    requires |b| > 0 && b[0] == c
    ensures IndexOf(a + b, c) == |a|
  {
    if |a| > 0 {
      assert (a + b)[1..] == a[1..] + b;
      IndexOfAfter(a[1..], b, c);
    } else {
      assert a + b == b;
    }
  }

  /** `s.split(c)`: the parts between occurrences of `c`; always at least one. */
  function Split(s: string, c: char): (parts: seq<string>)
    ensures |parts| > 0
    decreases |s|
  {
    var i := IndexOf(s, c);
    if i == |s| then [s] else [s[..i]] + Split(s[i + 1..], c)
  }

  /** A text without the separator splits into itself. */
  lemma SplitNoSeparator(s: string, c: char)
    requires c !in s
    ensures Split(s, c) == [s]
  {
  }

  /** A join contains a character only if a part or the separator does. */
  lemma {:induction false} JoinAvoids(xs: seq<string>, sep: string, c: char)
    requires c !in sep
    requires forall k | 0 <= k < |xs| :: c !in xs[k]
    ensures c !in Join(xs, sep)
  {
    if |xs| > 1 {
      JoinAvoids(xs[1..], sep, c);
    }
  }

  /** Number of occurrences of `c` in `s`. */
  function Count(s: string, c: char): nat
  {
    if |s| == 0 then 0 else (if s[0] == c then 1 else 0) + Count(s[1..], c)
  }

  lemma {:induction false} CountAppend(a: string, b: string, c: char)
    ensures Count(a + b, c) == Count(a, c) + Count(b, c)
  {
    if |a| > 0 {
      assert (a + b)[1..] == a[1..] + b;
      CountAppend(a[1..], b, c);
    } else {
      assert a + b == b;
    }
  }

  lemma {:induction false} CountZero(s: string, c: char)
    ensures Count(s, c) == 0 <==> c !in s
  {
    if |s| > 0 {
      CountZero(s[1..], c);
      assert s == [s[0]] + s[1..];
    }
  }

  /** `split` yields one more part than there are separators, and the parts
      never contain the separator. */
  lemma {:induction false} SplitParts(s: string, c: char)
    ensures |Split(s, c)| == Count(s, c) + 1
    ensures forall k | 0 <= k < |Split(s, c)| :: c !in Split(s, c)[k]
    decreases |s|
  {
    var i := IndexOf(s, c);
    if i == |s| {
      CountZero(s, c);
    } else {
      var rest := s[i + 1..];
      SplitParts(rest, c);
      CountAtFirst(s, c, i);
      BeforeIndexOf(s, c);
      assert Split(s, c) == [s[..i]] + Split(rest, c);
    }
  }

  /** The text before the first `c` holds no `c`. */
  lemma BeforeIndexOf(s: string, c: char)
    ensures c !in s[..IndexOf(s, c)]
  {
    var i := IndexOf(s, c);
    forall j | 0 <= j < i ensures s[..i][j] != c {
      assert s[..i][j] == s[j];
    }
  }

  /** The first `c` counts once; the rest is counted after it. */
  lemma CountAtFirst(s: string, c: char, i: nat)
    requires i < |s| && s[i] == c && c !in s[..i]
    ensures Count(s, c) == Count(s[i + 1..], c) + 1
  {
    assert s == s[..i] + ([c] + s[i + 1..]);
    CountAppend(s[..i], [c] + s[i + 1..], c);
    CountZero(s[..i], c);
    assert ([c] + s[i + 1..])[1..] == s[i + 1..];
  }

  /** Splitting a join of separator-free parts gives the parts back. */
  lemma {:induction false} SplitJoin(xs: seq<string>, c: char)
    requires |xs| > 0
    requires forall k | 0 <= k < |xs| :: c !in xs[k]
    ensures Split(Join(xs, [c]), c) == xs
  {
    if |xs| == 1 {
      assert IndexOf(xs[0], c) == |xs[0]|;
    } else {
      var rest := [c] + Join(xs[1..], [c]);
      assert Join(xs, [c]) == xs[0] + rest;
      IndexOfAfter(xs[0], rest, c);
      assert (xs[0] + rest)[..|xs[0]|] == xs[0];
      assert (xs[0] + rest)[|xs[0]| + 1..] == Join(xs[1..], [c]);
      SplitJoin(xs[1..], c);
    }
  }

  /** Three separator-free words joined by the separator split back apart. */
  lemma SplitThree(a: string, b: string, d: string, c: char)
    requires c !in a && c !in b && c !in d
    ensures Split(a + [c] + b + [c] + d, c) == [a, b, d]
  {
    JoinCons(b, [d], [c]);
    JoinCons(a, [b, d], [c]);
    assert [a] + [b, d] == [a, b, d];
    assert a + [c] + b + [c] + d == a + [c] + (b + [c] + d);
    SplitJoin([a, b, d], c);
  }

  /** Five separator-free words joined by the separator split back apart;
      `mid` holds the middle three words with their separators. */
  lemma SplitFive(a: string, mid: string, f: string, b: string, d: string, e: string, c: char)
    requires c !in a && c !in b && c !in d && c !in e && c !in f
    requires mid == [c] + b + [c] + d + [c] + e + [c]
    ensures Split(a + mid + f, c) == [a, b, d, e, f]
  {
    JoinFive(a, b, d, e, f, [c]);
    assert a + mid + f == a + [c] + b + [c] + d + [c] + e + [c] + f;
    SplitJoin([a, b, d, e, f], c);
  }

  lemma JoinFive(a: string, b: string, d: string, e: string, f: string, sep: string)
    ensures Join([a, b, d, e, f], sep) == a + sep + b + sep + d + sep + e + sep + f
  {
    JoinCons(e, [f], sep);
    assert [d] + [e, f] == [d, e, f];
    JoinCons(d, [e, f], sep);
    assert [b] + [d, e, f] == [b, d, e, f];
    JoinCons(b, [d, e, f], sep);
    assert [a] + [b, d, e, f] == [a, b, d, e, f];
    JoinCons(a, [b, d, e, f], sep);
  }

  // ---------------------------------------------------------------- decimal numbers

  predicate IsDigit(c: char)
  {
    '0' <= c <= '9'
  }

  predicate AllDigits(s: string)
  {
    forall k | 0 <= k < |s| :: IsDigit(s[k])
  }

  function DigitChar(d: nat): char
    requires d < 10
  {
    "0123456789"[d]
  }

  /** Decimal rendering of a natural number, most significant digit first. */
  function NatToString(n: nat): (s: string)
    ensures |s| > 0 && AllDigits(s)
  {
    if n < 10 then [DigitChar(n)] else NatToString(n / 10) + [DigitChar(n % 10)]
  }

  /** `format!("{}", i)` for an integer. */
  function IntToString(i: int): (s: string)
    ensures |s| > 0
    ensures forall k | 0 <= k < |s| :: IsDigit(s[k]) || (k == 0 && s[k] == '-')
  {
    if i < 0 then "-" + NatToString(-i) else NatToString(i)
  }

  /** A rendered integer holds digits and at most a leading minus sign. */
  lemma IntToStringAvoids(i: int, c: char)
    requires !IsDigit(c) && c != '-'
    ensures c !in IntToString(i)
  {
  }

  /** Value of a string of decimal digits. */
  function DigitsValue(s: string): nat
    requires AllDigits(s)
  {
    if |s| == 0 then 0 else DigitsValue(s[..|s| - 1]) * 10 + (s[|s| - 1] as int - '0' as int)
  }

  /** Integer parsing in the manner of Rust's `str::parse`: an optional
      sign followed by at least one decimal digit, nothing else. */
  function ParseInt(s: string): (r: Option<int>)
    ensures r.Some? ==> |s| > 0
  {
    if |s| > 0 && (s[0] == '-' || s[0] == '+') then
      var digits := s[1..];
      if |digits| > 0 && AllDigits(digits) then
        var v: int := DigitsValue(digits);
        Some(if s[0] == '-' then -v else v)
      else None
    else if |s| > 0 && AllDigits(s) then Some(DigitsValue(s) as int)
    else None
  }

  /** `s.parse::<i64>().ok()`: like `ParseInt`, and out-of-range values fail. */
  function ParseI64(s: string): (r: Option<int>)
    ensures r.Some? ==> InI64(r.value) && ParseInt(s) == r
    ensures r.None? ==> ParseInt(s).None? || !InI64(ParseInt(s).value)
  {
    match ParseInt(s)
    case Some(n) => if InI64(n) then Some(n) else None
    case None => None
  }

  lemma {:induction false} NatToStringValue(n: nat)
    ensures DigitsValue(NatToString(n)) == n
  {
    if n >= 10 {
      var s := NatToString(n);
      NatToStringValue(n / 10);
      assert s[..|s| - 1] == NatToString(n / 10);
    }
  }

  /** Rendering an integer and parsing it back gives the same integer. */
  lemma IntToStringRoundTrip(i: int)
    ensures ParseInt(IntToString(i)) == Some(i)
  {
    if i < 0 {
      NegRoundTrip(-i);
    } else {
      NatRoundTrip(i);
    }
  }

  /** A rendered natural number parses back. */
  lemma NatRoundTrip(n: nat)
    ensures ParseInt(NatToString(n)) == Some(n)
  {
    var s := NatToString(n);
    NatToStringValue(n);
    assert IsDigit(s[0]);
  }

  /** A rendered negative number parses back. */
  lemma NegRoundTrip(n: nat)
    ensures ParseInt("-" + NatToString(n)) == Some(-(n as int))
  {
    var d := NatToString(n);
    var s := "-" + d;
    NatToStringValue(n);
    assert s[0] == '-' && s[1..] == d;
  }

  // ---------------------------------------------------------------- UTF-8 length

  /** Number of bytes the UTF-8 encoding of `c` takes. */
  function Utf8Width(c: char): nat
  {
    if c as int < 0x80 then 1
    else if c as int < 0x800 then 2
    else if c as int < 0x1_0000 then 3
    else 4
  }

  /** `str::len()`: the UTF-8 byte length of a string. */
  function Utf8Len(s: string): (n: nat)
    ensures |s| <= n <= 4 * |s|
  {
    if |s| == 0 then 0 else Utf8Len(s[..|s| - 1]) + Utf8Width(s[|s| - 1])
  }
}
