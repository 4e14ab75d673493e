/** Text helpers shared by the harness: splitting on a separator character,
    joining fields, decimal rendering of a count, and Rust's `usize::from_str`
    (with `usize` taken as 64 bits). */
module Text {

  const USIZE_MAX: nat := 0xFFFF_FFFF_FFFF_FFFF

  datatype Result<T, E> = Ok(value: T) | Err(error: E)

  /** The kinds of `ParseIntError` that `usize::from_str` can report. */
  datatype IntErrorKind = Empty | InvalidDigit | PosOverflow

  // ---------------------------------------------------------------------------
  // Splitting and joining

  /** `s.split(sep)` collected into a vector: the pieces between occurrences of
      `sep`, always at least one (the empty string gives one empty piece). */
  function Split(s: string, sep: char): (r: seq<string>)
    ensures |r| >= 1
    ensures forall i :: 0 <= i < |r| ==> sep !in r[i]
  {
    if s == [] then [[]]
    else if s[0] == sep then [[]] + Split(s[1..], sep)
    else
      var t := Split(s[1..], sep);
      [[s[0]] + t[0]] + t[1..]
  }

  /** The pieces `fs` written one after another with `sep` between them. */
  function Join(fs: seq<string>, sep: char): string
    requires |fs| >= 1
  {
    if |fs| == 1 then fs[0] else fs[0] + [sep] + Join(fs[1..], sep)
  }

  /** A piece free of the separator splits to itself, whatever follows it. */
  lemma {:induction false} SplitPiece(w: string, rest: string, sep: char)
    requires sep !in w
    ensures Split(w + rest, sep) == [w + Split(rest, sep)[0]] + Split(rest, sep)[1..]
  {
    if w != [] {
      assert (w + rest)[0] == w[0];
      assert (w + rest)[1..] == w[1..] + rest;
      SplitPiece(w[1..], rest, sep);
      assert [w[0]] + (w[1..] + Split(rest, sep)[0]) == w + Split(rest, sep)[0];
    } else {
      var t := Split(rest, sep);
      assert w + rest == rest && w + t[0] == t[0];
      assert t == [t[0]] + t[1..];
    }
  }

  /** Splitting undoes joining when no piece contains the separator. */
  lemma {:induction false} SplitJoin(fs: seq<string>, sep: char)
    requires |fs| >= 1
    requires forall i :: 0 <= i < |fs| ==> sep !in fs[i]
    ensures Split(Join(fs, sep), sep) == fs
  {
    if |fs| == 1 {
      SplitPiece(fs[0], [], sep);
      assert fs[0] + [] == fs[0];
    } else {
      var tail := Join(fs[1..], sep);
      SplitJoin(fs[1..], sep);
      SplitPiece(fs[0], [sep] + tail, sep);
      assert fs[0] + [sep] + tail == fs[0] + ([sep] + tail);
      assert ([sep] + tail)[1..] == tail;
      assert Split([sep] + tail, sep) == [[]] + fs[1..];
      assert fs[0] + [] == fs[0];
      assert fs == [fs[0]] + fs[1..];
    }
  }

  /** Joining undoes splitting: splitting loses no character. */
  lemma {:induction false} JoinSplit(s: string, sep: char)
    ensures Join(Split(s, sep), sep) == s
  {
    if s != [] {
      JoinSplit(s[1..], sep);
      var t := Split(s[1..], sep);
      if s[0] == sep {
        assert Split(s, sep)[1..] == t;
      } else {
        var r := Split(s, sep);
        assert r[0] == [s[0]] + t[0];
        if |t| == 1 {
          assert Join(r, sep) == [s[0]] + t[0];
        } else {
          assert r[1..] == t[1..];
          assert Join(r, sep) == [s[0]] + (t[0] + [sep] + Join(t[1..], sep));
        }
      }
    }
  }

  /** Joining two lists of pieces with one more separator between them. */
  lemma {:induction false} JoinAppend(fs: seq<string>, gs: seq<string>, sep: char)
    requires |fs| >= 1 && |gs| >= 1
    ensures Join(fs + gs, sep) == Join(fs, sep) + [sep] + Join(gs, sep)
  {
    if |fs| == 1 {
      assert (fs + gs)[1..] == gs;
    } else {
      assert (fs + gs)[1..] == fs[1..] + gs;
      JoinAppend(fs[1..], gs, sep);
    }
  }

  /** A separator splits the text into the pieces on its left followed by the
      pieces on its right. */
  lemma SplitAround(a: string, b: string, sep: char)
    ensures Split(a + [sep] + b, sep) == Split(a, sep) + Split(b, sep)
  {
    var fa, fb := Split(a, sep), Split(b, sep);
    JoinSplit(a, sep);
    JoinSplit(b, sep);
    JoinAppend(fa, fb, sep);
    assert forall i :: 0 <= i < |fa + fb| ==> sep !in (fa + fb)[i] by {
      forall i | 0 <= i < |fa + fb| ensures sep !in (fa + fb)[i] {
        if i < |fa| { assert (fa + fb)[i] == fa[i]; } else { assert (fa + fb)[i] == fb[i - |fa|]; }
      }
    }
    SplitJoin(fa + fb, sep);
  }

  // ---------------------------------------------------------------------------
  // Decimal digits

  predicate IsDigit(c: char) { '0' <= c <= '9' }

  predicate AllDigits(s: string) { forall i :: 0 <= i < |s| ==> IsDigit(s[i]) }

  function DigitChar(d: nat): (c: char)
    requires d < 10
    ensures IsDigit(c) && c as int - '0' as int == d
  {
    ('0' as int + d) as char
  }

  /** The value of a digit string, most significant digit first. */
  function DigitsValue(s: string): nat
    requires AllDigits(s)
  {
    if s == [] then 0 else DigitsValue(s[..|s| - 1]) * 10 + (s[|s| - 1] as int - '0' as int)
  }

  /** `format!("{}", n)`: the shortest decimal text of `n`. */
  function Decimal(n: nat): (r: string)
    ensures |r| >= 1 && AllDigits(r)
    ensures r[0] == '0' ==> n == 0
  {
    if n < 10 then [DigitChar(n)] else Decimal(n / 10) + [DigitChar(n % 10)]
  }

  /** Decimal text is a non-empty run of digits that reads back as `n`. */
  lemma {:induction false} DecimalValue(n: nat)
    ensures |Decimal(n)| >= 1 && AllDigits(Decimal(n))
    ensures DigitsValue(Decimal(n)) == n
  {
    if n >= 10 {
      DecimalValue(n / 10);
      var s := Decimal(n);
      assert s[..|s| - 1] == Decimal(n / 10);
    }
  }

  /** Different numbers have different decimal texts. */
  lemma DecimalInjective(a: nat, b: nat)
    requires Decimal(a) == Decimal(b)
    ensures a == b
  {
    DecimalValue(a);
    DecimalValue(b);
  }

  // ---------------------------------------------------------------------------
  // usize::from_str

  /** Digits are consumed left to right; the first offending character decides
      the error, a non-digit before an overflow at the same position. */
  function ParseDigits(ds: string): (r: Result<nat, IntErrorKind>)
    ensures r.Ok? ==> r.value <= USIZE_MAX
    ensures r != Err(Empty)
    ensures |ds| >= 1 && !IsDigit(ds[0]) ==> r == Err(InvalidDigit)
  {
    if ds == [] then Ok(0)
    else
      match ParseDigits(ds[..|ds| - 1])
      case Err(e) => Err(e)
      case Ok(v) =>
        var c := ds[|ds| - 1];
        if !IsDigit(c) then Err(InvalidDigit)
        else if v * 10 + (c as int - '0' as int) > USIZE_MAX then Err(PosOverflow)
        else Ok(v * 10 + (c as int - '0' as int))
  }

  /** `s.parse::<usize>()`: an optional `+`, then decimal digits. */
  function ParseUsize(s: string): (r: Result<nat, IntErrorKind>)
    ensures r.Ok? ==> r.value <= USIZE_MAX
    ensures r == Err(Empty) <==> s == []
    ensures |s| >= 1 && s[0] == '-' ==> r.Err?
  {
    if s == [] then Err(Empty)
    else if (s[0] == '+' || s[0] == '-') && |s| == 1 then Err(InvalidDigit)
    else ParseDigits(if s[0] == '+' then s[1..] else s)
  }

  /** The digits of a numeric text, after its optional leading `+`. */
  function Unsigned(s: string): string
  {
    if |s| > 0 && s[0] == '+' then s[1..] else s
  }

  /** The texts that `usize::from_str` accepts, stated without the parser. */
  predicate ValidUsize(s: string)
  {
    var ds := Unsigned(s);
    |ds| > 0 && AllDigits(ds) && DigitsValue(ds) <= USIZE_MAX
  }

  lemma {:induction false} DigitsValuePrefix(ds: string, k: nat)
    requires AllDigits(ds) && k <= |ds|
    ensures DigitsValue(ds[..k]) <= DigitsValue(ds)
    decreases |ds|
  {
    if k < |ds| {
      DigitsValuePrefix(ds[..|ds| - 1], k);
      assert ds[..|ds| - 1][..k] == ds[..k];
    } else {
      assert ds[..k] == ds;
    }
  }

  lemma {:induction false} ParseDigitsSpec(ds: string)
    ensures ParseDigits(ds).Ok? <==> AllDigits(ds) && DigitsValue(ds) <= USIZE_MAX
    ensures ParseDigits(ds).Ok? ==> ParseDigits(ds).value == DigitsValue(ds)
    ensures ParseDigits(ds).Err? ==> ParseDigits(ds).error != Empty
  {
    if ds != [] {
      var p := ds[..|ds| - 1];
      ParseDigitsSpec(p);
      if AllDigits(ds) {
        assert AllDigits(p);
        DigitsValuePrefix(ds, |ds| - 1);
      }
    }
  }

  /** `usize::from_str` succeeds exactly on the valid texts and returns their
      value; the empty text, and only it, reports `Empty`. */
  lemma ParseUsizeSpec(s: string)
    ensures ParseUsize(s).Ok? <==> ValidUsize(s)
    ensures ParseUsize(s).Ok? ==> ParseUsize(s).value == DigitsValue(Unsigned(s))
    ensures ParseUsize(s) == Err(Empty) <==> s == []
  {
    if s != [] {
      ParseDigitsSpec(Unsigned(s));
      if |s| == 1 && s[0] == '-' {
        assert !IsDigit(Unsigned(s)[0]);
      }
    }
  }

  /** Parsing the decimal text of a `usize` gives the number back. */
  lemma ParseDecimal(n: nat)
    requires n <= USIZE_MAX
    ensures ParseUsize(Decimal(n)) == Ok(n)
  {
    DecimalValue(n);
    ParseUsizeSpec(Decimal(n));
  }
}
