/**
 * String helpers the service relies on: Python's `str.join`, the inverse split
 * on a one-character separator, and decimal formatting of naturals (`str(n)`
 * and the zero-padded `%0Nd`).
 */
module Text {

  /** `sep.join(xs)`. */
  function Join(sep: string, xs: seq<string>): string
  {
    if |xs| == 0 then ""
    else if |xs| == 1 then xs[0]
    else xs[0] + sep + Join(sep, xs[1..])
  }

  /** `s.split(c)`: the maximal pieces of `s` between occurrences of `c`; always at least one piece. */
  function Split(c: char, s: string): (r: seq<string>)
    ensures |r| >= 1
  {
    if s == [] then [""]
    else
      var t := Split(c, s[1..]);
      if s[0] == c then [""] + t else [[s[0]] + t[0]] + t[1..]
  }

  lemma {:induction false} SplitWithoutSeparator(c: char, x: string)
    requires c !in x
    ensures Split(c, x) == [x]
  {
    if x != [] {
      assert c !in x[1..] by {
        assert forall i :: 0 <= i < |x[1..]| ==> x[1..][i] == x[i + 1];
      }
      SplitWithoutSeparator(c, x[1..]);
      assert [x[0]] + x[1..] == x;
    }
  }

  lemma {:induction false} SplitAtFirstSeparator(c: char, x: string, rest: string)
    requires c !in x
    ensures Split(c, x + [c] + rest) == [x] + Split(c, rest)
  {
    if x == [] {
      assert x + [c] + rest == [c] + rest;
      assert ([c] + rest)[1..] == rest;
    } else {
      assert (x + [c] + rest)[1..] == x[1..] + [c] + rest;
      SplitAtFirstSeparator(c, x[1..], rest);
      assert [x[0]] + x[1..] == x;
    }
  }

  /**
   * Joining with a one-character separator loses nothing when no piece contains
   * it and there is at least one piece: splitting gives the pieces back, in order.
   * (`Join` of `[]` and of `[""]` are both `""`, so the empty list is excluded.)
   */
  lemma {:induction false} SplitJoin(c: char, xs: seq<string>)
    requires |xs| >= 1
    requires forall i :: 0 <= i < |xs| ==> c !in xs[i]
    ensures Split(c, Join([c], xs)) == xs
  {
    if |xs| == 1 {
      SplitWithoutSeparator(c, xs[0]);
    } else {
      SplitJoin(c, xs[1..]);
      SplitAtFirstSeparator(c, xs[0], Join([c], xs[1..]));
      assert [xs[0]] + xs[1..] == xs;
    }
  }

  /** Joining two non-empty lists puts exactly one separator between their joins. */
  lemma {:induction false} JoinAppend(sep: string, a: seq<string>, b: seq<string>)
    requires a != [] && b != []
    ensures Join(sep, a + b) == Join(sep, a) + sep + Join(sep, b)
  {
    if |a| == 1 {
      assert (a + b)[1..] == b;
    } else {
      assert (a + b)[1..] == a[1..] + b;
      JoinAppend(sep, a[1..], b);
    }
  }

  /** With the empty separator, joining is plain concatenation: the first piece, then the rest. */
  lemma JoinNoSeparatorHead(xs: seq<string>)
    requires |xs| >= 1
    ensures Join("", xs) == xs[0] + Join("", xs[1..])
  {
    if |xs| == 1 {
      assert xs[1..] == [];
    }
  }

  /** With the empty separator, joining a concatenation concatenates the joins. */
  lemma JoinNoSeparatorAppend(a: seq<string>, b: seq<string>)
    ensures Join("", a + b) == Join("", a) + Join("", b)
  {
    if a == [] {
      assert a + b == b;
    } else if b == [] {
      assert a + b == a;
    } else {
      JoinAppend("", a, b);
    }
  }

  predicate IsDigit(ch: char) {
    '0' <= ch <= '9'
  }

  predicate AllDigits(s: string) {
    forall i :: 0 <= i < |s| ==> IsDigit(s[i])
  }

  function Digit(d: nat): (ch: char)
    requires d < 10
    ensures IsDigit(ch) && (ch as int) - ('0' as int) == d
  {
    ['0', '1', '2', '3', '4', '5', '6', '7', '8', '9'][d]
  }

  /** `str(n)` for a natural number: its decimal digits, most significant first. */
  function NatText(n: nat): (r: string)
    ensures |r| >= 1 && AllDigits(r)
    ensures r[0] == '0' ==> n == 0
  {
    if n < 10 then [Digit(n)] else NatText(n / 10) + [Digit(n % 10)]
  }

  /** The number a string of decimal digits denotes (leading zeros allowed). */
  function DecimalValue(s: string): nat
    requires AllDigits(s)
  {
    if s == [] then 0
    else DecimalValue(s[..|s| - 1]) * 10 + ((s[|s| - 1] as int) - ('0' as int))
  }

  /** Formatting a natural in decimal can be read back exactly. */
  lemma {:induction false} NatTextValue(n: nat)
    ensures DecimalValue(NatText(n)) == n
  {
    var r := NatText(n);
    if n >= 10 {
      NatTextValue(n / 10);
      assert r[..|r| - 1] == NatText(n / 10);
    }
  }

  function Zeros(k: nat): (r: string)
    ensures |r| == k && AllDigits(r)
  {
    if k == 0 then "" else "0" + Zeros(k - 1)
  }

  /** `"%0*d" % (width, n)`: `str(n)` left-padded with zeros to at least `width` characters. */
  function Pad(n: nat, width: nat): (r: string)
    ensures AllDigits(r)
  {
    var t := NatText(n);
    if |t| >= width then t else Zeros(width - |t|) + t
  }

  lemma {:induction false} LeadingZerosValue(k: nat, s: string)
    requires AllDigits(s)
    ensures DecimalValue(Zeros(k) + s) == DecimalValue(s)
  {
    if s == [] {
      ZerosValue(k);
      assert Zeros(k) + s == Zeros(k);
    } else {
      var z := Zeros(k) + s;
      assert z[..|z| - 1] == Zeros(k) + s[..|s| - 1];
      LeadingZerosValue(k, s[..|s| - 1]);
    }
  }

  lemma {:induction false} ZerosValue(k: nat)
    ensures DecimalValue(Zeros(k)) == 0
  {
    if k > 0 {
      var z := Zeros(k);
      assert z[..k - 1] == Zeros(k - 1) by {
        ZerosShift(k);
      }
      ZerosValue(k - 1);
    }
  }

  lemma {:induction false} ZerosShift(k: nat)
    requires k > 0
    ensures Zeros(k)[..k - 1] == Zeros(k - 1) && Zeros(k)[k - 1] == '0'
  {
    if k > 1 {
      ZerosShift(k - 1);
      assert Zeros(k)[1..][..k - 2] == Zeros(k - 1)[..k - 2];
    }
  }

  /** A zero-padded field is exactly `width` long when the number fits, and reads back as the number. */
  lemma PadValue(n: nat, width: nat)
    requires |NatText(n)| <= width
    ensures |Pad(n, width)| == width
    ensures DecimalValue(Pad(n, width)) == n
  {
    NatTextValue(n);
    LeadingZerosValue(width - |NatText(n)|, NatText(n));
  }

  /** The decimal form of a number below 10^k has at most k digits. */
  lemma {:induction false} NatTextLength(n: nat, k: nat)
    requires n < Power10(k)
    requires k >= 1
    ensures |NatText(n)| <= k
  {
    if n >= 10 {
      assert k >= 2;
      NatTextLength(n / 10, k - 1);
    }
  }

  function Power10(k: nat): (p: nat)
    ensures p >= 1
  {
    if k == 0 then 1 else 10 * Power10(k - 1)
  }
}
