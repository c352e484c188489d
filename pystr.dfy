/**
  The Python string built-ins the webhook and the client use:
  `str.strip()` with no argument, `str.rstrip(ch)` with a one-character
  argument, and `str(n)` for an integer (as an f-string renders it).
*/
module PyStr {
  import opened Wrappers

  /** The characters for which Python's `str.isspace()` is true. */
  const Whitespace: string := "\t\n\U{0b}\U{0c}\r\U{1c}\U{1d}\U{1e}\U{1f} \U{85}\U{a0}\U{1680}\U{2000}\U{2001}\U{2002}\U{2003}\U{2004}\U{2005}\U{2006}\U{2007}\U{2008}\U{2009}\U{200a}\U{2028}\U{2029}\U{202f}\U{205f}\U{3000}"

  predicate IsSpace(c: char) {
    Occurs(c, Whitespace)
  }

  /** `c in s`, one character at a time. */
  predicate Occurs(c: char, s: string) {
    s != [] && (s[0] == c || Occurs(c, s[1..]))
  }

  lemma {:induction false} OccursAt(c: char, s: string, k: nat)
    requires k < |s| && s[k] == c
    ensures Occurs(c, s)
  {
    if k > 0 {
      OccursAt(c, s[1..], k - 1);
    }
  }

  lemma {:induction false} NotOccurs(c: char, s: string)
    requires c !in s
    ensures !Occurs(c, s)
  {
    if s != [] {
      assert c !in s[1..];
      NotOccurs(c, s[1..]);
    }
  }

  /** Printable ASCII characters other than the space are not whitespace. */
  lemma PrintableNotSpace(c: char)
    requires '!' <= c <= '~'
    ensures !IsSpace(c)
  {
    assert forall k :: 0 <= k < |Whitespace| ==> Whitespace[k] <= ' ' || '\U{85}' <= Whitespace[k];
    NotOccurs(c, Whitespace);
  }

  /** The space and the line feed are whitespace. */
  lemma SpaceAndNewlineAreSpace()
    ensures IsSpace(' ') && IsSpace('\n')
  {
    OccursAt(' ', Whitespace, 9);
    OccursAt('\n', Whitespace, 1);
  }

  predicate AllSpace(s: string) {
    forall k :: 0 <= k < |s| ==> IsSpace(s[k])
  }

  /** The number of whitespace characters `s` starts with. */
  function LeadingSpaces(s: string): (n: nat)
    ensures n <= |s| && AllSpace(s[..n])
    ensures n < |s| ==> !IsSpace(s[n])
  {
    if s == [] || !IsSpace(s[0]) then
      0
    else
      var n := 1 + LeadingSpaces(s[1..]);
      PrefixCons(s, n);
      AllSpaceConcat([s[0]], s[1..][..n - 1]);
      n
  }

  /** The number of whitespace characters `s` ends with. */
  function TrailingSpaces(s: string): (n: nat)
    ensures n <= |s| && AllSpace(s[|s| - n..])
    ensures n < |s| ==> !IsSpace(s[|s| - 1 - n])
  {
    if s == [] || !IsSpace(s[|s| - 1]) then
      0
    else
      var n := 1 + TrailingSpaces(s[..|s| - 1]);
      SuffixSnoc(s, n);
      AllSpaceConcat(s[..|s| - 1][|s| - n..], [s[|s| - 1]]);
      n
  }

  /** `t` neither starts nor ends with whitespace. */
  predicate Unpadded(t: string) {
    t == [] || (!IsSpace(t[0]) && !IsSpace(t[|t| - 1]))
  }

  /** `s` is `t`, placed at index `i`, with only whitespace before and after it. */
  predicate PaddedAt(s: string, t: string, i: int) {
    0 <= i <= |s| - |t| && s[i..i + |t|] == t && AllSpace(s[..i]) && AllSpace(s[i + |t|..])
  }

  /**
    `s.strip()`: the slice of `s` that starts after its leading whitespace and
    leaves out its trailing whitespace; the result neither starts nor ends
    with whitespace.
  */
  function Strip(s: string): (r: string)
    ensures Unpadded(r)
    ensures PaddedAt(s, r, LeadingSpaces(s))
  {
    var i := LeadingSpaces(s);
    var k := TrailingSpaces(s[i..]);
    assert s[i..][|s| - i - k..] == s[|s| - k..];
    assert k < |s| - i ==> s[i..][|s| - i - 1 - k] == s[|s| - 1 - k];
    s[i..|s| - k]
  }

  lemma PrefixCons<T>(s: seq<T>, n: nat)
    requires 1 <= n <= |s|
    ensures s[..n] == [s[0]] + s[1..][..n - 1]
  {
  }

  lemma SuffixSnoc<T>(s: seq<T>, n: nat)
    requires 1 <= n <= |s|
    ensures s[|s| - n..] == s[..|s| - 1][|s| - n..] + [s[|s| - 1]]
  {
  }

  lemma SlicesOfPadded<T>(w1: seq<T>, s: seq<T>, w2: seq<T>, i: nat, j: nat)
    requires i <= j <= |s|
    ensures (w1 + s + w2)[..|w1| + i] == w1 + s[..i]
    ensures (w1 + s + w2)[|w1| + j..] == s[j..] + w2
    ensures (w1 + s + w2)[|w1| + i..|w1| + j] == s[i..j]
  {
  }

  lemma AllSpaceConcat(a: string, b: string)
    requires AllSpace(a) && AllSpace(b)
    ensures AllSpace(a + b)
  {
    forall k | 0 <= k < |a + b| ensures IsSpace((a + b)[k]) {
      if k < |a| {
        assert (a + b)[k] == a[k];
      } else {
        assert (a + b)[k] == b[k - |a|];
      }
    }
  }

  /**
    `strip()` is determined by its contract: a string that is `t` with only
    whitespace around it, where `t` neither starts nor ends with whitespace,
    strips to `t`.
  */
  lemma StripUnique(s: string, t: string, i: int)
    requires Unpadded(t) && PaddedAt(s, t, i)
    ensures Strip(s) == t
  {
    if t != [] {
      assert s[i] == t[0] && s[i + |t| - 1] == t[|t| - 1];
    }
  }

  /** A string without surrounding whitespace strips to itself. */
  lemma StripUnpadded(s: string)
    requires Unpadded(s)
    ensures Strip(s) == s
  {
    assert s[..0] == [] && s[|s|..] == [];
    StripUnique(s, s, 0);
  }

  /** Whitespace padding on either side never changes what `strip()` returns. */
  lemma StripIgnoresPadding(w1: string, s: string, w2: string)
    requires AllSpace(w1) && AllSpace(w2)
    ensures Strip(w1 + s + w2) == Strip(s)
  {
    var t, i := Strip(s), LeadingSpaces(s);
    var j := i + |t|;
    var x := w1 + s + w2;
    AllSpaceConcat(w1, s[..i]);
    AllSpaceConcat(s[j..], w2);
    SlicesOfPadded(w1, s, w2, i, j);
    StripUnique(x, t, |w1| + i);
  }

  /** `strip()` is idempotent. */
  lemma StripIdempotent(s: string)
    ensures Strip(Strip(s)) == Strip(s)
  {
    StripUnpadded(Strip(s));
  }

  /**
    A string strips to `t` (a string without surrounding whitespace) exactly
    when it is `t` with whitespace around it.
  */
  lemma StripIsExactlyPaddedText(s: string, t: string)
    requires Unpadded(t)
    ensures Strip(s) == t <==> exists i :: PaddedAt(s, t, i)
  {
    if Strip(s) == t {
      assert PaddedAt(s, t, LeadingSpaces(s));
    }
    if i :| PaddedAt(s, t, i) {
      StripUnique(s, t, i);
    }
  }

  /** A string that starts and ends with a printable non-space ASCII character strips to itself. */
  lemma StripPrintableEnds(s: string)
    requires s != [] && '!' <= s[0] <= '~' && '!' <= s[|s| - 1] <= '~'
    ensures Strip(s) == s
  {
    PrintableNotSpace(s[0]);
    PrintableNotSpace(s[|s| - 1]);
    StripUnpadded(s);
  }

  /** `[ch] * n` */
  function Repeat(ch: char, n: nat): (r: string)
    ensures |r| == n
  {
    if n == 0 then [] else Repeat(ch, n - 1) + [ch]
  }

  /** Every character of `s` from index `i` on is `ch`. */
  predicate RunFrom(s: string, i: int, ch: char)
    requires 0 <= i <= |s|
  {
    forall k :: i <= k < |s| ==> s[k] == ch
  }

  /** `s` is `r` followed by nothing but copies of `ch`. */
  predicate TrailingRun(s: string, r: string, ch: char) {
    |r| <= |s| && s[..|r|] == r && RunFrom(s, |r|, ch)
  }

  /**
    `s.rstrip(ch)`: `s` without the run of `ch` at its end; every trailing
    `ch` is removed, not just one.
  */
  function RStrip(s: string, ch: char): (r: string)
    ensures TrailingRun(s, r, ch)
    ensures r == [] || r[|r| - 1] != ch
  {
    if s != [] && s[|s| - 1] == ch then
      RStrip(s[..|s| - 1], ch)
    else
      s
  }

  /**
    RStrip is determined by its contract: a string that is `r` followed by
    copies of `ch`, where `r` does not end in `ch`, strips to `r`.
  */
  lemma RStripUnique(s: string, r: string, ch: char)
    requires TrailingRun(s, r, ch) && (r == [] || r[|r| - 1] != ch)
    ensures RStrip(s, ch) == r
  {
  }

  lemma {:induction false} RepeatIsRun(ch: char, n: nat)
    ensures RunFrom(Repeat(ch, n), 0, ch)
  {
    if n > 0 {
      RepeatIsRun(ch, n - 1);
      assert forall k :: 0 <= k < n - 1 ==> Repeat(ch, n)[k] == Repeat(ch, n - 1)[k];
    }
  }

  /** A string that does not end in `ch`, followed by `n` copies of `ch`, rstrips back to itself. */
  lemma RStripRepeat(r: string, ch: char, n: nat)
    requires r == [] || r[|r| - 1] != ch
    ensures RStrip(r + Repeat(ch, n), ch) == r
  {
    var s := r + Repeat(ch, n);
    RepeatIsRun(ch, n);
    assert s[..|r|] == r;
    assert forall k :: |r| <= k < |s| ==> s[k] == Repeat(ch, n)[k - |r|];
    RStripUnique(s, r, ch);
  }

  /** Appending more copies of `ch` does not change what `rstrip(ch)` returns. */
  lemma RStripIgnoresMoreTrailing(s: string, ch: char, n: nat)
    ensures RStrip(s + Repeat(ch, n), ch) == RStrip(s, ch)
  {
    var r := RStrip(s, ch);
    var x := s + Repeat(ch, n);
    RepeatIsRun(ch, n);
    assert x[..|r|] == s[..|r|];
    assert forall k :: |s| <= k < |x| ==> x[k] == Repeat(ch, n)[k - |s|];
    assert forall k :: |r| <= k < |s| ==> x[k] == s[k];
    RStripUnique(x, r, ch);
  }

  /** `rstrip(ch)` is idempotent, and leaves a string not ending in `ch` unchanged. */
  lemma RStripIdempotent(s: string, ch: char)
    ensures RStrip(RStrip(s, ch), ch) == RStrip(s, ch)
    ensures (s == [] || s[|s| - 1] != ch) ==> RStrip(s, ch) == s
  {
    var r := RStrip(s, ch);
    assert r[..|r|] == r;
    RStripUnique(r, r, ch);
    if s == [] || s[|s| - 1] != ch {
      assert s[..|s|] == s;
      RStripUnique(s, s, ch);
    }
  }

  /** The position of the first `c` in `s`, or `|s|` when there is none. */
  function IndexOf(s: string, c: char): nat {
    if s == [] || s[0] == c then 0 else 1 + IndexOf(s[1..], c)
  }

  lemma {:induction false} IndexOfFirst(x: string, y: string, c: char)
    requires c !in x && y != [] && y[0] == c
    ensures IndexOf(x + y, c) == |x|
  {
    if x != [] {
      assert (x + y)[0] == x[0];
      assert (x + y)[1..] == x[1..] + y;
      IndexOfFirst(x[1..], y, c);
    } else {
      assert x + y == y;
    }
  }

  /**
    Two strings that each have no `c` and are each followed by a string
    starting with `c` can be told apart at the first `c`.
  */
  lemma SplitAt(c: char, x1: string, y1: string, x2: string, y2: string)
    requires c !in x1 && c !in x2
    requires y1 != [] && y1[0] == c && y2 != [] && y2[0] == c
    requires x1 + y1 == x2 + y2
    ensures x1 == x2 && y1 == y2
  {
    IndexOfFirst(x1, y1, c);
    IndexOfFirst(x2, y2, c);
    assert x1 == (x1 + y1)[..|x1|];
    assert x2 == (x2 + y2)[..|x2|];
    assert y1 == (x1 + y1)[|x1|..];
    assert y2 == (x2 + y2)[|x2|..];
  }

  lemma DropPrefix(p: string, x: string, y: string)
    requires p + x == p + y
    ensures x == y
  {
    assert x == (p + x)[|p|..] && y == (p + y)[|p|..];
  }

  predicate IsDigit(c: char) {
    '0' <= c <= '9'
  }

  function DigitChar(d: int): (c: char)
    requires 0 <= d < 10
    ensures IsDigit(c)
  {
    ('0' as int + d) as char
  }

  function DigitValue(c: char): int {
    c as int - '0' as int
  }

  /** The decimal digits of a natural number, most significant first, without leading zeros. */
  function NatToString(n: nat): (r: string)
    ensures r != [] && forall k :: 0 <= k < |r| ==> IsDigit(r[k])
    ensures r[0] == '0' <==> n == 0
    ensures n == 0 ==> r == "0"
  {
    if n < 10 then [DigitChar(n)] else NatToString(n / 10) + [DigitChar(n % 10)]
  }

  /**
    A numeral as `str` renders an integer: decimal digits after an optional
    `-`, with no leading zero and no `-0`.
  */
  predicate CanonicalNumeral(s: string) {
    var digits := if s != [] && s[0] == '-' then s[1..] else s;
    && digits != []
    && (forall k :: 0 <= k < |digits| ==> IsDigit(digits[k]))
    && (digits[0] == '0' ==> s == "0")
  }

  /** `str(n)` for an integer: its decimal digits, after a `-` when it is negative. */
  function IntToString(n: int): (r: string)
    ensures r != []
    ensures forall k :: 0 <= k < |r| ==> IsDigit(r[k]) || (k == 0 && r[k] == '-')
    ensures r[0] == '-' <==> n < 0
    ensures CanonicalNumeral(r)
  {
    if n < 0 then
      var r := "-" + NatToString(-n);
      assert r[1..] == NatToString(-n);
      r
    else
      NatToString(n)
  }

  /** The value of a string of decimal digits (the inverse of `NatToString`). */
  function ParseNat(s: string): int {
    if s == [] then 0 else 10 * ParseNat(s[..|s| - 1]) + DigitValue(s[|s| - 1])
  }

  /** The value of a decimal numeral with an optional leading `-` (the inverse of `IntToString`). */
  function ParseInt(s: string): int {
    if s != [] && s[0] == '-' then -ParseNat(s[1..]) else ParseNat(s)
  }

  lemma {:induction false} ParseNatToString(n: nat)
    ensures ParseNat(NatToString(n)) == n
  {
    if n >= 10 {
      var s := NatToString(n);
      assert s[..|s| - 1] == NatToString(n / 10);
      ParseNatToString(n / 10);
    }
  }

  /** Reading back the rendering of an integer gives the integer: the rendering loses nothing. */
  lemma ParseIntToString(n: int)
    ensures ParseInt(IntToString(n)) == n
  {
    if n < 0 {
      assert IntToString(n)[1..] == NatToString(-n);
      ParseNatToString(-n);
    } else {
      ParseNatToString(n);
    }
  }

  /** Distinct integers render as distinct strings. */
  lemma IntToStringInjective(a: int, b: int)
    requires IntToString(a) == IntToString(b)
    ensures a == b
  {
    ParseIntToString(a);
    ParseIntToString(b);
  }

  lemma {:induction false} ParseNatBounds(s: string)
    requires forall k :: 0 <= k < |s| ==> IsDigit(s[k])
    ensures ParseNat(s) >= 0
    ensures s != [] && s[0] != '0' ==> ParseNat(s) >= 1
  {
    if s != [] {
      var t := s[..|s| - 1];
      ParseNatBounds(t);
      if t != [] {
        assert t[0] == s[0];
      }
    }
  }

  /** A digit string without a leading zero is the rendering of its value. */
  lemma {:induction false} ParseNatCanonical(s: string)
    requires s != [] && forall k :: 0 <= k < |s| ==> IsDigit(s[k])
    requires s[0] == '0' ==> s == "0"
    ensures ParseNat(s) >= 0 && NatToString(ParseNat(s)) == s
  {
    ParseNatBounds(s);
    var t, d := s[..|s| - 1], DigitValue(s[|s| - 1]);
    if t == [] {
      assert s == [s[0]];
    } else {
      assert t[0] == s[0];
      ParseNatCanonical(t);
      ParseNatBounds(t);
      var m, n := ParseNat(t), ParseNat(s);
      assert n == 10 * m + d && 0 <= d < 10;
      assert n / 10 == m && n % 10 == d;
      assert s == t + [s[|s| - 1]];
    }
  }

  /**
    Every canonical numeral is the rendering of the integer it denotes, so
    `str` is a one-to-one correspondence between the integers and the
    canonical numerals.
  */
  lemma IntToStringUnique(s: string)
    requires CanonicalNumeral(s)
    ensures IntToString(ParseInt(s)) == s
  {
    if s[0] == '-' {
      var digits := s[1..];
      ParseNatCanonical(digits);
      ParseNatBounds(digits);
      assert s == "-" + digits;
    } else {
      ParseNatCanonical(s);
    }
  }
}
