/** The `System.String` operations the sales core relies on: trimming,
    case mapping, prefix and suffix tests, `Replace`, `Split`, `Join`,
    ordinal comparison and number formatting. */
module Text {
  import opened SystemTypes
  import opened Sequences

  /** `char.IsWhiteSpace`: the Unicode space, line and paragraph separators,
      the control characters U+0009 to U+000D, and U+0085. */
  predicate IsWhiteSpace(c: char)
  {
    || c == ' ' || ('\t' <= c <= '\r') || c == '\U{0085}' || c == '\U{00A0}' || c == '\U{1680}'
    || ('\U{2000}' <= c <= '\U{200A}') || c == '\U{2028}' || c == '\U{2029}'
    || c == '\U{202F}' || c == '\U{205F}' || c == '\U{3000}'
  }

  /** `string.IsNullOrWhiteSpace`, with `null` represented by the empty string. */
  predicate IsNullOrWhiteSpace(s: string)
  {
    forall i | 0 <= i < |s| :: IsWhiteSpace(s[i])
  }

  /** `TrimStart()`: drops white space from the front. */
  function TrimStart(s: string): string
  {
    if s != [] && IsWhiteSpace(s[0]) then TrimStart(s[1..]) else s
  }

  /** `TrimEnd()`: drops white space from the back. */
  function TrimEnd(s: string): string
  {
    if s != [] && IsWhiteSpace(s[|s| - 1]) then TrimEnd(s[..|s| - 1]) else s
  }

  /** `Trim()`: `s` without its leading and trailing white space. The
      functions carry no contract so that a caller pays for their
      properties only where it asks for them, through the lemmas below. */
  function Trim(s: string): string
  {
    TrimEnd(TrimStart(s))
  }

  /** `TrimStart` yields the longest suffix that does not start with white space. */
  lemma {:induction false} TrimStartSpec(s: string)
    ensures var r := TrimStart(s);
      && |r| <= |s| && r == s[|s| - |r|..]
      && (r != [] ==> !IsWhiteSpace(r[0]))
      && (forall i | 0 <= i < |s| - |r| :: IsWhiteSpace(s[i]))
  {
    if s != [] && IsWhiteSpace(s[0]) {
      TrimStartSpec(s[1..]);
      var r := TrimStart(s);
      forall i | 0 <= i < |s| - |r| ensures IsWhiteSpace(s[i]) {
        if i > 0 { assert s[i] == s[1..][i - 1]; }
      }
    }
  }

  /** `TrimEnd` yields the longest prefix that does not end with white space. */
  lemma {:induction false} TrimEndSpec(s: string)
    ensures var r := TrimEnd(s);
      && |r| <= |s| && r == s[..|r|]
      && (r != [] ==> !IsWhiteSpace(r[|r| - 1]))
      && (forall i | |r| <= i < |s| :: IsWhiteSpace(s[i]))
  {
    if s != [] && IsWhiteSpace(s[|s| - 1]) {
      TrimEndSpec(s[..|s| - 1]);
      var r := TrimEnd(s);
      forall i | |r| <= i < |s| ensures IsWhiteSpace(s[i]) {
        if i < |s| - 1 { assert s[i] == s[..|s| - 1][i]; }
      }
    }
  }

  /** `Trim` yields a slice of `s` that neither starts nor ends with white
      space, drops only white space before and after it, and is empty
      exactly for a blank string. */
  lemma TrimSpec(s: string)
    ensures var r := Trim(s);
      && |r| <= |s|
      && (r != [] ==> !IsWhiteSpace(r[0]) && !IsWhiteSpace(r[|r| - 1]))
      && (var k := |s| - |TrimStart(s)|; 0 <= k <= |s| - |r| && r == s[k..k + |r|])
      && (var k := |s| - |TrimStart(s)|;
            && (forall i | 0 <= i < k :: IsWhiteSpace(s[i]))
            && (forall i | k + |r| <= i < |s| :: IsWhiteSpace(s[i])))
      && (r == [] <==> IsNullOrWhiteSpace(s))
  {
    var t := TrimStart(s);
    var r := TrimEnd(t);
    var k := |s| - |t|;
    TrimStartSpec(s);
    TrimEndSpec(t);
    TrimmedTail(s, t, r);
    if r != [] {
      assert r[0] == s[k];
      assert !IsNullOrWhiteSpace(s) by {
        assert !IsWhiteSpace(s[k]);
      }
    }
  }

  /** A prefix `r` of a suffix `t` of `s` is the slice of `s` after the part
      `t` drops, and the white space after `r` in `t` is white space of `s`. */
  lemma TrimmedTail(s: string, t: string, r: string)
    requires |t| <= |s| && t == s[|s| - |t|..]
    requires |r| <= |t| && r == t[..|r|]
    requires forall i | |r| <= i < |t| :: IsWhiteSpace(t[i])
    ensures var k := |s| - |t|; r == s[k..k + |r|]
    ensures forall i | |s| - |t| + |r| <= i < |s| :: IsWhiteSpace(s[i])
  {
    var k := |s| - |t|;
    forall i | k + |r| <= i < |s| ensures IsWhiteSpace(s[i]) {
      assert s[i] == t[i - k];
    }
  }

  function ToLowerChar(c: char): char
  {
    if 'A' <= c <= 'Z' then (c as int + 32) as char else c
  }

  function ToUpperChar(c: char): char
  {
    if 'a' <= c <= 'z' then (c as int - 32) as char else c
  }

  /** `ToLower()` on the ASCII letters; every other character is kept. */
  function ToLower(s: string): (r: string)
    ensures |r| == |s|
  {
    seq(|s|, i requires 0 <= i < |s| => ToLowerChar(s[i]))
  }

  /** `ToUpper()` on the ASCII letters; every other character is kept. */
  function ToUpper(s: string): (r: string)
    ensures |r| == |s|
  {
    seq(|s|, i requires 0 <= i < |s| => ToUpperChar(s[i]))
  }

  /** Lower-casing ignores a prior upper-casing: the two agree on every text
      that differs only in letter case. */
  lemma ToLowerOfUpper(s: string)
    ensures ToLower(ToUpper(s)) == ToLower(s)
  {
    forall i | 0 <= i < |s| ensures ToLower(ToUpper(s))[i] == ToLower(s)[i] {
      assert ToUpper(s)[i] == ToUpperChar(s[i]);
    }
  }

  /** Ordinal `StartsWith`. */
  predicate StartsWith(s: string, prefix: string)
  {
    |prefix| <= |s| && s[..|prefix|] == prefix
  }

  /** Ordinal `EndsWith`. */
  predicate EndsWith(s: string, suffix: string)
  {
    |suffix| <= |s| && s[|s| - |suffix|..] == suffix
  }

  /** `EndsWith(suffix, StringComparison.OrdinalIgnoreCase)`. */
  predicate EndsWithIgnoreCase(s: string, suffix: string)
  {
    |suffix| <= |s| && ToUpper(s[|s| - |suffix|..]) == ToUpper(suffix)
  }

  /** `Replace(c.ToString(), "")`: `s` with every `c` removed. */
  function RemoveChar(s: string, c: char): (r: string)
    ensures c !in r
    ensures forall x | x != c :: multiset(r)[x] == multiset(s)[x]
  {
    if s == [] then []
    else
      var rest := RemoveChar(s[1..], c);
      assert s == [s[0]] + s[1..];
      if s[0] == c then rest else [s[0]] + rest
  }

  /** `Split(sep)`: the pieces of `s` between the occurrences of `sep`,
      empty pieces included. */
  function SplitAll(s: string, sep: char): (r: seq<string>)
    ensures |r| >= 1
    ensures forall i | 0 <= i < |r| :: sep !in r[i]
  {
    if s == [] then [""]
    else
      var rest := SplitAll(s[1..], sep);
      if s[0] == sep then [""] + rest else [[s[0]] + rest[0]] + rest[1..]
  }

  /** `Split(sep, StringSplitOptions.RemoveEmptyEntries)`. */
  function SplitRemoveEmpty(s: string, sep: char): (r: seq<string>)
    ensures forall i | 0 <= i < |r| :: r[i] != [] && sep !in r[i]
  {
    NonEmptySpec(SplitAll(s, sep));
    NonEmpty(SplitAll(s, sep))
  }

  /** The pieces that are not empty, in order. Its contract is the lemma
      below, so that proofs about it do not pay for a quantifier. */
  function NonEmpty(pieces: seq<string>): seq<string>
  {
    if pieces == [] then []
    else if pieces[0] == [] then NonEmpty(pieces[1..])
    else [pieces[0]] + NonEmpty(pieces[1..])
  }

  lemma {:induction false} NonEmptySpec(pieces: seq<string>)
    ensures forall i | 0 <= i < |NonEmpty(pieces)| :: NonEmpty(pieces)[i] != [] && NonEmpty(pieces)[i] in pieces
  {
    if pieces != [] {
      NonEmptySpec(pieces[1..]);
      var rest := NonEmpty(pieces[1..]);
      if pieces[0] != [] {
        forall i | 0 <= i < |NonEmpty(pieces)|
          ensures NonEmpty(pieces)[i] != [] && NonEmpty(pieces)[i] in pieces
        {
          if i > 0 { assert NonEmpty(pieces)[i] == rest[i - 1]; }
        }
      }
    }
  }

  /** `string.Join(sep, parts)`. */
  function Join(sep: string, parts: seq<string>): string
  {
    if parts == [] then ""
    else if |parts| == 1 then parts[0]
    else parts[0] + sep + Join(sep, parts[1..])
  }

  /** Where `parts[i]` starts inside `Join(sep, parts)`. */
  function JoinOffset(sep: string, parts: seq<string>, i: nat): nat
    requires i < |parts|
  {
    if i == 0 then 0 else |parts[0]| + |sep| + JoinOffset(sep, parts[1..], i - 1)
  }

  /** `Join` keeps every part, in order: part `i` sits at `JoinOffset(i)`,
      and consecutive parts are separated by exactly `sep`. */
  lemma {:induction false} JoinKeepsParts(sep: string, parts: seq<string>, i: nat)
    requires i < |parts|
    ensures JoinOffset(sep, parts, i) + |parts[i]| <= |Join(sep, parts)|
    ensures Join(sep, parts)[JoinOffset(sep, parts, i)..JoinOffset(sep, parts, i) + |parts[i]|] == parts[i]
    ensures i + 1 < |parts| ==>
      && JoinOffset(sep, parts, i + 1) == JoinOffset(sep, parts, i) + |parts[i]| + |sep|
      && JoinOffset(sep, parts, i + 1) <= |Join(sep, parts)|
      && Join(sep, parts)[JoinOffset(sep, parts, i) + |parts[i]|..JoinOffset(sep, parts, i + 1)] == sep
  {
    if |parts| > 1 {
      var tail := Join(sep, parts[1..]);
      assert Join(sep, parts) == parts[0] + sep + tail;
      if i == 0 {
        assert Join(sep, parts)[..|parts[0]|] == parts[0];
        assert JoinOffset(sep, parts, 1) == |parts[0]| + |sep| + JoinOffset(sep, parts[1..], 0);
      } else {
        JoinKeepsParts(sep, parts[1..], i - 1);
        var k := |parts[0]| + |sep|;
        assert Join(sep, parts)[k..] == tail;
        assert parts[1..][i - 1] == parts[i];
      }
    }
  }

  lemma {:induction false} JoinLength(sep: string, parts: seq<string>)
    requires parts != []
    ensures |Join(sep, parts)| == JoinOffset(sep, parts, |parts| - 1) + |parts[|parts| - 1]|
  {
    if |parts| > 1 {
      JoinLength(sep, parts[1..]);
    }
  }

  /** Splitting on a character and joining the pieces back with it gives the
      original string. */
  lemma {:induction false} SplitAllJoin(s: string, sep: char)
    ensures Join([sep], SplitAll(s, sep)) == s
  {
    if s != [] {
      var rest := SplitAll(s[1..], sep);
      SplitAllJoin(s[1..], sep);
      if s[0] == sep {
        assert Join([sep], [""] + rest) == "" + [sep] + Join([sep], rest);
      } else {
        JoinPrepend([sep], [s[0]], rest);
      }
    }
  }

  lemma JoinPrepend(sep: string, a: string, parts: seq<string>)
    requires parts != []
    ensures Join(sep, [a + parts[0]] + parts[1..]) == a + Join(sep, parts)
  {
    var ps := [a + parts[0]] + parts[1..];
    if |parts| > 1 {
      assert ps[1..] == parts[1..];
    }
  }

  /** A string without the separator is a single piece. */
  lemma {:induction false} SplitAllNoSeparator(s: string, sep: char)
    requires sep !in s
    ensures SplitAll(s, sep) == [s]
  {
    if s != [] {
      SplitAllNoSeparator(s[1..], sep);
      assert s == [s[0]] + s[1..];
    }
  }

  /** Splitting at one occurrence of the separator splits the two sides
      independently. */
  lemma {:induction false} SplitAllAround(x: string, y: string, sep: char)
    ensures SplitAll(x + [sep] + y, sep) == SplitAll(x, sep) + SplitAll(y, sep)
  {
    var s := x + [sep] + y;
    if x == [] {
      assert s[1..] == y;
    } else {
      assert s[1..] == x[1..] + [sep] + y;
      SplitAllAround(x[1..], y, sep);
    }
  }

  lemma {:induction false} NonEmptyAppend(a: seq<string>, b: seq<string>)
    ensures NonEmpty(a + b) == NonEmpty(a) + NonEmpty(b)
  {
    if a != [] {
      var rest := NonEmpty(a[1..] + b);
      assert NonEmpty(a + b) == if a[0] == [] then rest else [a[0]] + rest by {
        assert (a + b)[0] == a[0];
        assert (a + b)[1..] == a[1..] + b;
      }
      assert rest == NonEmpty(a[1..]) + NonEmpty(b) by {
        NonEmptyAppend(a[1..], b);
      }
      if a[0] != [] {
        assert [a[0]] + (NonEmpty(a[1..]) + NonEmpty(b)) == ([a[0]] + NonEmpty(a[1..])) + NonEmpty(b);
      }
    } else {
      assert a + b == b;
    }
  }

  /** A string that neither starts nor ends with white space is its own trim. */
  lemma TrimUnchanged(s: string)
    requires s != [] && !IsWhiteSpace(s[0]) && !IsWhiteSpace(s[|s| - 1])
    ensures Trim(s) == s
  {
    assert TrimStart(s) == s;
  }

  function Concat(parts: seq<string>): string
  {
    if parts == [] then "" else parts[0] + Concat(parts[1..])
  }

  /** Splitting with empty entries removed loses only the separators. */
  lemma {:induction false} SplitRemoveEmptyConcat(s: string, sep: char)
    ensures Concat(SplitRemoveEmpty(s, sep)) == RemoveChar(s, sep)
  {
    SplitAllConcat(s, sep);
    NonEmptyConcat(SplitAll(s, sep));
  }

  lemma {:induction false} SplitAllConcat(s: string, sep: char)
    ensures Concat(SplitAll(s, sep)) == RemoveChar(s, sep)
  {
    if s != [] {
      SplitAllConcat(s[1..], sep);
      var rest := SplitAll(s[1..], sep);
      if s[0] == sep {
        assert Concat([""] + rest) == "" + Concat(rest);
      } else {
        var ps := [[s[0]] + rest[0]] + rest[1..];
        assert ps[1..] == rest[1..];
        assert Concat(rest) == rest[0] + Concat(rest[1..]);
      }
    }
  }

  lemma {:induction false} NonEmptyConcat(pieces: seq<string>)
    ensures Concat(NonEmpty(pieces)) == Concat(pieces)
  {
    if pieces != [] {
      NonEmptyConcat(pieces[1..]);
      if pieces[0] != [] {
        assert ([pieces[0]] + NonEmpty(pieces[1..]))[1..] == NonEmpty(pieces[1..]);
      }
    }
  }

  function Codes(s: string): (r: seq<int>)
    ensures |r| == |s|
  {
    seq(|s|, i requires 0 <= i < |s| => s[i] as int)
  }

  /** `string.CompareOrdinal`: lexicographic by UTF-16 code unit. */
  function CompareOrdinal(x: string, y: string): int
  {
    CompareSeq(Codes(x), Codes(y))
  }

  lemma CompareOrdinalZeroIff(x: string, y: string)
    ensures CompareOrdinal(x, y) == 0 <==> x == y
  {
    CompareSeqZeroIff(Codes(x), Codes(y));
    if Codes(x) == Codes(y) {
      forall i | 0 <= i < |x| ensures x[i] == y[i] {
        assert Codes(x)[i] == Codes(y)[i];
      }
    }
  }

  function Pow(base: nat, n: nat): nat
  {
    if n == 0 then 1 else base * Pow(base, n - 1)
  }

  /** The digit for `d` in bases up to 16, with lower-case letters. */
  function DigitChar(d: int): char
    requires 0 <= d < 16
  {
    if d < 10 then ('0' as int + d) as char else ('a' as int + d - 10) as char
  }

  /** The value of a decimal or hexadecimal digit of either case; -1 for
      anything else. */
  function DigitValue(c: char): int
  {
    if '0' <= c <= '9' then c as int - '0' as int
    else if 'a' <= c <= 'f' then c as int - 'a' as int + 10
    else if 'A' <= c <= 'F' then c as int - 'A' as int + 10
    else -1
  }

  /** The last `width` digits of `n` in `base`, zero-padded: what the format
      strings "D4", "D2" and "x8" produce for values that fit. */
  function FixedDigits(n: nat, width: nat, base: nat): (r: string)
    requires 2 <= base <= 16
    ensures |r| == width
    ensures forall i | 0 <= i < width :: 0 <= DigitValue(r[i]) < base
    decreases width
  {
    if width == 0 then ""
    else FixedDigits(n / base, width - 1, base) + [DigitChar(n % base)]
  }

  /** Every character of `s` is a digit below `base`. */
  predicate DigitsBelow(s: string, base: nat)
  {
    forall i | 0 <= i < |s| :: 0 <= DigitValue(s[i]) < base
  }

  /** Two digit strings in the same base concatenate to one. */
  lemma DigitsBelowConcat(a: string, b: string, base: nat)
    requires DigitsBelow(a, base) && DigitsBelow(b, base)
    ensures DigitsBelow(a + b, base)
  {
    forall i | 0 <= i < |a + b| ensures 0 <= DigitValue((a + b)[i]) < base {
      if i >= |a| {
        assert (a + b)[i] == b[i - |a|];
      }
    }
  }

  /** The number that a string of digits spells in `base`. */
  function DigitsValue(s: string, base: nat): int
  {
    if s == [] then 0 else DigitsValue(s[..|s| - 1], base) * base + DigitValue(s[|s| - 1])
  }

  /** Reading back a fixed-width rendering of a number that fits gives the number. */
  lemma {:induction false} FixedDigitsRoundTrip(n: nat, width: nat, base: nat)
    requires 2 <= base <= 16 && n < Pow(base, width)
    ensures DigitsValue(FixedDigits(n, width, base), base) == n
    decreases width
  {
    if width > 0 {
      var q, d := n / base, n % base;
      var prefix := FixedDigits(q, width - 1, base);
      DivBelowPow(n, base, width);
      FixedDigitsRoundTrip(q, width - 1, base);
      LastDigit(n, base, prefix, q, d);
    }
  }

  /** Appending the digit `d` to a rendering of `q` spells `q * base + d`. */
  lemma LastDigit(n: nat, base: nat, prefix: string, q: nat, d: nat)
    requires 2 <= base <= 16 && d < base && n == q * base + d && DigitsValue(prefix, base) == q
    ensures DigitsValue(prefix + [DigitChar(d)], base) == n
  {
    DigitsValueSnoc(prefix, DigitChar(d), base);
    DigitCharValue(d);
  }

  /** One more digit at the end multiplies the value by the base and adds
      the digit. */
  lemma DigitsValueSnoc(prefix: string, c: char, base: nat)
    ensures DigitsValue(prefix + [c], base) == DigitsValue(prefix, base) * base + DigitValue(c)
  {
    assert (prefix + [c])[..|prefix|] == prefix;
  }

  lemma DigitCharValue(d: int)
    requires 0 <= d < 16
    ensures DigitValue(DigitChar(d)) == d
  {
  }

  lemma DivBelowPow(n: nat, base: nat, width: nat)
    requires 2 <= base && width > 0 && n < Pow(base, width)
    ensures n / base < Pow(base, width - 1)
    ensures n == (n / base) * base + n % base && n % base < base
  {
    var q, p := n / base, Pow(base, width - 1);
    if q >= p {
      MulMonotone(q, p, base);
      assert false;
    }
  }

  lemma MulMonotone(x: nat, y: nat, k: nat)
    requires x >= y
    ensures x * k >= y * k
  {
  }

  /** The character class `[0-9]`. */
  predicate IsAsciiDigit(c: char)
  {
    '0' <= c <= '9'
  }

  /** The character class `[A-F0-9]`. */
  predicate IsUpperHexDigit(c: char)
  {
    '0' <= c <= '9' || 'A' <= c <= 'F'
  }

  /** A decimal digit rendered by `FixedDigits` is an ASCII digit, and
      upper-casing leaves it alone. */
  lemma DecimalDigitUpper(c: char)
    requires 0 <= DigitValue(c) < 10
    ensures IsAsciiDigit(c) && ToUpperChar(c) == c
  {
  }

  /** A hexadecimal digit rendered by `FixedDigits` becomes a member of
      `[A-F0-9]` once upper-cased. */
  lemma HexDigitUpper(c: char)
    requires 0 <= DigitValue(c) < 16
    ensures IsUpperHexDigit(ToUpperChar(c))
  {
  }

  lemma ToUpperAppend(x: string, y: string)
    ensures ToUpper(x + y) == ToUpper(x) + ToUpper(y)
  {
  }

  lemma ToUpperSlice(s: string, i: nat, j: nat)
    requires i <= j <= |s|
    ensures ToUpper(s)[i..j] == ToUpper(s[i..j])
  {
  }

  /** Upper-casing a string of digits does not change the number it spells. */
  lemma {:induction false} DigitsValueToUpper(s: string, base: nat)
    ensures DigitsValue(ToUpper(s), base) == DigitsValue(s, base)
  {
    if s != [] {
      var u := ToUpper(s);
      assert u[..|u| - 1] == ToUpper(s[..|s| - 1]);
      DigitsValueToUpper(s[..|s| - 1], base);
      assert DigitValue(ToUpperChar(s[|s| - 1])) == DigitValue(s[|s| - 1]);
    }
  }

  /** `int.ToString()` for a non-negative value. */
  function NatToString(n: nat): (r: string)
    ensures r != []
  {
    if n < 10 then [DigitChar(n)] else NatToString(n / 10) + [DigitChar(n % 10)]
  }

  /** `Guid.ToString()`: the "D" format, 32 lower-case hexadecimal digits in
      groups of 8-4-4-4-12. */
  function GuidToString(x: Guid): (r: string)
    ensures |r| == 36
  {
    FixedDigits(x.a, 8, 16) + "-" + FixedDigits(x.b, 4, 16) + "-" + FixedDigits(x.c, 4, 16) + "-"
    + FixedDigits(x.d, 2, 16) + FixedDigits(x.e, 2, 16) + "-"
    + FixedDigits(x.f, 2, 16) + FixedDigits(x.g, 2, 16) + FixedDigits(x.h, 2, 16)
    + FixedDigits(x.i, 2, 16) + FixedDigits(x.j, 2, 16) + FixedDigits(x.k, 2, 16)
  }

  /** The "D" layout: dashes at positions 8, 13, 18 and 23, and between
      them the fields in order, each as its own fixed-width group of
      hexadecimal digits. */
  lemma GuidToStringLayout(x: Guid)
    ensures var r := GuidToString(x);
      && r[8] == '-' && r[13] == '-' && r[18] == '-' && r[23] == '-'
      && r[..8] == FixedDigits(x.a, 8, 16) && r[9..13] == FixedDigits(x.b, 4, 16)
      && r[14..18] == FixedDigits(x.c, 4, 16)
      && r[19..21] == FixedDigits(x.d, 2, 16) && r[21..23] == FixedDigits(x.e, 2, 16)
      && r[24..26] == FixedDigits(x.f, 2, 16) && r[26..28] == FixedDigits(x.g, 2, 16)
      && r[28..30] == FixedDigits(x.h, 2, 16) && r[30..32] == FixedDigits(x.i, 2, 16)
      && r[32..34] == FixedDigits(x.j, 2, 16) && r[34..36] == FixedDigits(x.k, 2, 16)
  {
    var r := GuidToString(x);
    var p1 := FixedDigits(x.a, 8, 16) + "-";
    var p2 := p1 + FixedDigits(x.b, 4, 16) + "-";
    var p3 := p2 + FixedDigits(x.c, 4, 16) + "-";
    var p4 := p3 + FixedDigits(x.d, 2, 16);
    var p5 := p4 + FixedDigits(x.e, 2, 16) + "-";
    var p6 := p5 + FixedDigits(x.f, 2, 16);
    var p7 := p6 + FixedDigits(x.g, 2, 16);
    var p8 := p7 + FixedDigits(x.h, 2, 16);
    var p9 := p8 + FixedDigits(x.i, 2, 16);
    var p10 := p9 + FixedDigits(x.j, 2, 16);
    TakeWhole(r, |r|);
    PrefixSplit(r, p10, FixedDigits(x.k, 2, 16));
    PrefixSplit(r, p9, FixedDigits(x.j, 2, 16));
    PrefixSplit(r, p8, FixedDigits(x.i, 2, 16));
    PrefixSplit(r, p7, FixedDigits(x.h, 2, 16));
    PrefixSplit(r, p6, FixedDigits(x.g, 2, 16));
    PrefixSplit(r, p5, FixedDigits(x.f, 2, 16));
    PrefixSplit(r, p4 + FixedDigits(x.e, 2, 16), "-");
    PrefixSplit(r, p4, FixedDigits(x.e, 2, 16));
    PrefixSplit(r, p3, FixedDigits(x.d, 2, 16));
    PrefixSplit(r, p2 + FixedDigits(x.c, 4, 16), "-");
    PrefixSplit(r, p2, FixedDigits(x.c, 4, 16));
    PrefixSplit(r, p1 + FixedDigits(x.b, 4, 16), "-");
    PrefixSplit(r, p1, FixedDigits(x.b, 4, 16));
    PrefixSplit(r, FixedDigits(x.a, 8, 16), "-");
    PrefixSplit(r, [], FixedDigits(x.a, 8, 16));
  }

  /** Each hexadecimal group of the "D" form reads back as its field, so the
      text names the identifier it was made from. */
  lemma GuidToStringReadBack(x: Guid)
    ensures var r := GuidToString(x);
      && |r| == 36 && r[8] == '-' && r[13] == '-' && r[18] == '-' && r[23] == '-'
      && DigitsValue(r[..8], 16) == x.a && DigitsValue(r[9..13], 16) == x.b
      && DigitsValue(r[14..18], 16) == x.c
      && DigitsValue(r[19..21], 16) == x.d && DigitsValue(r[21..23], 16) == x.e
      && DigitsValue(r[24..26], 16) == x.f && DigitsValue(r[26..28], 16) == x.g
      && DigitsValue(r[28..30], 16) == x.h && DigitsValue(r[30..32], 16) == x.i
      && DigitsValue(r[32..34], 16) == x.j && DigitsValue(r[34..36], 16) == x.k
  {
    GuidToStringLayout(x);
    assert Pow(16, 2) == 0x100 && Pow(16, 4) == 0x1_0000 && Pow(16, 8) == 0x1_0000_0000;
    FixedDigitsRoundTrip(x.a, 8, 16);
    FixedDigitsRoundTrip(x.b, 4, 16);
    FixedDigitsRoundTrip(x.c, 4, 16);
    FixedDigitsRoundTrip(x.d, 2, 16);
    FixedDigitsRoundTrip(x.e, 2, 16);
    FixedDigitsRoundTrip(x.f, 2, 16);
    FixedDigitsRoundTrip(x.g, 2, 16);
    FixedDigitsRoundTrip(x.h, 2, 16);
    FixedDigitsRoundTrip(x.i, 2, 16);
    FixedDigitsRoundTrip(x.j, 2, 16);
    FixedDigitsRoundTrip(x.k, 2, 16);
  }

  /** Different identifiers render differently. */
  lemma GuidToStringInjective(x: Guid, y: Guid)
    ensures GuidToString(x) == GuidToString(y) ==> x == y
  {
    GuidToStringReadBack(x);
    GuidToStringReadBack(y);
  }
}
