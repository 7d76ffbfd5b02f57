/**
 * The few .NET string operations the binding parser relies on: `String.Trim()`,
 * `String.Split('=')`, and the two pieces of `Enum.TryParse(value, ignoreCase: true)`
 * that can accept a string (a case-insensitive name, or a decimal Int32).
 */
module DotNetText {
  import opened Wrappers
  import opened Sequences

  /** `string.IsNullOrEmpty`. */
  predicate IsNullOrEmpty(s: Option<string>) {
    s.None? || s.value == ""
  }

  /** `Char.IsWhiteSpace`: the Unicode space separators, line and paragraph separators,
      U+0009..U+000D and U+0085. */
  predicate IsWhiteSpace(c: char) {
    || c == ' '
    || ('\t' <= c <= '\r')
    || c == '\U{0085}' || c == '\U{00A0}' || c == '\U{1680}'
    || ('\U{2000}' <= c <= '\U{200A}')
    || c == '\U{2028}' || c == '\U{2029}' || c == '\U{202F}' || c == '\U{205F}' || c == '\U{3000}'
  }

  predicate AllWhiteSpace(s: string) {
    forall i :: 0 <= i < |s| ==> IsWhiteSpace(s[i])
  }

  lemma WhiteSpaceAppend(a: string, b: string)
    requires AllWhiteSpace(a) && AllWhiteSpace(b)
    ensures AllWhiteSpace(a + b)
  {
    forall i | 0 <= i < |a + b| ensures IsWhiteSpace((a + b)[i]) {
      if i >= |a| {
        assert (a + b)[i] == b[i - |a|];
      }
    }
  }

  /** `String.TrimStart()`: drops the longest white-space prefix. */
  function TrimStart(s: string): (r: string)
    ensures |r| <= |s| && r == s[|s| - |r|..]
    ensures AllWhiteSpace(s[..|s| - |r|])
    ensures r == [] || !IsWhiteSpace(r[0])
  {
    if s != [] && IsWhiteSpace(s[0]) then
      var r := TrimStart(s[1..]);
      assert s[..|s| - |r|] == [s[0]] + s[1..][..|s| - 1 - |r|];
      WhiteSpaceAppend([s[0]], s[1..][..|s| - 1 - |r|]);
      r
    else s
  }

  /** `String.TrimEnd()`: drops the longest white-space suffix. */
  function TrimEnd(s: string): (r: string)
    ensures |r| <= |s| && r == s[..|r|]
    ensures AllWhiteSpace(s[|r|..])
    ensures r == [] || !IsWhiteSpace(r[|r| - 1])
  {
    if s != [] && IsWhiteSpace(s[|s| - 1]) then
      var r := TrimEnd(s[..|s| - 1]);
      assert s[|r|..] == s[..|s| - 1][|r|..] + [s[|s| - 1]];
      WhiteSpaceAppend(s[..|s| - 1][|r|..], [s[|s| - 1]]);
      r
    else s
  }

  /** `String.Trim()`. */
  function Trim(s: string): (r: string)
    ensures r == [] || (!IsWhiteSpace(r[0]) && !IsWhiteSpace(r[|r| - 1]))
    ensures r == [] <==> AllWhiteSpace(s)
  {
    var r := TrimEnd(TrimStart(s));
    assert r == [] ==> AllWhiteSpace(s) by {
      if r == [] {
        var t := TrimStart(s);
        assert s == s[..|s| - |t|] + t;
        assert AllWhiteSpace(t[|r|..]);
      }
    }
    r
  }

  /** Trimming leaves a string without surrounding white space unchanged. */
  lemma TrimTrimmed(s: string)
    requires s == [] || (!IsWhiteSpace(s[0]) && !IsWhiteSpace(s[|s| - 1]))
    ensures Trim(s) == s
  {
  }

  lemma {:induction false} TrimStartPadded(pre: string, s: string)
    requires AllWhiteSpace(pre)
    ensures TrimStart(pre + s) == TrimStart(s)
  {
    if pre == [] {
      assert pre + s == s;
    } else {
      assert (pre + s)[0] == pre[0] && IsWhiteSpace(pre[0]);
      assert (pre + s)[1..] == pre[1..] + s;
      assert AllWhiteSpace(pre[1..]) by {
        forall i | 0 <= i < |pre[1..]| ensures IsWhiteSpace(pre[1..][i]) {
          assert pre[1..][i] == pre[i + 1];
        }
      }
      TrimStartPadded(pre[1..], s);
    }
  }

  lemma {:induction false} TrimEndPadded(s: string, post: string)
    requires AllWhiteSpace(post)
    ensures TrimEnd(s + post) == TrimEnd(s)
  {
    if post == [] {
      assert s + post == s;
    } else {
      assert (s + post)[|s + post| - 1] == post[|post| - 1] && IsWhiteSpace(post[|post| - 1]);
      assert (s + post)[..|s + post| - 1] == s + post[..|post| - 1];
      assert AllWhiteSpace(post[..|post| - 1]) by {
        var front := post[..|post| - 1];
        forall i | 0 <= i < |front| ensures IsWhiteSpace(front[i]) {
          assert front[i] == post[i];
        }
      }
      TrimEndPadded(s, post[..|post| - 1]);
    }
  }

  lemma {:induction false} TrimEndOfTrimmedStart(s: string, post: string)
    requires s == [] || !IsWhiteSpace(s[0])
    requires AllWhiteSpace(post)
    ensures TrimStart(s + post) == if s == [] then [] else s + post
  {
    if s == [] {
      assert s + post == post;
    } else {
      assert (s + post)[0] == s[0];
    }
  }

  /** Trimming the start of a string followed by white space. */
  lemma TrimStartPaddedEnd(s: string, post: string)
    requires AllWhiteSpace(post)
    ensures var t := TrimStart(s); TrimStart(s + post) == if t == [] then [] else t + post
  {
    var t := TrimStart(s);
    var w := s[..|s| - |t|];
    assert s == w + t;
    AppendAssoc(w, t, post);
    TrimStartPadded(w, t + post);
    TrimEndOfTrimmedStart(t, post);
  }

  /** White space around a value does not change what `Trim` returns: `" Mode "` and
      `"Mode"` name the same binding parameter. */
  lemma TrimPadded(pre: string, s: string, post: string)
    requires AllWhiteSpace(pre) && AllWhiteSpace(post)
    ensures Trim(pre + s + post) == Trim(s)
  {
    AppendAssoc(pre, s, post);
    TrimStartPadded(pre, s + post);
    TrimStartPaddedEnd(s, post);
    var t := TrimStart(s);
    if t != [] {
      TrimEndPadded(t, post);
    }
  }

  /** The inverse of `Split`. */
  function Join(parts: seq<string>, sep: char): string
    requires |parts| > 0
  {
    if |parts| == 1 then parts[0] else parts[0] + [sep] + Join(parts[1..], sep)
  }

  /** `String.Split(sep)`: every piece between separators, empty pieces included, so that
      a string with n separators falls into n + 1 pieces. */
  function Split(s: string, sep: char): (parts: seq<string>)
    ensures |parts| == multiset(s)[sep] + 1
    ensures forall i :: 0 <= i < |parts| ==> sep !in parts[i]
  {
    if s == [] then [[]]
    else
      var rest := Split(s[1..], sep);
      assert s == [s[0]] + s[1..];
      if s[0] == sep then [[]] + rest
      else [[s[0]] + rest[0]] + rest[1..]
  }

  /** Putting a character in front of the first piece puts it in front of the join. */
  lemma JoinCons(c: char, parts: seq<string>, sep: char)
    requires |parts| > 0
    ensures Join([[c] + parts[0]] + parts[1..], sep) == [c] + Join(parts, sep)
  {
    var longer := [[c] + parts[0]] + parts[1..];
    if |parts| > 1 {
      assert longer[1..] == parts[1..];
      var tail := Join(parts[1..], sep);
      AppendAssoc([c], parts[0] + [sep], tail);
      AppendAssoc([c], parts[0], [sep]);
    }
  }

  /** Joining the pieces with the separator gives the string back. */
  lemma {:induction false} JoinSplit(s: string, sep: char)
    ensures Join(Split(s, sep), sep) == s
  {
    if s != [] {
      JoinSplit(s[1..], sep);
      var rest := Split(s[1..], sep);
      assert s == [s[0]] + s[1..];
      if s[0] == sep {
        assert ([[]] + rest)[1..] == rest;
      } else {
        JoinCons(s[0], rest, sep);
      }
    }
  }

  lemma {:induction false} SplitNoSeparator(s: string, sep: char)
    requires sep !in s
    ensures Split(s, sep) == [s]
  {
    if s != [] {
      assert s == [s[0]] + s[1..];
      assert s[0] != sep && sep !in s[1..];
      SplitNoSeparator(s[1..], sep);
    }
  }

  lemma {:induction false} SplitAtFirst(p: string, sep: char, t: string)
    requires sep !in p
    ensures Split(p + [sep] + t, sep) == [p] + Split(t, sep)
  {
    var s := p + [sep] + t;
    if p == [] {
      assert s == [sep] + t;
      assert s[0] == sep && s[1..] == t;
    } else {
      var q := p[1..];
      assert p == [p[0]] + q;
      AppendAssoc([p[0]], q, [sep]);
      AppendAssoc([p[0]], q + [sep], t);
      assert s == [p[0]] + (q + [sep] + t);
      assert s[0] == p[0] && s[1..] == q + [sep] + t;
      SplitAtFirst(q, sep, t);
      var rest := Split(s[1..], sep);
      assert rest[0] == q && rest[1..] == Split(t, sep);
    }
  }

  /** Splitting a joined list of separator-free pieces gives the pieces back. */
  lemma {:induction false} SplitJoin(parts: seq<string>, sep: char)
    requires |parts| > 0
    requires forall i :: 0 <= i < |parts| ==> sep !in parts[i]
    ensures Split(Join(parts, sep), sep) == parts
  {
    if |parts| == 1 {
      SplitNoSeparator(parts[0], sep);
    } else {
      SplitJoin(parts[1..], sep);
      SplitAtFirst(parts[0], sep, Join(parts[1..], sep));
      assert parts == [parts[0]] + parts[1..];
    }
  }

  /** Upper-casing restricted to ASCII letters: for the enum names OneWay, TwoWay and
      Command the invariant culture's case folding agrees with it. */
  function ToUpperAscii(c: char): char {
    if 'a' <= c <= 'z' then (c as int - 32) as char else c
  }

  predicate EqualsIgnoreCase(a: string, b: string) {
    |a| == |b| && forall i :: 0 <= i < |a| ==> ToUpperAscii(a[i]) == ToUpperAscii(b[i])
  }

  predicate IsAsciiDigit(c: char) {
    '0' <= c <= '9'
  }

  function DigitValue(c: char): nat
    requires IsAsciiDigit(c)
  {
    c as int - '0' as int
  }

  function DigitsValue(s: string): nat
    requires forall i :: 0 <= i < |s| ==> IsAsciiDigit(s[i])
  {
    if s == [] then 0 else DigitsValue(s[..|s| - 1]) * 10 + DigitValue(s[|s| - 1])
  }

  const Int32Min: int := -0x8000_0000
  const Int32Max: int := 0x7FFF_FFFF

  predicate AllDigits(s: string) {
    forall i :: 0 <= i < |s| ==> IsAsciiDigit(s[i])
  }

  /** Whether a numeral starts with a sign. */
  predicate HasSign(s: string) {
    |s| > 0 && (s[0] == '-' || s[0] == '+')
  }

  /** A numeral without its sign. */
  function Unsigned(s: string): string {
    if HasSign(s) then s[1..] else s
  }

  /** An optional sign followed by one or more ASCII decimal digits. */
  predicate IsNumeral(s: string) {
    Unsigned(s) != [] && AllDigits(Unsigned(s))
  }

  /** The value a numeral denotes. */
  function NumeralValue(s: string): int
    requires IsNumeral(s)
  {
    var magnitude := DigitsValue(Unsigned(s));
    if s[0] == '-' then -(magnitude as int) else magnitude
  }

  /** The numeric branch of `Enum.TryParse`: an optional sign followed by decimal digits,
      accepted only when the value fits the enum's underlying type, Int32. */
  function ParseInt32(s: string): (r: Option<int>)
    ensures r.Some? <==> IsNumeral(s) && Int32Min <= NumeralValue(s) <= Int32Max
    ensures r.Some? ==> r.value == NumeralValue(s)
    ensures r.Some? ==> Int32Min <= r.value <= Int32Max
    ensures r.Some? ==> |s| > 0 && (IsAsciiDigit(s[0]) || s[0] == '-' || s[0] == '+')
  {
    if IsNumeral(s) && Int32Min <= NumeralValue(s) <= Int32Max then Some(NumeralValue(s)) else None
  }

  function DigitChar(d: nat): (c: char)
    requires d < 10
    ensures IsAsciiDigit(c) && DigitValue(c) == d
  {
    ('0' as int + d) as char
  }

  /** The decimal digits of a number, as `Int32.ToString()` writes a non-negative value. */
  function Decimal(n: nat): (s: string)
    decreases n
  {
    if n < 10 then [DigitChar(n)] else Decimal(n / 10) + [DigitChar(n % 10)]
  }

  lemma {:induction false} DecimalDigits(n: nat)
    ensures Decimal(n) != [] && AllDigits(Decimal(n)) && DigitsValue(Decimal(n)) == n
    decreases n
  {
    var s := Decimal(n);
    if n < 10 {
      assert s[..|s| - 1] == [];
    } else {
      DecimalDigits(n / 10);
      assert s[..|s| - 1] == Decimal(n / 10);
      assert s[|s| - 1] == DigitChar(n % 10);
    }
  }

  /** Every Int32, written in decimal, parses back to itself. */
  lemma ParseInt32Decimal(n: nat)
    ensures n <= Int32Max ==> ParseInt32(Decimal(n)) == Some(n as int)
    ensures n <= -Int32Min ==> ParseInt32("-" + Decimal(n)) == Some(-(n as int))
  {
    DecimalDigits(n);
    var d := Decimal(n);
    assert !HasSign(d) && Unsigned(d) == d;
    var m := "-" + d;
    assert HasSign(m) && Unsigned(m) == d;
  }
}
