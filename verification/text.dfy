/** String helpers with the semantics of the .NET string operations the library
    relies on: ordinal case-insensitive comparison, `Replace`, `IndexOf`,
    `Trim`, `string.Join`, integer formatting and the lowercase hexadecimal
    rendering of byte arrays. Case folding covers ASCII letters only. */
module Text {
  import opened Outcomes

  type byte = b: int | 0 <= b < 256

  /** What `StringBuilder.AppendLine` appends on the platform the library targets. */
  const CRLF: string := "\r\n"

  // ---------------------------------------------------------------------------
  // Case-insensitive comparison

  /** ASCII lower-casing of one character. */
  function Lower(c: char): char {
    if 'A' <= c <= 'Z' then (c as int + 32) as char else c
  }

  /** The case-folded form of a string: what ordinal ignore-case comparison compares. */
  function Fold(s: string): (r: string)
    ensures |r| == |s|
    ensures forall i :: 0 <= i < |s| ==> r[i] == Lower(s[i])
  {
    seq(|s|, i requires 0 <= i < |s| => Lower(s[i]))
  }

  predicate EqualsIgnoreCase(a: string, b: string) {
    Fold(a) == Fold(b)
  }

  predicate StartsWith(s: string, prefix: string) {
    |prefix| <= |s| && s[..|prefix|] == prefix
  }

  /** A prefix of a prefix is a prefix. */
  lemma StartsWithTrans(s: string, p: string, q: string)
    requires StartsWith(s, p) && StartsWith(p, q)
    ensures StartsWith(s, q)
  {
    assert s[..|q|] == s[..|p|][..|q|];
  }

  predicate EndsWithIgnoreCase(s: string, suffix: string) {
    |suffix| <= |s| && EqualsIgnoreCase(s[|s| - |suffix|..], suffix)
  }

  predicate EndsWithOrdinal(s: string, suffix: string) {
    |suffix| <= |s| && s[|s| - |suffix|..] == suffix
  }

  /** `s.IndexOf(part, StringComparison.OrdinalIgnoreCase) >= 0`. */
  predicate ContainsIgnoreCase(s: string, part: string)
    decreases |s|
  {
    (|part| <= |s| && EqualsIgnoreCase(s[..|part|], part))
    || (|s| > 0 && ContainsIgnoreCase(s[1..], part))
  }

  // ---------------------------------------------------------------------------
  // Searching and cutting

  /** `s.IndexOf(c)`: the position of the first occurrence of `c`, if any. */
  function IndexOf(s: string, c: char): (r: Option<nat>)
    ensures r.None? <==> c !in s
    ensures r.Some? ==> r.value < |s| && s[r.value] == c && c !in s[..r.value]
  {
    if |s| == 0 then None
    else if s[0] == c then Some(0)
    else match IndexOf(s[1..], c)
      case None => None
      case Some(i) => assert s[1..][..i] == s[1..i + 1]; Some(i + 1)
  }

  /** `s.Replace(c, "")` for every character of `cs`. */
  function RemoveChars(s: string, cs: set<char>): (r: string)
    ensures forall i :: 0 <= i < |r| ==> r[i] !in cs
    ensures |r| <= |s|
  {
    if |s| == 0 then ""
    else (if s[0] in cs then "" else [s[0]]) + RemoveChars(s[1..], cs)
  }

  /** Removing characters keeps every other character: the result is the input
      exactly when the input holds none of the removed characters. */
  lemma {:induction false} RemoveCharsKeepsClean(s: string, cs: set<char>)
    ensures RemoveChars(s, cs) == s <==> (forall i :: 0 <= i < |s| ==> s[i] !in cs)
  {
    if |s| > 0 {
      RemoveCharsKeepsClean(s[1..], cs);
      if s[0] in cs {
        assert |RemoveChars(s, cs)| < |s|;
      } else {
        if RemoveChars(s, cs) == s {
          assert RemoveChars(s[1..], cs) == s[1..];
          forall i | 0 <= i < |s| ensures s[i] !in cs {
            if i > 0 { assert s[i] == s[1..][i - 1]; }
          }
        }
      }
    }
  }

  /** `s.Trim(c)`: drop every leading and trailing occurrence of `c`. */
  function Trim(s: string, c: char): (r: string)
    ensures |r| <= |s|
    ensures |r| > 0 ==> r[0] != c && r[|r| - 1] != c
    decreases |s|
  {
    if |s| == 0 then ""
    else if s[0] == c then Trim(s[1..], c)
    else if s[|s| - 1] == c then Trim(s[..|s| - 1], c)
    else s
  }

  /** The characters `bool.Parse` strips from both ends of its input: the
      characters `char.IsWhiteSpace` accepts, and the null character. */
  predicate IsSpaceOrNull(c: char) {
    c == ' ' || '\t' <= c <= '\r' || c == '\0' || c == '\U{0085}' || c == '\U{00A0}' || c == '\U{1680}'
    || '\U{2000}' <= c <= '\U{200A}' || c == '\U{2028}' || c == '\U{2029}' || c == '\U{202F}' || c == '\U{205F}'
    || c == '\U{3000}'
  }

  /** A string with no strippable character at either end. */
  predicate IsTrimmed(s: string) {
    |s| == 0 || (!IsSpaceOrNull(s[0]) && !IsSpaceOrNull(s[|s| - 1]))
  }

  /** Drop every leading and trailing white-space or null character. */
  function TrimSpaceAndNull(s: string): (r: string)
    ensures |r| <= |s|
    ensures IsTrimmed(r)
    decreases |s|
  {
    if |s| == 0 then ""
    else if IsSpaceOrNull(s[0]) then TrimSpaceAndNull(s[1..])
    else if IsSpaceOrNull(s[|s| - 1]) then TrimSpaceAndNull(s[..|s| - 1])
    else s
  }

  /** Trimming removes exactly the padding: a trimmed string surrounded by
      white space comes back unchanged. */
  lemma {:induction false} TrimSpaceAndNullPadding(pre: string, s: string, post: string)
    requires forall i :: 0 <= i < |pre| ==> IsSpaceOrNull(pre[i])
    requires forall i :: 0 <= i < |post| ==> IsSpaceOrNull(post[i])
    requires IsTrimmed(s)
    ensures TrimSpaceAndNull(pre + s + post) == s
    decreases |pre| + |post|
  {
    var w := pre + s + post;
    if |pre| > 0 {
      assert w[0] == pre[0];
      assert w[1..] == pre[1..] + s + post;
      TrimSpaceAndNullPadding(pre[1..], s, post);
    } else if |s| > 0 {
      assert w == s + post;
      assert w[0] == s[0];
      if |post| > 0 {
        assert w[|w| - 1] == post[|post| - 1];
        assert w[..|w| - 1] == pre + s + post[..|post| - 1];
        TrimSpaceAndNullPadding(pre, s, post[..|post| - 1]);
      } else {
        assert w == s;
      }
    } else if |post| > 0 {
      assert w == post;
      assert w[1..] == pre + s + post[1..];
      TrimSpaceAndNullPadding(pre, s, post[1..]);
    } else {
      assert w == "";
    }
  }

  /** `string.Join(separator, parts)`. */
  function JoinWith(separator: string, parts: seq<string>): (r: string)
    ensures |parts| == 0 ==> r == ""
    ensures |parts| == 1 ==> r == parts[0]
    ensures |parts| > 1 ==> r == JoinWith(separator, parts[..|parts| - 1]) + separator + parts[|parts| - 1]
    decreases |parts|
  {
    if |parts| == 0 then ""
    else if |parts| == 1 then parts[0]
    else JoinWith(separator, parts[..|parts| - 1]) + separator + parts[|parts| - 1]
  }

  // ---------------------------------------------------------------------------
  // Quote doubling: `s.Replace("'", "''")`

  function DoubleQuotes(s: string): (r: string)
    ensures |r| >= |s|
  {
    if |s| == 0 then ""
    else (if s[0] == '\'' then "''" else [s[0]]) + DoubleQuotes(s[1..])
  }

  /** The inverse of quote doubling: every pair of quotes becomes one quote. */
  function UndoubleQuotes(s: string): string
  {
    if |s| == 0 then ""
    else if s[0] == '\'' && |s| >= 2 && s[1] == '\'' then "'" + UndoubleQuotes(s[2..])
    else [s[0]] + UndoubleQuotes(s[1..])
  }

  /** Quote doubling loses nothing: undoubling gives the original text back. */
  lemma {:induction false} DoubleQuotesRoundTrip(s: string)
    ensures UndoubleQuotes(DoubleQuotes(s)) == s
  {
    if |s| > 0 {
      DoubleQuotesRoundTrip(s[1..]);
      var r := DoubleQuotes(s);
      if s[0] == '\'' {
        assert r[2..] == DoubleQuotes(s[1..]);
      } else {
        assert r[1..] == DoubleQuotes(s[1..]);
      }
    }
  }

  function QuoteCount(s: string): nat {
    if |s| == 0 then 0 else (if s[0] == '\'' then 1 else 0) + QuoteCount(s[1..])
  }

  /** Every quote of the input appears twice in the output, and nothing else changes length. */
  lemma {:induction false} DoubleQuotesCounts(s: string)
    ensures QuoteCount(DoubleQuotes(s)) == 2 * QuoteCount(s)
    ensures |DoubleQuotes(s)| == |s| + QuoteCount(s)
  {
    if |s| > 0 {
      DoubleQuotesCounts(s[1..]);
      var head := if s[0] == '\'' then "''" else [s[0]];
      QuoteCountAppend(head, DoubleQuotes(s[1..]));
    }
  }

  lemma {:induction false} QuoteCountAppend(a: string, b: string)
    ensures QuoteCount(a + b) == QuoteCount(a) + QuoteCount(b)
  {
    if |a| > 0 {
      assert (a + b)[1..] == a[1..] + b;
      QuoteCountAppend(a[1..], b);
    } else {
      assert a + b == b;
    }
  }

  // ---------------------------------------------------------------------------
  // Integer formatting

  function Digit(d: nat): (c: char)
    requires d < 10
    ensures '0' <= c <= '9'
  {
    ('0' as int + d) as char
  }

  /** The decimal digits of a natural number, as `ToString()` prints them. */
  function NatToString(n: nat): (r: string)
    ensures |r| >= 1
    ensures forall i :: 0 <= i < |r| ==> '0' <= r[i] <= '9'
  {
    if n < 10 then [Digit(n)] else NatToString(n / 10) + [Digit(n % 10)]
  }

  /** The value of a string of decimal digits. */
  function DigitsValue(s: string): nat
    requires forall i :: 0 <= i < |s| ==> '0' <= s[i] <= '9'
  {
    if |s| == 0 then 0
    else DigitsValue(s[..|s| - 1]) * 10 + (s[|s| - 1] as int - '0' as int)
  }

  /** Printing a number and reading the digits back gives the number. */
  lemma {:induction false} NatToStringRoundTrip(n: nat)
    ensures DigitsValue(NatToString(n)) == n
  {
    if n >= 10 {
      NatToStringRoundTrip(n / 10);
      var r := NatToString(n);
      assert r[..|r| - 1] == NatToString(n / 10);
    }
  }

  /** `int.ToString()`: a minus sign for negative numbers. */
  function IntToString(i: int): (r: string)
    ensures i < 0 <==> (|r| > 0 && r[0] == '-')
  {
    if i < 0 then "-" + NatToString(-i) else NatToString(i)
  }

  // ---------------------------------------------------------------------------
  // Lowercase hexadecimal, as `b.ToString("x2")`

  function HexDigit(n: nat): (c: char)
    requires n < 16
  {
    if n < 10 then ('0' as int + n) as char else ('a' as int + n - 10) as char
  }

  function HexValue(c: char): (n: nat)
    ensures n < 16
  {
    if '0' <= c <= '9' then c as int - '0' as int
    else if 'a' <= c <= 'f' then c as int - 'a' as int + 10
    else 0
  }

  function ByteHex(b: byte): (r: string)
    ensures |r| == 2
    ensures HexValue(r[0]) * 16 + HexValue(r[1]) == b
  {
    [HexDigit(b / 16), HexDigit(b % 16)]
  }

  /** Two lowercase hexadecimal digits per byte, in order. */
  function HexOf(bytes: seq<byte>): (r: string)
    ensures |r| == 2 * |bytes|
  {
    if |bytes| == 0 then "" else HexOf(bytes[..|bytes| - 1]) + ByteHex(bytes[|bytes| - 1])
  }

  /** Reads pairs of hexadecimal digits back into bytes. */
  function HexDecode(s: string): (r: seq<byte>)
    decreases |s|
  {
    if |s| < 2 then []
    else HexDecode(s[..|s| - 2]) + [(HexValue(s[|s| - 2]) * 16 + HexValue(s[|s| - 1])) as byte]
  }

  /** A non-empty sequence is its front followed by its last element. */
  lemma InitLast<T>(s: seq<T>)
    requires |s| > 0
    ensures s[..|s| - 1] + [s[|s| - 1]] == s
  {
  }

  /** Decoding reads the last two digits as the last byte. */
  lemma HexDecodeStep(p: string, b: byte)
    ensures HexDecode(p + ByteHex(b)) == HexDecode(p) + [b]
  {
    var h := ByteHex(b);
    var s := p + h;
    assert s[..|s| - 2] == p;
    assert s[|s| - 2] == h[0] && s[|s| - 1] == h[1];
  }

  /** The hexadecimal rendering of a byte array decodes back to the same bytes. */
  lemma {:induction false} HexRoundTrip(bytes: seq<byte>)
    ensures HexDecode(HexOf(bytes)) == bytes
  {
    if |bytes| > 0 {
      var init := bytes[..|bytes| - 1];
      var last := bytes[|bytes| - 1];
      var prefix := HexOf(init);
      HexRoundTrip(init);
      HexDecodeStep(prefix, last);
      assert HexDecode(prefix + ByteHex(last)) == init + [last];
      assert HexOf(bytes) == prefix + ByteHex(last);
      InitLast(bytes);
    }
  }

  /** The `0x...` literal of a byte array, built one byte at a time the way the
      library's loop over the array builds it. */
  method HexLiteral(bytes: seq<byte>) returns (r: string)
    ensures |r| == 2 + 2 * |bytes|
    ensures r[..2] == "0x" && HexDecode(r[2..]) == bytes
    ensures r == "0x" + HexOf(bytes)
  {
    r := "0x";
    var i := 0;
    while i < |bytes|
      invariant 0 <= i <= |bytes|
      invariant r == "0x" + HexOf(bytes[..i])
    {
      assert bytes[..i + 1][..i] == bytes[..i];
      r := r + ByteHex(bytes[i]);
      i := i + 1;
    }
    assert bytes[..i] == bytes;
    assert r[2..] == HexOf(bytes);
    HexRoundTrip(bytes);
  }

  // ---------------------------------------------------------------------------
  // Occurrence of a piece of text

  /** The piece of `s` of length `n` at `i`. */
  function Window(s: string, i: nat, n: nat): (r: string)
    requires i + n <= |s|
    ensures |r| == n && forall k :: 0 <= k < n ==> r[k] == s[i + k]
  {
    s[i..i + n]
  }

  /** `part` occurs in `s`. */
  predicate Occurs(part: string, s: string) {
    exists i: nat :: i + |part| <= |s| && Window(s, i, |part|) == part
  }

  lemma OccursPrefix(part: string, s: string, t: string)
    requires Occurs(part, s)
    ensures Occurs(part, s + t)
  {
    var i: nat :| i + |part| <= |s| && Window(s, i, |part|) == part;
    assert Window(s + t, i, |part|) == part;
  }

  lemma OccursSuffix(part: string, s: string, t: string)
    requires Occurs(part, t)
    ensures Occurs(part, s + t)
  {
    var i: nat :| i + |part| <= |t| && Window(t, i, |part|) == part;
    assert Window(s + t, |s| + i, |part|) == part;
  }

  lemma OccursAt(part: string, s: string, t: string)
    ensures Occurs(part, s + part + t)
  {
    assert Window(s + part + t, |s|, |part|) == part;
  }
}
