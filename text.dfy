/**
 * The string operations the script applies to identifiers and script templates:
 * `replace(/\s/g, '')`, decimal rendering of page numbers, and `replace` with a
 * string pattern.
 */
module Text {
  import opened Wrappers
  import Lists

  // ---------------------------------------------------------------------------
  // Whitespace removal
  // ---------------------------------------------------------------------------

  /** `c` matches the regular-expression class `\s` of ECMAScript: the WhiteSpace
      characters (tab, vertical tab, form feed, space, no-break space, byte order
      mark and every Unicode space separator) and the four line terminators. */
  predicate IsWhitespace(c: char) {
    || c == '\t' || c == '\n' || c == '\U{0B}' || c == '\U{0C}' || c == '\r'
    || c == ' ' || c == '\U{A0}' || c == '\U{1680}'
    || ('\U{2000}' <= c <= '\U{200A}')
    || c == '\U{2028}' || c == '\U{2029}' || c == '\U{202F}' || c == '\U{205F}'
    || c == '\U{3000}' || c == '\U{FEFF}'
  }

  predicate WhitespaceFree(s: string) {
    forall i :: 0 <= i < |s| ==> !IsWhitespace(s[i])
  }

  /** `s.replace(/\s/g, '')`. */
  function StripWhitespace(s: string): (r: string)
    ensures WhitespaceFree(r)
    ensures |r| <= |s|
  {
    if s == [] then []
    else if IsWhitespace(s[0]) then StripWhitespace(s[1..])
    else [s[0]] + StripWhitespace(s[1..])
  }

  /** Stripping is exactly filtering out the whitespace characters: the other
      characters all stay, in their order. */
  lemma {:induction false} StripIsFilter(s: string)
    ensures StripWhitespace(s) == Lists.Filter(s, c => !IsWhitespace(c))
  {
    if s != [] {
      StripIsFilter(s[1..]);
    }
  }

  /** A string without whitespace is left as it is. */
  lemma {:induction false} StripWhitespaceFree(s: string)
    requires WhitespaceFree(s)
    ensures StripWhitespace(s) == s
  {
    if s != [] {
      StripWhitespaceFree(s[1..]);
    }
  }

  /** Stripping distributes over concatenation. */
  lemma {:induction false} StripConcat(a: string, b: string)
    ensures StripWhitespace(a + b) == StripWhitespace(a) + StripWhitespace(b)
  {
    if a != [] {
      assert (a + b)[0] == a[0] && (a + b)[1..] == a[1..] + b;
      StripConcat(a[1..], b);
      if !IsWhitespace(a[0]) {
        assert StripWhitespace(a + b) == [a[0]] + StripWhitespace(a[1..] + b);
      }
    } else {
      assert a + b == b;
    }
  }

  /** Stripping twice is stripping once. */
  lemma StripIdempotent(s: string)
    ensures StripWhitespace(StripWhitespace(s)) == StripWhitespace(s)
  {
    StripWhitespaceFree(StripWhitespace(s));
  }

  /** Strings with the same text around them are equal exactly when they are equal. */
  lemma FramedEqual(head: string, s1: string, s2: string, tail: string)
    ensures head + s1 + tail == head + s2 + tail <==> s1 == s2
  {
    if head + s1 + tail == head + s2 + tail {
      assert |s1| == |s2|;
      assert s1 == (head + s1 + tail)[|head|..|head| + |s1|];
      assert s2 == (head + s2 + tail)[|head|..|head| + |s2|];
    }
  }

  // ---------------------------------------------------------------------------
  // Decimal numerals: how JavaScript renders a non-negative integer as text
  // ---------------------------------------------------------------------------

  predicate IsDigit(c: char) {
    '0' <= c <= '9'
  }

  predicate AllDigits(s: string) {
    forall i :: 0 <= i < |s| ==> IsDigit(s[i])
  }

  function DigitChar(d: nat): (c: char)
    requires d < 10
    ensures IsDigit(c) && c as int - '0' as int == d
  {
    (d + '0' as int) as char
  }

  /** `String(n)` for a non-negative integer `n`. */
  function Decimal(n: nat): (r: string)
    ensures |r| > 0 && AllDigits(r)
    ensures r[0] == '0' ==> n == 0
    decreases n
  {
    if n < 10 then [DigitChar(n)] else Decimal(n / 10) + [DigitChar(n % 10)]
  }

  /** The number a string of decimal digits denotes. */
  function DecimalValue(s: string): nat
    requires AllDigits(s)
  {
    if s == [] then 0 else DecimalValue(s[..|s| - 1]) * 10 + (s[|s| - 1] as int - '0' as int)
  }

  /** Reading a rendered numeral back gives the number: rendering loses nothing. */
  lemma {:induction false} DecimalRoundTrip(n: nat)
    ensures DecimalValue(Decimal(n)) == n
    decreases n
  {
    var r := Decimal(n);
    if n >= 10 {
      assert r[..|r| - 1] == Decimal(n / 10);
      DecimalRoundTrip(n / 10);
    }
  }

  /** Distinct numbers render as distinct numerals. */
  lemma DecimalInjective(m: nat, n: nat)
    ensures Decimal(m) == Decimal(n) <==> m == n
  {
    DecimalRoundTrip(m);
    DecimalRoundTrip(n);
  }

  // ---------------------------------------------------------------------------
  // `replace` with a string pattern
  // ---------------------------------------------------------------------------

  predicate Lacks(s: string, c: char) {
    forall i :: 0 <= i < |s| ==> s[i] != c
  }

  lemma LacksConcat(a: string, b: string, c: char)
    requires Lacks(a, c) && Lacks(b, c)
    ensures Lacks(a + b, c)
  {
  }

  lemma DigitsLackDollar(s: string)
    requires AllDigits(s)
    ensures Lacks(s, '$')
  {
  }

  predicate OccursAt(s: string, pattern: string, i: nat) {
    i + |pattern| <= |s| && s[i..i + |pattern|] == pattern
  }

  /** The first position at or after `from` where `pattern` occurs in `s`. */
  function IndexOfFrom(s: string, pattern: string, from: nat): (r: Option<nat>)
    ensures r.Some? ==> from <= r.value && OccursAt(s, pattern, r.value)
    ensures r.Some? ==> forall j: nat :: from <= j < r.value ==> !OccursAt(s, pattern, j)
    ensures r.None? ==> forall j: nat :: from <= j ==> !OccursAt(s, pattern, j)
    decreases |s| + 1 - from
  {
    if from + |pattern| > |s| then None
    else if s[from..from + |pattern|] == pattern then Some(from)
    else IndexOfFrom(s, pattern, from + 1)
  }

  /** `pattern` occurs at `i` and nowhere before it. */
  predicate FirstOccursAt(s: string, pattern: string, i: nat) {
    OccursAt(s, pattern, i) && forall j: nat :: j < i ==> !OccursAt(s, pattern, j)
  }

  /** `s.replace(pattern, replacement)` with a string pattern: the first
      occurrence of `pattern`, if any, is replaced; the rest of `s` is kept. */
  function ReplaceFirst(s: string, pattern: string, replacement: string): (r: string)
    ensures (forall j: nat :: !OccursAt(s, pattern, j)) ==> r == s
    ensures forall i: nat :: FirstOccursAt(s, pattern, i) ==> r == s[..i] + replacement + s[i + |pattern|..]
  {
    match IndexOfFrom(s, pattern, 0)
    case None => s
    case Some(i) => s[..i] + replacement + s[i + |pattern|..]
  }

  /** In `head + pattern + tail`, where `head` lacks the pattern's first character,
      `replace` substitutes exactly the occurrence that follows `head`. */
  lemma ReplaceAfterHead(head: string, pattern: string, tail: string, replacement: string)
    requires |pattern| > 0 && Lacks(head, pattern[0])
    ensures ReplaceFirst(head + pattern + tail, pattern, replacement) == head + replacement + tail
  {
    var s := head + pattern + tail;
    assert s[|head|..|head| + |pattern|] == pattern;
    assert OccursAt(s, pattern, |head|);
    forall j: nat | j < |head| ensures !OccursAt(s, pattern, j) {
      assert s[j] == head[j];
    }
    assert FirstOccursAt(s, pattern, |head|);
    assert s[..|head|] == head;
    assert s[|head| + |pattern|..] == tail;
  }
}
