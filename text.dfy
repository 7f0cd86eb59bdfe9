/** The JavaScript string operations the webhook relies on: `trim`,
    `toLowerCase` (for comparisons against ASCII words), the `\d` class of
    regular expressions, and `split`/`join` on a one-character separator. */
module Text {

  /** The characters `String.prototype.trim` removes: ECMAScript's WhiteSpace
      (TAB, VT, FF, ZWNBSP and every space separator of category Zs) and
      LineTerminator (LF, CR, LS, PS). */
  predicate IsJsWhitespace(c: char) {
    c == '\t' || c == '\n' || c == '\U{B}' || c == '\U{C}' || c == '\r' || c == ' '
    || c == '\U{A0}' || c == '\U{1680}' || ('\U{2000}' <= c <= '\U{200A}')
    || c == '\U{2028}' || c == '\U{2029}' || c == '\U{202F}' || c == '\U{205F}'
    || c == '\U{3000}' || c == '\U{FEFF}'
  }

  /** Number of leading whitespace characters of `s`. */
  function LeadingWhitespace(s: string): (n: nat)
    ensures n <= |s|
    ensures forall k :: 0 <= k < n ==> IsJsWhitespace(s[k])
    ensures n < |s| ==> !IsJsWhitespace(s[n])
  {
    if s == [] || !IsJsWhitespace(s[0]) then 0 else 1 + LeadingWhitespace(s[1..])
  }

  /** Length of `s` once its trailing whitespace is cut off. */
  function WithoutTrailingWhitespace(s: string): (n: nat)
    ensures n <= |s|
    ensures forall k :: n <= k < |s| ==> IsJsWhitespace(s[k])
    ensures n > 0 ==> !IsJsWhitespace(s[n - 1])
  {
    if s == [] || !IsJsWhitespace(s[|s| - 1]) then |s| else WithoutTrailingWhitespace(s[..|s| - 1])
  }

  /** `s.trim()`: the slice of `s` that starts after its leading whitespace
      and stops before its trailing whitespace. */
  function Trim(s: string): (r: string)
    ensures var i := LeadingWhitespace(s);
      i + |r| <= |s| && r == s[i..i + |r|]
      && forall k :: i + |r| <= k < |s| ==> IsJsWhitespace(s[k])
    ensures r == [] || (!IsJsWhitespace(r[0]) && !IsJsWhitespace(r[|r| - 1]))
  {
    var i := LeadingWhitespace(s);
    s[i..][..WithoutTrailingWhitespace(s[i..])]
  }

  lemma {:induction false} LeadingOfPadded(pre: string, rest: string)
    requires forall k :: 0 <= k < |pre| ==> IsJsWhitespace(pre[k])
    requires rest == [] || !IsJsWhitespace(rest[0])
    ensures LeadingWhitespace(pre + rest) == |pre|
    decreases |pre|
  {
    if pre != [] {
      assert (pre + rest)[1..] == pre[1..] + rest;
      LeadingOfPadded(pre[1..], rest);
    }
  }

  lemma {:induction false} TrailingOfPadded(rest: string, post: string)
    requires forall k :: 0 <= k < |post| ==> IsJsWhitespace(post[k])
    requires rest == [] || !IsJsWhitespace(rest[|rest| - 1])
    ensures WithoutTrailingWhitespace(rest + post) == |rest|
    decreases |post|
  {
    if post != [] {
      assert (rest + post)[..|rest + post| - 1] == rest + post[..|post| - 1];
      TrailingOfPadded(rest, post[..|post| - 1]);
    }
  }

  /** Trimming removes exactly the whitespace around a word that neither
      starts nor ends with whitespace. */
  lemma TrimPadded(pre: string, w: string, post: string)
    requires forall k :: 0 <= k < |pre| ==> IsJsWhitespace(pre[k])
    requires forall k :: 0 <= k < |post| ==> IsJsWhitespace(post[k])
    requires w == [] || (!IsJsWhitespace(w[0]) && !IsJsWhitespace(w[|w| - 1]))
    ensures Trim(pre + w + post) == w
  {
    var s := pre + w + post;
    if w == [] {
      assert s == (pre + post) + [];
      LeadingOfPadded(pre + post, []);
      assert s[|s|..] == [];
    } else {
      assert s == pre + (w + post);
      LeadingOfPadded(pre, w + post);
      assert s[|pre|..] == w + post;
      TrailingOfPadded(w, post);
    }
  }

  /** `c.toLowerCase()` restricted to ASCII letters. Comparing the result with
      an ASCII lower-case word gives the same answer as JavaScript's full
      Unicode mapping, because no non-ASCII character lower-cases to the
      letters that such words are made of here. */
  function AsciiLower(c: char): (r: char)
    ensures 'A' <= c <= 'Z' ==> r as int == c as int + 32
    ensures !('A' <= c <= 'Z') ==> r == c
  {
    if 'A' <= c <= 'Z' then (c as int + 32) as char else c
  }

  function ToLower(s: string): (r: string)
    ensures |r| == |s|
    ensures forall k :: 0 <= k < |s| ==> r[k] == AsciiLower(s[k])
  {
    seq(|s|, k requires 0 <= k < |s| => AsciiLower(s[k]))
  }

  /** The regular-expression class `\d`, which is ASCII-only in JavaScript. */
  predicate IsDigit(c: char) {
    '0' <= c <= '9'
  }

  predicate AllDigits(s: string) {
    forall k :: 0 <= k < |s| ==> IsDigit(s[k])
  }

  /** `parts.join(d)`. */
  function Join(parts: seq<string>, d: char): (r: string)
    ensures |parts| == 1 ==> r == parts[0]
  {
    if |parts| == 0 then ""
    else if |parts| == 1 then parts[0]
    else parts[0] + [d] + Join(parts[1..], d)
  }

  /** `s.split(d)`: the pieces between occurrences of `d`; the empty string
      splits into one empty piece. */
  function Split(s: string, d: char): (parts: seq<string>)
    ensures |parts| >= 1
    ensures forall i :: 0 <= i < |parts| ==> d !in parts[i]
    ensures Join(parts, d) == s
  {
    if s == [] then [""]
    else
      var rest := Split(s[1..], d);
      if s[0] == d then
        assert s == [d] + s[1..];
        [""] + rest
      else
        var parts := [[s[0]] + rest[0]] + rest[1..];
        assert |rest| > 1 ==> Join(parts, d) == [s[0]] + rest[0] + [d] + Join(rest[1..], d);
        parts
  }

  /** A string without the separator is a single piece. */
  lemma {:induction false} SplitWithoutSeparator(s: string, d: char)
    requires d !in s
    ensures Split(s, d) == [s]
  {
    if s != [] {
      SplitWithoutSeparator(s[1..], d);
    }
  }

  /** Splitting distributes over a separator placed between two strings. */
  lemma {:induction false} SplitConcat(a: string, b: string, d: char)
    ensures Split(a + [d] + b, d) == Split(a, d) + Split(b, d)
  {
    if a == [] {
      assert a + [d] + b == [d] + b;
      assert ([d] + b)[1..] == b;
    } else {
      assert (a + [d] + b)[1..] == a[1..] + [d] + b;
      SplitConcat(a[1..], b, d);
    }
  }

  /** `split` undoes `join` on non-empty lists of pieces without the separator. */
  lemma {:induction false} SplitJoin(parts: seq<string>, d: char)
    requires |parts| >= 1
    requires forall i :: 0 <= i < |parts| ==> d !in parts[i]
    ensures Split(Join(parts, d), d) == parts
  {
    if |parts| == 1 {
      SplitWithoutSeparator(parts[0], d);
    } else {
      SplitJoin(parts[1..], d);
      SplitConcat(parts[0], Join(parts[1..], d), d);
      SplitWithoutSeparator(parts[0], d);
      assert parts == [parts[0]] + parts[1..];
    }
  }
}
