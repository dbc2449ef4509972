/** The few Python built-in behaviours the core leans on, stated explicitly. */
module PyBuiltins {
  import opened Wrappers

  /** The exceptions the modelled code can raise. */
  datatype Exception =
    | KeyError          // a missing dictionary key
    | IndexError        // `xs[0]` on an empty list
    | TypeError         // comparing with or subscripting `None`
    | AttributeError    // calling a method on `None`
    | ConnectionError   // requests.exceptions.ConnectionError
    | NameResolutionError
    | TimeoutError
    | RemoteDisconnected
    | IntegrityError    // a foreign-key violation reported by the database at commit

  /** `n` is what Python's `int(x)` gives for the float `x`: truncation toward zero. */
  ghost predicate TruncatesTo(x: real, n: int) {
    && (0.0 <= x ==> n as real <= x < n as real + 1.0)
    && (x < 0.0 ==> n as real - 1.0 < x <= n as real)
  }

  /** Python's `int(x)` on a number. */
  function Trunc(x: real): (n: int)
    ensures TruncatesTo(x, n)
  {
    if x >= 0.0 then x.Floor else -((-x).Floor)
  }

  /** `int(x)` is the identity on whole numbers. */
  lemma TruncOfInt(n: int)
    ensures Trunc(n as real) == n
  {
  }

  /** Python's truthiness of an optional number: neither None nor zero. */
  predicate Truthy(v: Option<real>) {
    v.Some? && v.value != 0.0
  }

  /** How an f-string renders an optional string: `None` prints as the word None. */
  function Render(s: Option<string>): (r: string)
    ensures s.Some? ==> r == s.value
    ensures s.None? ==> r == "None"
  {
    if s.Some? then s.value else "None"
  }

  /** The characters for which Python's `str.isspace()` holds; this is what `\s` matches in a `str` pattern. */
  predicate IsSpace(c: char) {
    || c == ' ' || c == '\t' || c == '\n' || c == '\r' || c == '\U{B}' || c == '\U{C}'
    || ('\U{1C}' <= c <= '\U{1F}') || c == '\U{85}' || c == '\U{A0}' || c == '\U{1680}'
    || ('\U{2000}' <= c <= '\U{200A}') || c == '\U{2028}' || c == '\U{2029}'
    || c == '\U{202F}' || c == '\U{205F}' || c == '\U{3000}'
  }

  /** What `\d` matches, restricted to the ASCII digits. */
  predicate IsDigit(c: char) {
    '0' <= c <= '9'
  }

  /** `s.replace(a, b)` for single characters. */
  function ReplaceChar(s: string, a: char, b: char): (r: string)
    ensures |r| == |s|
    ensures forall i :: 0 <= i < |s| ==> r[i] == (if s[i] == a then b else s[i])
  {
    if s == [] then [] else [if s[0] == a then b else s[0]] + ReplaceChar(s[1..], a, b)
  }

  /** `s.replace(c, '')` for a single character. */
  function RemoveChar(s: string, c: char): (r: string)
    ensures |r| <= |s|
  {
    if s == [] then [] else (if s[0] == c then [] else [s[0]]) + RemoveChar(s[1..], c)
  }

  /** Removal drops every occurrence of the character and keeps the count of every other one. */
  lemma {:induction false} RemoveCharCounts(s: string, c: char)
    ensures c !in RemoveChar(s, c)
    ensures forall x :: x != c ==> multiset(RemoveChar(s, c))[x] == multiset(s)[x]
  {
    if s != [] {
      assert s == [s[0]] + s[1..];
      RemoveCharCounts(s[1..], c);
    }
  }

  /**
   * Removal works one character at a time: it distributes over concatenation, so the
   * characters that are kept stay in their order.
   */
  lemma {:induction false} RemoveCharConcat(a: string, b: string, c: char)
    ensures RemoveChar(a + b, c) == RemoveChar(a, c) + RemoveChar(b, c)
  {
    if a == [] {
      assert a + b == b;
    } else {
      assert (a + b)[0] == a[0];
      assert (a + b)[1..] == a[1..] + b;
      RemoveCharConcat(a[1..], b, c);
    }
  }

  /** A string without the character is left as it is. */
  lemma {:induction false} RemoveCharAbsent(s: string, c: char)
    requires c !in s
    ensures RemoveChar(s, c) == s
  {
    if s != [] {
      RemoveCharAbsent(s[1..], c);
    }
  }
}
